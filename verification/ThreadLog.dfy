/** One thread's log on values: hash chains per (author, lane), merged into one total
    order.  `Append` is the single place where the append rules live. */
module ThreadLogs {
  import opened Entries
  import opened Sequences
  import InsertionSort

  datatype ChainHead = ChainHead(seqNo: u64, hash: Hash)

  datatype Log = Log(
    thread: string, heads: map<ChainKey, ChainHead>, byId: map<string, Entry>,
    entries: seq<Entry>, lamport: u64)

  function EmptyLog(thread: string): Log {
    Log(thread, map[], map[], [], 0)
  }

  function Elems(es: seq<Entry>): set<Entry> {
    set e | e in es
  }

  // ------------------------------------------------------------------ what a log may hold

  predicate SameSlot(a: Entry, b: Entry) {
    KeyOf(a) == KeyOf(b) && a.seqNo == b.seqNo
  }

  /** `e` opens its chain, or links by hash to its predecessor, which is in `s`. */
  ghost predicate Linked(s: set<Entry>, e: Entry) {
    if e.seqNo == 1 then e.prev == GenesisPrev
    else
      && e.prev.HashOf?
      && e.prev.entry in s
      && KeyOf(e.prev.entry) == KeyOf(e)
      && e.prev.entry.seqNo + 1 == e.seqNo
  }

  predicate SameId(a: Entry, b: Entry) {
    a.id == b.id
  }

  ghost predicate AllLinked(s: set<Entry>) {
    forall e {:trigger Linked(s, e)} :: e in s ==> Linked(s, e)
  }

  ghost predicate OnePerId(s: set<Entry>) {
    forall e, f {:trigger SameId(e, f)} :: e in s && f in s && SameId(e, f) ==> e == f
  }

  ghost predicate OnePerSlot(s: set<Entry>) {
    forall e, f {:trigger SameSlot(e, f)} :: e in s && f in s && SameSlot(e, f) ==> e == f
  }

  ghost predicate AllValid(s: set<Entry>, thread: string) {
    forall e :: e in s ==> e.thread == thread && Validate(e)
  }

  /** The sets of entries a thread log may hold: valid entries of the thread, one per id
      and per chain position, every chain linked back to its first entry. */
  ghost predicate ChainSet(s: set<Entry>, thread: string) {
    AllValid(s, thread) && AllLinked(s) && OnePerId(s) && OnePerSlot(s)
  }

  ghost predicate InOrder(es: seq<Entry>) {
    forall i, j :: 0 <= i < j < |es| ==> Less(es[i], es[j])
  }

  ghost predicate HeadsOf(heads: map<ChainKey, ChainHead>, s: set<Entry>) {
    && (forall k :: k in heads ==>
          && heads[k].hash.HashOf?
          && heads[k].hash.entry in s
          && KeyOf(heads[k].hash.entry) == k
          && heads[k].hash.entry.seqNo == heads[k].seqNo)
    && (forall e :: e in s ==> KeyOf(e) in heads && e.seqNo <= heads[KeyOf(e)].seqNo)
  }

  ghost predicate IndexOf(byId: map<string, Entry>, s: set<Entry>) {
    && (forall id :: id in byId ==> byId[id] in s && byId[id].id == id)
    && (forall e :: e in s ==> e.id in byId && byId[e.id] == e)
  }

  ghost predicate ClockOf(lamport: u64, s: set<Entry>) {
    && (forall e :: e in s ==> e.lamport <= lamport)
    && (if s == {} then lamport == 0 else exists e :: e in s && e.lamport == lamport)
  }

  /** All four fields of the log agree with the set of entries it holds. */
  ghost predicate Represents(l: Log, s: set<Entry>) {
    && Elems(l.entries) == s
    && InOrder(l.entries)
    && HeadsOf(l.heads, s)
    && IndexOf(l.byId, s)
    && ClockOf(l.lamport, s)
  }

  ghost predicate Inv(l: Log) {
    ChainSet(Elems(l.entries), l.thread) && Represents(l, Elems(l.entries))
  }

  lemma InvChains(l: Log)
    requires Inv(l)
    ensures ChainSet(Elems(l.entries), l.thread)
  {
  }

  lemma LogInOrder(l: Log)
    requires Inv(l)
    ensures InOrder(l.entries)
  {
  }

  lemma EmptyLogInv(thread: string)
    ensures Inv(EmptyLog(thread))
  {
    assert Elems([]) == {};
  }

  // ------------------------------------------------------------------ appending

  datatype AppendError =
    | WrongThread | InvalidEntry | IdCollision
    | FirstSeqNotOne | FirstPrevNotGenesis | SeqGap | PrevMismatch

  datatype Admission = Admitted(log: Log) | Refused(error: AppendError)

  /** The first index whose entry is not less than `e`. */
  function Position(es: seq<Entry>, e: Entry): (i: nat)
    ensures i <= |es|
    ensures forall j :: 0 <= j < i ==> Less(es[j], e)
    ensures i < |es| ==> !Less(es[i], e)
  {
    if es == [] || !Less(es[0], e) then 0 else 1 + Position(es[1..], e)
  }

  lemma {:induction false} PositionUnique(es: seq<Entry>, e: Entry, i: nat)
    requires i <= |es|
    requires forall j :: 0 <= j < i ==> Less(es[j], e)
    requires i < |es| ==> !Less(es[i], e)
    ensures Position(es, e) == i
  {
    var p := Position(es, e);
    ghost var atP := p < |es| && Less(es[p], e);
    ghost var atI := i < |es| && Less(es[i], e);
    assert p < i ==> atP;
    assert i < p ==> atI;
  }

  function InsertAt(es: seq<Entry>, i: nat, e: Entry): seq<Entry>
    requires i <= |es|
  {
    es[..i] + [e] + es[i..]
  }

  /** The chain rule, `None` when `e` extends its chain. */
  function ChainError(heads: map<ChainKey, ChainHead>, e: Entry): Option<AppendError> {
    var k := KeyOf(e);
    if k !in heads then
      if e.seqNo != 1 then Some(FirstSeqNotOne)
      else if e.prev != GenesisPrev then Some(FirstPrevNotGenesis)
      else None
    else
      if e.seqNo != Succ(heads[k].seqNo) then Some(SeqGap)
      else if e.prev != heads[k].hash then Some(PrevMismatch)
      else None
  }

  function Insert(l: Log, e: Entry): Log {
    Log(l.thread,
        l.heads[KeyOf(e) := ChainHead(e.seqNo, HashOf(e))],
        l.byId[e.id := e],
        InsertAt(l.entries, Position(l.entries, e), e),
        if e.lamport > l.lamport then e.lamport else l.lamport)
  }

  function Append(l: Log, e: Entry): Admission {
    if e.thread != l.thread then Refused(WrongThread)
    else if !Validate(e) then Refused(InvalidEntry)
    else if e.id in l.byId then
      if HashOf(l.byId[e.id]) == HashOf(e) then Admitted(l) else Refused(IdCollision)
    else
      match ChainError(l.heads, e)
      case Some(err) => Refused(err)
      case None => Admitted(Insert(l, e))
  }

  // ------------------------------------------------------------------ chains inside a set

  /** The entry at position `n` of the chain that `e` ends, following hashes backwards. */
  function Ancestor(e: Entry, n: nat): Entry {
    if e.seqNo <= n || !e.prev.HashOf? then e else Ancestor(e.prev.entry, n)
  }

  lemma {:induction false} AncestorHeld(s: set<Entry>, thread: string, e: Entry, n: nat)
    requires ChainSet(s, thread) && e in s && 1 <= n <= e.seqNo
    ensures Ancestor(e, n) in s && KeyOf(Ancestor(e, n)) == KeyOf(e) && Ancestor(e, n).seqNo == n
    decreases e
  {
    assert Linked(s, e);
    if n < e.seqNo {
      AncestorHeld(s, thread, e.prev.entry, n);
    }
  }

  /** A subset of an admissible set is admissible as soon as its own chains are linked. */
  lemma LinkedSubset(s: set<Entry>, t: set<Entry>, thread: string)
    requires ChainSet(t, thread) && s <= t
    requires forall e :: e in s && e.seqNo > 1 && e.prev.HashOf? ==> e.prev.entry in s
    ensures ChainSet(s, thread)
  {
    forall e | e in s ensures Linked(s, e) {
      assert Linked(t, e);
    }
  }

  // ------------------------------------------------------------------ Append, exactly

  lemma {:induction false} InsertElems(es: seq<Entry>, i: nat, e: Entry)
    requires i <= |es|
    ensures Elems(InsertAt(es, i, e)) == Elems(es) + {e}
  {
    var r := InsertAt(es, i, e);
    forall x ensures x in r <==> x in es || x == e {
      if x in es {
        var j :| 0 <= j < |es| && es[j] == x;
        assert r[if j < i then j else j + 1] == x;
      }
      assert r[i] == e;
    }
  }

  lemma InsertInOrder(es: seq<Entry>, e: Entry)
    requires InOrder(es)
    requires forall x :: x in es ==> x.id != e.id
    ensures InOrder(InsertAt(es, Position(es, e), e))
  {
    var p := Position(es, e);
    var r := InsertAt(es, p, e);
    forall j | p <= j < |es| ensures Less(e, es[j]) {
      LessTotal(e, es[p]);
      if p < j {
        LessTransitive(e, es[p], es[j]);
      }
    }
    forall i, j | 0 <= i < j < |r| ensures Less(r[i], r[j]) {
      assert r[i] == if i < p then es[i] else if i == p then e else es[i - 1];
      assert r[j] == if j < p then es[j] else if j == p then e else es[j - 1];
      if i < p < j {
        LessTransitive(es[i], e, es[j - 1]);
      }
    }
  }

  lemma AddEntry(s: set<Entry>, thread: string, e: Entry)
    requires ChainSet(s, thread) && e.thread == thread && Validate(e) && Linked(s, e)
    requires forall f :: f in s ==> f.id != e.id
    requires forall f :: f in s ==> !SameSlot(e, f)
    ensures ChainSet(s + {e}, thread)
  {
    forall f | f in s + {e} ensures Linked(s + {e}, f) {
      assert f != e ==> Linked(s, f);
    }
    forall f, g | f in s + {e} && g in s + {e} && SameSlot(f, g) ensures f == g {
      assert SameSlot(g, f);
    }
  }

  lemma HeadFacts(heads: map<ChainKey, ChainHead>, s: set<Entry>, e: Entry)
    requires HeadsOf(heads, s) && e in s
    ensures KeyOf(e) in heads && e.seqNo <= heads[KeyOf(e)].seqNo
  {
  }

  /** Passing the chain rule keeps the set admissible. */
  lemma ChainRuleSound(heads: map<ChainKey, ChainHead>, s: set<Entry>, thread: string, e: Entry)
    requires ChainSet(s, thread) && HeadsOf(heads, s) && e.thread == thread && Validate(e)
    requires forall f :: f in s ==> f.id != e.id
    requires ChainError(heads, e) == None
    ensures ChainSet(s + {e}, thread)
  {
    forall f | f in s ensures !SameSlot(e, f) {
      HeadFacts(heads, s, f);
    }
    AddEntry(s, thread, e);
  }

  /** An entry that links and takes a free position passes the chain rule. */
  lemma ChainRuleComplete(heads: map<ChainKey, ChainHead>, s: set<Entry>, thread: string, e: Entry)
    requires ChainSet(s, thread) && HeadsOf(heads, s) && e.seqNo >= 1
    requires Linked(s, e)
    requires forall f :: f in s ==> !SameSlot(e, f)
    ensures ChainError(heads, e) == None
  {
    var k := KeyOf(e);
    if e.seqNo > 1 {
      HeadFacts(heads, s, e.prev.entry);
    }
    if k in heads {
      var h := heads[k].hash.entry;
      if e.seqNo <= h.seqNo {
        AncestorHeld(s, thread, h, e.seqNo);
      } else if e.seqNo > 1 {
        assert SameSlot(h, e.prev.entry);
      }
    }
  }

  lemma LinkedWithout(s: set<Entry>, thread: string, e: Entry)
    requires ChainSet(s + {e}, thread) && e !in s
    ensures Linked(s, e)
    ensures forall f :: f in s ==> !SameSlot(e, f)
  {
    assert Linked(s + {e}, e);
  }

  lemma HeadsInserted(heads: map<ChainKey, ChainHead>, s: set<Entry>, e: Entry)
    requires HeadsOf(heads, s) && ChainError(heads, e) == None && e.seqNo >= 1
    ensures HeadsOf(heads[KeyOf(e) := ChainHead(e.seqNo, HashOf(e))], s + {e})
  {
    forall f | f in s ensures KeyOf(f) == KeyOf(e) ==> f.seqNo <= e.seqNo {
      HeadFacts(heads, s, f);
    }
  }

  lemma ClockInserted(clock: u64, s: set<Entry>, e: Entry)
    requires ClockOf(clock, s)
    ensures ClockOf(if e.lamport > clock then e.lamport else clock, s + {e})
  {
    assert e in s + {e};
    if e.lamport <= clock && s != {} {
      var f :| f in s && f.lamport == clock;
      assert f in s + {e};
    }
  }

  lemma InsertRepresents(l: Log, e: Entry)
    requires Represents(l, Elems(l.entries)) && e.id !in l.byId && e.seqNo >= 1
    requires ChainError(l.heads, e) == None
    ensures Represents(Insert(l, e), Elems(l.entries) + {e})
  {
    var s := Elems(l.entries);
    InsertElems(l.entries, Position(l.entries, e), e);
    assert InOrder(Insert(l, e).entries) by {
      assert forall x :: x in l.entries ==> x in s;
      InsertInOrder(l.entries, e);
    }
    HeadsInserted(l.heads, s, e);
    ClockInserted(l.lamport, s, e);
    IndexInserted(l.byId, s, e);
  }

  lemma IndexInserted(byId: map<string, Entry>, s: set<Entry>, e: Entry)
    requires IndexOf(byId, s) && e.id !in byId
    ensures IndexOf(byId[e.id := e], s + {e})
  {
  }

  lemma AppendNew(l: Log, e: Entry)
    requires Inv(l) && e.thread == l.thread && Validate(e) && e.id !in l.byId
    ensures ChainError(l.heads, e) == None <==> ChainSet(Elems(l.entries) + {e}, l.thread)
    ensures ChainError(l.heads, e) == None ==> Inv(Insert(l, e))
  {
    var s := Elems(l.entries);
    assert forall f :: f in s ==> f.id in l.byId;
    if ChainError(l.heads, e) == None {
      ChainRuleSound(l.heads, s, l.thread, e);
      InsertRepresents(l, e);
    }
    if ChainSet(s + {e}, l.thread) {
      LinkedWithout(s, l.thread, e);
      ChainRuleComplete(l.heads, s, l.thread, e);
    }
  }

  lemma AppendForeign(l: Log, e: Entry)
    requires e.thread != l.thread || !Validate(e)
    ensures Append(l, e).Refused? && !ChainSet(Elems(l.entries) + {e}, l.thread)
  {
    hide Validate, AllLinked, OnePerId, OnePerSlot;
    assert e in Elems(l.entries) + {e};
  }

  lemma AppendKnownId(l: Log, e: Entry)
    requires Inv(l) && e.thread == l.thread && Validate(e) && e.id in l.byId
    ensures Append(l, e) == if e in l.entries then Admitted(l) else Refused(IdCollision)
    ensures ChainSet(Elems(l.entries) + {e}, l.thread) <==> e in l.entries
  {
    hide Validate, AllLinked, OnePerSlot, HeadsOf, ClockOf, InOrder;
    var s := Elems(l.entries);
    assert l.byId[e.id] in s && e in s + {e};
    assert SameId(l.byId[e.id], e);
    if e in l.entries {
      assert e in s;
      assert s + {e} == s;
    }
  }

  lemma AppendNewId(l: Log, e: Entry)
    requires Inv(l) && e.thread == l.thread && Validate(e) && e.id !in l.byId
    ensures Append(l, e).Admitted? <==> ChainSet(Elems(l.entries) + {e}, l.thread)
    ensures Append(l, e).Admitted? ==> Append(l, e).log == Insert(l, e) && Inv(Insert(l, e))
    ensures Elems(Insert(l, e).entries) == Elems(l.entries) + {e}
    ensures e !in l.entries
  {
    hide ChainSet, Validate, ChainError, HeadsOf, ClockOf, InOrder, InsertAt;
    AppendNew(l, e);
    InsertElems(l.entries, Position(l.entries, e), e);
    assert forall x :: x in l.entries ==> x in Elems(l.entries);
  }

  /** `Append` admits an entry exactly when the log's entries with that entry are an
      admissible set, and then holds exactly that set; redelivery changes nothing. */
  lemma AppendExact(l: Log, e: Entry)
    requires Inv(l)
    ensures Append(l, e).Admitted? <==> ChainSet(Elems(l.entries) + {e}, l.thread)
    ensures Append(l, e).Admitted? ==>
      var r := Append(l, e).log;
      Inv(r) && r.thread == l.thread && Elems(r.entries) == Elems(l.entries) + {e}
    ensures e in l.entries ==> Append(l, e) == Admitted(l)
  {
    if e.thread != l.thread || !Validate(e) {
      hide Validate, AllLinked, OnePerId, OnePerSlot, Represents;
      AppendForeign(l, e);
      assert forall x :: x in l.entries ==> x in Elems(l.entries);
    } else {
      hide Inv, ChainSet, Validate, Append;
      if e.id in l.byId {
        AppendKnownId(l, e);
        if e in l.entries {
          assert Elems(l.entries) + {e} == Elems(l.entries);
        }
      } else {
        AppendNewId(l, e);
      }
    }
  }

  lemma AppendKeepsInv(l: Log, e: Entry)
    requires Inv(l)
    ensures Append(l, e).Admitted? ==> Inv(Append(l, e).log) && Append(l, e).log.thread == l.thread
  {
    AppendExact(l, e);
  }

  // ------------------------------------------------------------------ one log per set

  lemma ElemsEmpty(es: seq<Entry>)
    ensures es == [] <==> Elems(es) == {}
  {
    if es != [] {
      assert es[0] in Elems(es);
    }
  }

  lemma {:induction false} InOrderUnique(a: seq<Entry>, b: seq<Entry>)
    requires InOrder(a) && InOrder(b) && Elems(a) == Elems(b)
    ensures a == b
    decreases |a|
  {
    hide Less;
    ElemsEmpty(a);
    ElemsEmpty(b);
    if a != [] {
      assert a[0] in Elems(b);
      assert b != [] && b[0] in Elems(a);
      var i :| 0 <= i < |b| && b[i] == a[0];
      var j :| 0 <= j < |a| && a[j] == b[0];
      LessTotal(a[0], b[0]);
      assert a[0] == b[0];
      SameTail(a, b);
      SameTail(b, a);
      InOrderUnique(a[1..], b[1..]);
      assert a == [a[0]] + a[1..] && b == [b[0]] + b[1..];
    }
  }

  lemma SameTail(a: seq<Entry>, b: seq<Entry>)
    requires a != [] && b != [] && a[0] == b[0]
    requires InOrder(a) && Elems(a) == Elems(b)
    ensures Elems(a[1..]) <= Elems(b[1..])
  {
    forall x | x in a[1..] ensures x in b[1..] {
      var i :| 1 <= i < |a| && a[i] == x;
      LessTotal(a[0], a[i]);
      assert x in Elems(b) && x != b[0];
      var j :| 0 <= j < |b| && b[j] == x;
      assert b[1..][j - 1] == x;
    }
  }

  lemma HeadsDetermined(h: map<ChainKey, ChainHead>, g: map<ChainKey, ChainHead>, s: set<Entry>)
    requires HeadsOf(h, s) && HeadsOf(g, s) && OnePerSlot(s)
    ensures h == g
  {
    forall k ensures k in h <==> k in g {
      if k in h { HeadFacts(g, s, h[k].hash.entry); }
      if k in g { HeadFacts(h, s, g[k].hash.entry); }
    }
    forall k | k in h ensures h[k] == g[k] {
      HeadFacts(g, s, h[k].hash.entry);
      HeadFacts(h, s, g[k].hash.entry);
      assert SameSlot(h[k].hash.entry, g[k].hash.entry);
    }
  }

  lemma IndexDetermined(x: map<string, Entry>, y: map<string, Entry>, s: set<Entry>)
    requires IndexOf(x, s) && IndexOf(y, s)
    ensures x == y
  {
    forall id | id in x ensures id in y && x[id] == y[id] {
      assert x[id] in s;
    }
    forall id | id in y ensures id in x {
      assert y[id] in s;
    }
  }

  /** A log is determined by the set of entries it holds: order, heads, index and clock. */
  lemma LogDetermined(l: Log, m: Log)
    requires Inv(l) && Inv(m) && l.thread == m.thread
    requires Elems(l.entries) == Elems(m.entries)
    ensures l == m
  {
    var s := Elems(l.entries);
    InOrderUnique(l.entries, m.entries);
    HeadsDetermined(l.heads, m.heads, s);
    IndexDetermined(l.byId, m.byId, s);
  }

  /** Every head names an entry the log holds. */
  lemma HeadsHeld(l: Log)
    requires Inv(l)
    ensures forall k :: k in l.heads ==>
      && l.heads[k].hash.HashOf? && l.heads[k].hash.entry in l.entries
      && KeyOf(l.heads[k].hash.entry) == k && l.heads[k].hash.entry.seqNo == l.heads[k].seqNo
      && l.heads[k].seqNo >= 1
  {
    hide AllLinked, OnePerId, OnePerSlot, IndexOf, ClockOf;
    forall k | k in l.heads ensures l.heads[k].hash.entry in l.entries && l.heads[k].hash.entry.seqNo >= 1 {
      assert l.heads[k].hash.entry in Elems(l.entries);
    }
  }

  /** Below a head, every position of the chain is held. */
  lemma PositionHeld(l: Log, k: ChainKey, n: nat)
    requires Inv(l) && k in l.heads && 1 <= n <= l.heads[k].seqNo
    ensures exists e :: e in l.entries && KeyOf(e) == k && e.seqNo == n
  {
    hide ChainSet, IndexOf, ClockOf;
    var h := l.heads[k].hash.entry;
    AncestorHeld(Elems(l.entries), l.thread, h, n);
    assert Ancestor(h, n) in Elems(l.entries);
  }

  /** The facts about one held entry. */
  lemma Held(l: Log, e: Entry)
    requires Inv(l) && e in l.entries
    ensures Validate(e) && e.thread == l.thread && KeyOf(e) in l.heads && 1 <= e.seqNo <= l.heads[KeyOf(e)].seqNo
    ensures e.seqNo > 1 ==>
      && e.prev.HashOf? && e.prev.entry in l.entries
      && KeyOf(e.prev.entry) == KeyOf(e) && e.prev.entry.seqNo + 1 == e.seqNo
    ensures e.lamport <= l.lamport
  {
    hide OnePerId, OnePerSlot, IndexOf;
    assert e in Elems(l.entries);
    HeadFacts(l.heads, Elems(l.entries), e);
    assert Linked(Elems(l.entries), e);
  }

  /** A log holds nothing that its author did not sign, and nothing out of shape. */
  lemma OnlySigned(l: Log, e: Entry)
    requires Inv(l) && e in l.entries
    ensures e.sig == Some(e.author) && "ed25519:" <= e.author
    ensures e.v == 0 && e.thread == l.thread && e.seqNo >= 1 && e.lamport >= 1
    ensures e.lane == LaneControl || e.lane == LaneSummary || e.lane == LaneContent
    ensures e.onBehalfOf != "" ==> "ed25519:" <= e.onBehalfOf
    ensures e.kind.KindExtension? ==> !("core." <= e.kind.name)
  {
    hide Inv;
    Held(l, e);
  }

  lemma HeldOnce(l: Log, e: Entry, f: Entry)
    requires Inv(l) && e in l.entries && f in l.entries && (SameSlot(e, f) || SameId(e, f))
    ensures e == f
  {
    hide AllLinked, AllValid, Represents;
    assert e in Elems(l.entries) && f in Elems(l.entries);
  }

  // ------------------------------------------------------------------ reading a chain

  function InChainAfter(k: ChainKey, since: u64): Entry -> bool {
    (e: Entry) => KeyOf(e) == k && e.seqNo > since
  }

  function BySeqNo(): (Entry, Entry) -> bool {
    (a: Entry, b: Entry) => a.seqNo < b.seqNo
  }

  /** The entries of chain `k` past position `since`, sorted by position. */
  function ChainAfter(es: seq<Entry>, k: ChainKey, since: u64): seq<Entry> {
    InsertionSort.Sort(Filter(es, InChainAfter(k, since)), BySeqNo())
  }

  lemma InOrderDistinct(es: seq<Entry>)
    requires InOrder(es)
    ensures NoDuplicates(es)
  {
    forall i, j | 0 <= i < j < |es| ensures es[i] != es[j] {
      LessTotal(es[i], es[j]);
    }
  }

  lemma {:induction false} Gapless(ns: seq<nat>, since: nat, i: nat)
    requires forall j, k :: 0 <= j < k < |ns| ==> ns[j] < ns[k]
    requires forall j :: 0 <= j < |ns| ==> ns[j] > since
    requires forall j, n: nat :: 0 <= j < |ns| && since < n <= ns[j] ==> n in ns
    requires i < |ns|
    ensures ns[i] == since + 1 + i
  {
    if i > 0 {
      Gapless(ns, since, i - 1);
    }
    var n: nat := since + 1 + i;
    assert n <= ns[i] && n in ns;
    var m :| 0 <= m < |ns| && ns[m] == n;
    assert m >= i;
  }

  /** `After` gives exactly the chain past `since`. */
  lemma ChainAfterMembers(es: seq<Entry>, k: ChainKey, since: u64)
    requires InOrder(es)
    ensures forall e :: e in ChainAfter(es, k, since) <==> e in es && KeyOf(e) == k && e.seqNo > since
    ensures NoDuplicates(ChainAfter(es, k, since))
    ensures InsertionSort.Sorted(ChainAfter(es, k, since), BySeqNo())
  {
    var found := Filter(es, InChainAfter(k, since));
    FilterMembers(es, InChainAfter(k, since));
    InOrderDistinct(es);
    FilterNoDuplicates(es, InChainAfter(k, since));
    InsertionSort.SortPermutes(found, BySeqNo());
    InsertionSort.SortSorts(found, BySeqNo());
    Rearranged(found, ChainAfter(es, k, since));
  }

  function Positions(es: seq<Entry>): (ns: seq<nat>)
    ensures |ns| == |es| && forall i :: 0 <= i < |es| ==> ns[i] == es[i].seqNo
  {
    seq(|es|, i requires 0 <= i < |es| => es[i].seqNo)
  }

  lemma PositionsAscend(l: Log, k: ChainKey, since: u64)
    requires Inv(l)
    ensures var ns := Positions(ChainAfter(l.entries, k, since));
      && (forall i, j :: 0 <= i < j < |ns| ==> ns[i] < ns[j])
      && (forall j, n: nat :: 0 <= j < |ns| && since < n <= ns[j] ==> n in ns)
  {
    var out := ChainAfter(l.entries, k, since);
    hide ClockOf, IndexOf, HeadsOf, ChainAfter, AllValid, OnePerId;
    var ns := Positions(out);
    var s := Elems(l.entries);
    ChainAfterMembers(l.entries, k, since);
    forall i, j | 0 <= i < j < |ns| ensures ns[i] < ns[j] {
      assert out[i] in s && out[j] in s && !BySeqNo()(out[j], out[i]);
      assert SameSlot(out[i], out[j]) <==> out[i].seqNo == out[j].seqNo;
    }
    forall j, n: nat | 0 <= j < |ns| && since < n <= ns[j] ensures n in ns {
      assert out[j] in s;
      AncestorHeld(s, l.thread, out[j], n);
      assert Ancestor(out[j], n) in out;
      var m :| 0 <= m < |out| && out[m] == Ancestor(out[j], n);
      assert ns[m] == n;
    }
  }

  /** `After` streams a chain without gaps: position `since + 1` first, the head last. */
  lemma ChainAfterContiguous(l: Log, k: ChainKey, since: u64)
    requires Inv(l)
    ensures var out := ChainAfter(l.entries, k, since);
      && (forall i :: 0 <= i < |out| ==> out[i].seqNo == since + 1 + i)
      && |out| == (if k in l.heads && l.heads[k].seqNo > since then l.heads[k].seqNo - since else 0)
  {
    hide ChainSet, ClockOf, IndexOf, ChainAfter;
    var out := ChainAfter(l.entries, k, since);
    ChainAfterMembers(l.entries, k, since);
    PositionsAscend(l, k, since);
    forall i | 0 <= i < |out| ensures out[i].seqNo == since + 1 + i {
      Gapless(Positions(out), since, i);
    }
    if out != [] {
      assert out[|out| - 1] in Elems(l.entries);
      HeadFacts(l.heads, Elems(l.entries), out[|out| - 1]);
    }
    if k in l.heads && l.heads[k].seqNo > since {
      var h := l.heads[k].hash.entry;
      assert h in Elems(l.entries);
      assert h in out;
      var m :| 0 <= m < |out| && out[m] == h;
    }
  }
}
