/** The sync protocol: Pull and Push evaluated as a principal, and the client's round. */
module Sync {
  import opened Entries
  import opened Sequences
  import opened ThreadLogs
  import opened Perm
  import opened PermLaws
  import opened Stores
  import InsertionSort
  import Lex

  // ------------------------------------------------------------------ the append order

  function LaneRank(l: Lane): nat {
    match l
    case LaneControl => 0
    case LaneSummary => 1
    case LaneContent => 2
    case LaneOther(_) => 0
  }

  predicate LessAppend(a: Entry, b: Entry, t: string) {
    if (a.id == t) != (b.id == t) then a.id == t
    else if LaneRank(a.lane) != LaneRank(b.lane) then LaneRank(a.lane) < LaneRank(b.lane)
    else if a.author != b.author then Lex.Less(a.author, b.author)
    else a.seqNo < b.seqNo
  }

  function AppendOrder(t: string): (Entry, Entry) -> bool {
    (a: Entry, b: Entry) => LessAppend(a, b, t)
  }

  /** `orderForAppend`: genesis first, control before the rest, each chain ascending. */
  function Ordered(es: seq<Entry>, t: string): seq<Entry> {
    InsertionSort.Sort(es, AppendOrder(t))
  }

  method OrderForAppend(es: seq<Entry>, t: string) returns (out: seq<Entry>)
    ensures out == Ordered(es, t)
  {
    var a := new Entry[|es|](i requires 0 <= i < |es| => es[i]);
    assert a[..] == es;
    InsertionSort.SortInPlace(a, AppendOrder(t));
    out := a[..];
  }

  // ------------------------------------------------------------------ version vectors

  /** One chain position in wire form. */
  datatype Head = Head(author: string, lane: Lane, seqNo: u64)

  type Vector = map<ChainKey, u64>

  function SeqAt(m: Vector, k: ChainKey): u64 {
    if k in m then m[k] else 0
  }

  function HeadSeqs(l: Log): Vector {
    map k | k in l.heads :: l.heads[k].seqNo
  }

  /** The vector a receiver builds from a list of heads; a repeated chain keeps the last. */
  function VectorOf(t: string, hs: seq<Head>): Vector {
    if hs == [] then map[]
    else
      var h := hs[|hs| - 1];
      VectorOf(t, hs[..|hs| - 1])[ChainKey(t, h.author, h.lane) := h.seqNo]
  }

  /** `hs` lists the vector, in some order. */
  ghost predicate Lists(hs: seq<Head>, t: string, m: Vector) {
    && (forall h :: h in hs ==> ChainKey(t, h.author, h.lane) in m && m[ChainKey(t, h.author, h.lane)] == h.seqNo)
    && (forall k :: k in m ==> k.thread == t && Head(k.author, k.lane, m[k]) in hs)
  }

  lemma {:induction false} VectorOfAt(t: string, hs: seq<Head>, k: ChainKey)
    ensures k in VectorOf(t, hs) <==> exists h :: h in hs && ChainKey(t, h.author, h.lane) == k
    ensures k in VectorOf(t, hs) ==> Head(k.author, k.lane, VectorOf(t, hs)[k]) in hs
    decreases |hs|
  {
    if hs != [] {
      var front, last := hs[..|hs| - 1], hs[|hs| - 1];
      VectorOfAt(t, front, k);
      assert hs == front + [last];
    }
  }

  /** Reading back a listed vector gives the vector, whatever the order of the list. */
  lemma VectorRoundTrip(t: string, hs: seq<Head>, m: Vector)
    requires Lists(hs, t, m)
    ensures VectorOf(t, hs) == m
  {
    forall k ensures (k in VectorOf(t, hs) <==> k in m) && (k in m ==> VectorOf(t, hs)[k] == m[k]) {
      VectorOfAt(t, hs, k);
      if k in m {
        assert Head(k.author, k.lane, m[k]) in hs;
      }
    }
  }

  method ListHeads(l: Log) returns (hs: seq<Head>)
    requires forall k :: k in l.heads ==> k.thread == l.thread
    ensures Lists(hs, l.thread, HeadSeqs(l))
  {
    hs := [];
    var todo := l.heads.Keys;
    while todo != {}
      invariant todo <= l.heads.Keys
      invariant forall h :: h in hs ==>
        var k := ChainKey(l.thread, h.author, h.lane); k in l.heads && l.heads[k].seqNo == h.seqNo
      invariant forall k :: k in l.heads && k !in todo ==> Head(k.author, k.lane, l.heads[k].seqNo) in hs
      decreases |todo|
    {
      var k :| k in todo;
      hs := hs + [Head(k.author, k.lane, l.heads[k].seqNo)];
      todo := todo - {k};
    }
  }

  method BuildVector(t: string, hs: seq<Head>) returns (m: Vector)
    ensures m == VectorOf(t, hs)
  {
    m := map[];
    for i := 0 to |hs|
      invariant m == VectorOf(t, hs[..i])
    {
      assert hs[..i + 1][..i] == hs[..i];
      m := m[ChainKey(t, hs[i].author, hs[i].lane) := hs[i].seqNo];
    }
    assert hs[..|hs|] == hs;
  }

  // ------------------------------------------------------------------ pull

  function PermittedPast(lanes: seq<Lane>, have: Vector): Entry -> bool {
    (e: Entry) => e.lane in lanes && e.seqNo > SeqAt(have, KeyOf(e))
  }

  /** What a server answers: its entries in the permitted lanes past the caller's heads. */
  function MissingFrom(s: Log, lanes: seq<Lane>, have: Vector): seq<Entry> {
    Filter(s.entries, PermittedPast(lanes, have))
  }

  function PermittedHeads(s: Log, lanes: seq<Lane>): Vector {
    map k | k in s.heads && k.lane in lanes :: s.heads[k].seqNo
  }

  datatype PullResponse = PullResponse(entries: seq<Entry>, heads: seq<Head>)

  function VisibleLanes(s: Logs, t: string, principal: string, now: int): seq<Lane> {
    if LogOf(s, t).entries == [] then [] else Lanes(Fold(t, LogOf(s, t).entries), principal, now)
  }

  /** Each chain streams in ascending position. */
  ghost predicate ChainsAscend(es: seq<Entry>) {
    forall i, j :: 0 <= i < j < |es| && KeyOf(es[i]) == KeyOf(es[j]) ==> es[i].seqNo < es[j].seqNo
  }

  // ------------------------------------------------------------------ push

  /** What `Push` asks of each entry after the bootstrap. */
  predicate PushAllowed(st: Perms, t: string, principal: string, e: Entry) {
    && e.thread == t
    && ActsFor(st, e.author, principal)
    && match e.lane
       case LaneControl => e.author in st.stewards
       case LaneSummary => MayContribute(st, e.author, e.lamport)
       case LaneContent => MayContribute(st, e.author, e.lamport)
       case LaneOther(_) => false
  }

  datatype Pushed = Pushed(logs: Logs, accepted: Option<nat>)

  function PushChecked(s: Logs, t: string, principal: string, es: seq<Entry>, total: nat): Pushed {
    var st := Fold(t, LogOf(s, t).entries);
    if exists e :: e in es && !PushAllowed(st, t, principal, e) then Pushed(s, None)
    else
      var r := AppendAll(s, es);
      Pushed(r.logs, if r.error == None then Some(total) else None)
  }

  function PushSpec(s: Logs, t: string, principal: string, batch: seq<Entry>, now: int): Pushed {
    var ordered := Ordered(batch, t);
    if LogOf(s, t).entries == [] then
      if ordered == [] || ordered[0].id != t || ordered[0].author != principal then Pushed(s, None)
      else
        var r := AppendAll(s, ordered[..1]);
        if r.error != None || LogOf(r.logs, t).entries == [] then Pushed(r.logs, None)
        else PushChecked(r.logs, t, principal, ordered[1..], |ordered|)
    else if VisibleLanes(s, t, principal, now) == [] then Pushed(s, None)
    else PushChecked(s, t, principal, ordered, |ordered|)
  }

  /** Whether `SubmitAccessRequest` lets an entry through to the store. */
  predicate RequestAllowed(s: Logs, principal: string, e: Entry, now: int) {
    var st := Fold(e.thread, LogOf(s, e.thread).entries);
    && LogOf(s, e.thread).entries != []
    && (st.discoverable || Lanes(st, principal, now) != [])
    && e.kind == KindAccessRequest && e.lane == LaneControl
    && ActsFor(st, e.author, principal)
  }

  class Server {
    const store: Store

    constructor (store: Store)
      ensures this.store == store
    {
      this.store := store;
    }

    method Pull(principal: string, t: string, have: seq<Head>, now: int) returns (r: Option<PullResponse>)
      requires StoreInv(store.logs)
      ensures r == None <==> VisibleLanes(store.logs, t, principal, now) == []
      ensures r.Some? ==>
        var s, lanes := LogOf(store.logs, t), VisibleLanes(store.logs, t, principal, now);
        && multiset(r.value.entries) == multiset(MissingFrom(s, lanes, VectorOf(t, have)))
        && ChainsAscend(r.value.entries)
        && Lists(r.value.heads, t, PermittedHeads(s, lanes))
    {
      var tl := store.Thread(t);
      if tl.None? {
        return None;
      }
      var s := tl.value;
      var lanes := Lanes(Fold(t, s.entries), principal, now);
      if lanes == [] {
        return None;
      }
      LogOfInv(store.logs, t);
      var vector := BuildVector(t, have);
      var resp := Answer(s, lanes, vector);
      return Some(resp);
    }

    /** The loop over the heads, in whatever order the map is walked. */
    method Answer(s: Log, lanes: seq<Lane>, have: Vector) returns (resp: PullResponse)
      requires Inv(s)
      ensures multiset(resp.entries) == multiset(MissingFrom(s, lanes, have))
      ensures ChainsAscend(resp.entries)
      ensures Lists(resp.heads, s.thread, PermittedHeads(s, lanes))
    {
      hide Inv, Streams, ListsSome, ChainAfter;
      var entries, heads := [], [];
      var todo := s.heads.Keys;
      var pick := PermittedPast(lanes, have);
      StreamsNone(s, pick);
      ListsNone(s, lanes);
      while todo != {}
        invariant todo <= s.heads.Keys
        invariant Streams(s, pick, s.heads.Keys - todo, entries)
        invariant ListsSome(heads, s, lanes, s.heads.Keys - todo)
        decreases |todo|
      {
        var key :| key in todo;
        assert s.heads.Keys - (todo - {key}) == (s.heads.Keys - todo) + {key};
        ListsStep(heads, s, lanes, s.heads.Keys - todo, key);
        if key.lane in lanes {
          StreamChain(s, pick, s.heads.Keys - todo, entries, key, SeqAt(have, key));
          entries := entries + ChainAfter(s.entries, key, SeqAt(have, key));
          heads := heads + [Head(key.author, key.lane, s.heads[key].seqNo)];
        } else {
          SkipChain(s, pick, s.heads.Keys - todo, entries, key);
        }
        todo := todo - {key};
      }
      assert s.heads.Keys - todo == s.heads.Keys;
      StreamsAll(s, pick, entries);
      ListsAll(heads, s, lanes);
      return PullResponse(entries, heads);
    }

    method Push(principal: string, t: string, batch: seq<Entry>, now: int) returns (r: Option<nat>)
      modifies store
      ensures Pushed(store.logs, r) == PushSpec(old(store.logs), t, principal, batch, now)
    {
      var ordered := OrderForAppend(batch, t);
      var total := |ordered|;
      var tl := store.Thread(t);
      if tl.None? {
        if |ordered| == 0 || ordered[0].id != t || ordered[0].author != principal {
          return None;
        }
        var err := store.AppendEntries(ordered[..1]);
        if err.Some? {
          return None;
        }
        tl := store.Thread(t);
        if tl.None? {
          return None;
        }
        ordered := ordered[1..];
      } else if VisibleLanes(store.logs, t, principal, now) == [] {
        return None;
      }
      r := Admit(principal, t, ordered, total);
    }

    /** The checks on every entry, and only then the append. */
    method Admit(principal: string, t: string, es: seq<Entry>, total: nat) returns (r: Option<nat>)
      modifies store
      ensures Pushed(store.logs, r) == PushChecked(old(store.logs), t, principal, es, total)
    {
      var st := Fold(t, LogOf(store.logs, t).entries);
      for i := 0 to |es|
        invariant forall e :: e in es[..i] ==> PushAllowed(st, t, principal, e)
      {
        if !PushAllowed(st, t, principal, es[i]) {
          return None;
        }
        assert es[..i + 1] == es[..i] + [es[i]];
      }
      assert es[..|es|] == es;
      var err := store.AppendEntries(es);
      return if err.Some? then None else Some(total);
    }

    method SubmitAccessRequest(principal: string, e: Entry, now: int) returns (ok: bool)
      modifies store
      ensures var was := old(store.logs);
        if RequestAllowed(was, principal, e, now)
        then store.logs == AppendAll(was, [e]).logs && ok == (AppendAll(was, [e]).error == None)
        else store.logs == was && !ok
    {
      var tl := store.Thread(e.thread);
      if tl.None? {
        return false;
      }
      var st := Fold(e.thread, tl.value.entries);
      if !st.discoverable && Lanes(st, principal, now) == [] {
        return false;
      }
      if e.kind != KindAccessRequest || e.lane != LaneControl {
        return false;
      }
      if !ActsFor(st, e.author, principal) {
        return false;
      }
      var err := store.AppendEntries([e]);
      return err.None?;
    }
  }

  // ------------------------------------------------------------------ the client's round

  function OffControl(): Entry -> bool {
    (e: Entry) => e.lane != LaneControl
  }

  datatype Ingested = Ingested(logs: Logs, ok: bool)

  /** Taking in a pulled batch: the control lane first, then the rest, each entry of which
      must be inside its author's contribute window. */
  function Ingest(c: Logs, t: string, batch: seq<Entry>): Ingested {
    var ordered := Ordered(batch, t);
    var rest := Filter(ordered, OffControl());
    var first := AppendAll(c, Filter(ordered, OnControl()));
    var l := LogOf(first.logs, t);
    if first.error != None then Ingested(first.logs, false)
    else if rest == [] then Ingested(first.logs, true)
    else if l.entries == [] then Ingested(first.logs, false)
    else if exists e :: e in rest && !MayContribute(Fold(t, l.entries), e.author, e.lamport)
    then Ingested(first.logs, false)
    else
      var second := AppendAll(first.logs, rest);
      Ingested(second.logs, second.error == None)
  }

  /** The caller's identity: who it writes as, and who the peer authenticates it as. */
  datatype Identity = Identity(self: string, selfKeys: set<string>, principal: string)

  predicate ActsAsSelf(me: Identity, author: string) {
    author == me.self || author in me.selfKeys
  }

  /** Chains that travel back: our own, the control chain only where we are stewards. */
  predicate OwnChain(me: Identity, stewards: set<string>, k: ChainKey) {
    ActsAsSelf(me, k.author) && (k.lane == LaneControl ==> k.author in stewards)
  }

  function OwnPast(me: Identity, stewards: set<string>, peer: Vector): Entry -> bool {
    (e: Entry) => OwnChain(me, stewards, KeyOf(e)) && e.seqNo > SeqAt(peer, KeyOf(e))
  }

  function Offer(me: Identity, l: Log, peer: Vector): seq<Entry> {
    Filter(l.entries, OwnPast(me, Fold(l.thread, l.entries).stewards, peer))
  }

  function SelfPast(me: Identity, peer: Vector): Entry -> bool {
    (e: Entry) => ActsAsSelf(me, e.author) && e.seqNo > SeqAt(peer, KeyOf(e))
  }

  /** What `ShareThread` offers: every chain of our own, the control chain included. */
  function ShareOffer(me: Identity, l: Log, peer: Vector): seq<Entry> {
    Filter(l.entries, SelfPast(me, peer))
  }

  datatype Round = Round(client: Logs, server: Logs, exchanged: Option<nat>)

  function PushBackSpec(me: Identity, c: Logs, s: Logs, t: string, peer: Vector, now: int): Round {
    if me.self == "" || LogOf(c, t).entries == [] then Round(c, s, Some(0))
    else
      var offer := Offer(me, LogOf(c, t), peer);
      if offer == [] then Round(c, s, Some(0))
      else
        var p := PushSpec(s, t, me.principal, offer, now);
        Round(c, p.logs, p.accepted)
  }

  /** Seeding a thread onto a peer that may not hold it. */
  function ShareSpec(me: Identity, c: Logs, s: Logs, t: string, nowPull: int, nowPush: int): Round {
    if LogOf(c, t).entries == [] then Round(c, s, None)
    else
      var lanes := VisibleLanes(s, t, me.principal, nowPull);
      var offer := ShareOffer(me, LogOf(c, t), if lanes == [] then map[] else PermittedHeads(LogOf(s, t), lanes));
      if offer == [] then Round(c, s, Some(0))
      else
        var p := PushSpec(s, t, me.principal, offer, nowPush);
        Round(c, p.logs, p.accepted)
  }

  /** One `SyncThread`, as a function of the two stores: no map order shows in it. */
  function SyncSpec(me: Identity, c: Logs, s: Logs, t: string, nowPull: int, nowPush: int): Round {
    var lanes := VisibleLanes(s, t, me.principal, nowPull);
    if lanes == [] then Round(c, s, None)
    else
      var batch := MissingFrom(LogOf(s, t), lanes, HeadSeqs(LogOf(c, t)));
      var i := Ingest(c, t, batch);
      if !i.ok then Round(i.logs, s, None)
      else
        var r := PushBackSpec(me, i.logs, s, t, PermittedHeads(LogOf(s, t), lanes), nowPush);
        r.(exchanged := if r.exchanged == None then None else Some(|batch| + r.exchanged.value))
  }

  lemma HeadKeysOfThread(l: Log)
    requires Inv(l)
    ensures forall k :: k in l.heads ==> k.thread == l.thread
  {
    forall k | k in l.heads ensures k.thread == l.thread {
      assert l.heads[k].hash.entry in Elems(l.entries);
    }
  }

  ghost predicate ListsSome(hs: seq<Head>, s: Log, lanes: seq<Lane>, keys: set<ChainKey>) {
    && (forall h :: h in hs ==>
          var k := ChainKey(s.thread, h.author, h.lane);
          k in s.heads && k.lane in lanes && s.heads[k].seqNo == h.seqNo)
    && (forall k :: k in keys && k in s.heads && k.lane in lanes ==> Head(k.author, k.lane, s.heads[k].seqNo) in hs)
  }

  /** `es` holds the entries that `pick` takes from the chains in `keys`, each once and
      every chain ascending. */
  ghost predicate Streams(s: Log, pick: Entry -> bool, keys: set<ChainKey>, es: seq<Entry>) {
    && (forall e :: e in es <==> e in s.entries && pick(e) && KeyOf(e) in keys)
    && NoDuplicates(es)
    && ChainsAscend(es)
  }

  lemma StreamsNone(s: Log, pick: Entry -> bool)
    ensures Streams(s, pick, s.heads.Keys - s.heads.Keys, [])
  {
  }

  lemma ListsNone(s: Log, lanes: seq<Lane>)
    ensures ListsSome([], s, lanes, s.heads.Keys - s.heads.Keys)
  {
  }

  lemma ListsStep(hs: seq<Head>, s: Log, lanes: seq<Lane>, keys: set<ChainKey>, key: ChainKey)
    requires ListsSome(hs, s, lanes, keys) && key in s.heads && Inv(s)
    ensures key.lane !in lanes ==> ListsSome(hs, s, lanes, keys + {key})
    ensures key.lane in lanes ==>
      ListsSome(hs + [Head(key.author, key.lane, s.heads[key].seqNo)], s, lanes, keys + {key})
  {
    hide Inv;
    HeadKeysOfThread(s);
  }

  lemma ListsAll(hs: seq<Head>, s: Log, lanes: seq<Lane>)
    requires ListsSome(hs, s, lanes, s.heads.Keys) && Inv(s)
    ensures Lists(hs, s.thread, PermittedHeads(s, lanes))
  {
    hide Inv;
    HeadKeysOfThread(s);
  }

  lemma StreamChain(s: Log, pick: Entry -> bool, keys: set<ChainKey>, es: seq<Entry>, key: ChainKey, since: u64)
    requires Inv(s) && Streams(s, pick, keys, es) && key !in keys
    requires forall e :: e in s.entries && KeyOf(e) == key ==> (pick(e) <==> e.seqNo > since)
    ensures Streams(s, pick, keys + {key}, es + ChainAfter(s.entries, key, since))
  {
    hide Inv, ChainAfter;
    var c := ChainAfter(s.entries, key, since);
    ChainStreamed(s, key, since);
    StreamsJoin(es, c, key);
  }

  lemma ChainStreamed(s: Log, key: ChainKey, since: u64)
    requires Inv(s)
    ensures var c := ChainAfter(s.entries, key, since);
      && (forall e :: e in c <==> e in s.entries && KeyOf(e) == key && e.seqNo > since)
      && (forall i, j :: 0 <= i < j < |c| ==> c[i].seqNo < c[j].seqNo)
  {
    hide ChainAfter, ChainSet;
    ChainAfterMembers(s.entries, key, since);
    ChainAfterContiguous(s, key, since);
  }

  lemma StreamsJoin(es: seq<Entry>, c: seq<Entry>, key: ChainKey)
    requires NoDuplicates(es) && ChainsAscend(es)
    requires forall e :: e in es ==> KeyOf(e) != key
    requires forall e :: e in c ==> KeyOf(e) == key
    requires forall i, j :: 0 <= i < j < |c| ==> c[i].seqNo < c[j].seqNo
    ensures NoDuplicates(es + c) && ChainsAscend(es + c)
  {
    var r := es + c;
    forall i, j | 0 <= i < j < |r|
      ensures r[i] != r[j] && (KeyOf(r[i]) == KeyOf(r[j]) ==> r[i].seqNo < r[j].seqNo)
    {
      assert if i < |es| then r[i] in es else r[i] == c[i - |es|];
      assert if j < |es| then r[j] in es else r[j] == c[j - |es|];
    }
  }

  lemma SkipChain(s: Log, pick: Entry -> bool, keys: set<ChainKey>, es: seq<Entry>, key: ChainKey)
    requires Streams(s, pick, keys, es)
    requires forall e :: e in s.entries && KeyOf(e) == key ==> !pick(e)
    ensures Streams(s, pick, keys + {key}, es)
  {
  }

  lemma StreamsAll(s: Log, pick: Entry -> bool, es: seq<Entry>)
    requires Inv(s) && Streams(s, pick, s.heads.Keys, es)
    ensures multiset(es) == multiset(Filter(s.entries, pick)) && ChainsAscend(es)
  {
    hide ChainSet;
    FilterMembers(s.entries, pick);
    InOrderDistinct(s.entries);
    FilterNoDuplicates(s.entries, pick);
    forall e | e in s.entries ensures KeyOf(e) in s.heads {
      HeadFacts(s.heads, Elems(s.entries), e);
    }
    SameMembers(es, Filter(s.entries, pick));
  }

  // ------------------------------------------------------------------ order independence

  lemma AppendOrderWeak(t: string)
    ensures InsertionSort.WeakOrder(AppendOrder(t))
  {
    Lex.StrictTotalOrder();
  }

  /** Entries one log may hold never tie in the append order. */
  lemma NoTiesInLog(s: set<Entry>, es: seq<Entry>, t: string)
    requires ChainSet(s, t) && forall e :: e in es ==> e in s
    ensures InsertionSort.NoTies(es, AppendOrder(t))
  {
    forall x, y | x in es && y in es && x != y ensures LessAppend(x, y, t) || LessAppend(y, x, t) {
      assert !SameSlot(x, y) && !SameId(x, y);
      assert Validate(x) && Validate(y);
      Lex.Total(x.author, y.author);
    }
  }

  /** `orderForAppend` undoes any rearrangement of a batch taken from a log. */
  lemma OrderedIndependent(s: set<Entry>, es: seq<Entry>, fs: seq<Entry>, t: string)
    requires ChainSet(s, t) && (forall e :: e in fs ==> e in s) && multiset(es) == multiset(fs)
    ensures Ordered(es, t) == Ordered(fs, t)
  {
    hide ChainSet, AppendOrder;
    AppendOrderWeak(t);
    NoTiesInLog(s, fs, t);
    InsertionSort.SortOrderIndependent(fs, es, AppendOrder(t));
  }

  // ------------------------------------------------------------------ the client

  method Split(es: seq<Entry>) returns (control: seq<Entry>, rest: seq<Entry>)
    ensures control == Filter(es, OnControl()) && rest == Filter(es, OffControl())
  {
    control, rest := [], [];
    for i := 0 to |es|
      invariant control == Filter(es[..i], OnControl()) && rest == Filter(es[..i], OffControl())
    {
      assert es[..i + 1][..i] == es[..i];
      if es[i].lane == LaneControl {
        control := control + [es[i]];
      } else {
        rest := rest + [es[i]];
      }
    }
    assert es[..|es|] == es;
  }

  class Client {
    const store: Store
    const peer: Server
    const me: Identity

    constructor (store: Store, peer: Server, me: Identity)
      ensures this.store == store && this.peer == peer && this.me == me
    {
      this.store, this.peer, this.me := store, peer, me;
    }

    /** Whether every entry is inside its author's contribute window. */
    method AllInside(st: Perms, es: seq<Entry>) returns (ok: bool)
      ensures ok <==> forall e :: e in es ==> MayContribute(st, e.author, e.lamport)
    {
      for i := 0 to |es|
        invariant forall e :: e in es[..i] ==> MayContribute(st, e.author, e.lamport)
      {
        if !MayContribute(st, es[i].author, es[i].lamport) {
          return false;
        }
        assert es[..i + 1] == es[..i] + [es[i]];
      }
      assert es[..|es|] == es;
      return true;
    }

    /** Everything `SyncThread` does with the pulled entries. */
    method TakeIn(t: string, batch: seq<Entry>) returns (ok: bool)
      modifies store
      ensures Ingested(store.logs, ok) == Ingest(old(store.logs), t, batch)
    {
      var ordered := OrderForAppend(batch, t);
      var control, rest := Split(ordered);
      var err := store.AppendEntries(control);
      if err.Some? {
        return false;
      }
      if rest == [] {
        return true;
      }
      var tl := store.Thread(t);
      if tl.None? {
        return false;
      }
      var st := Fold(t, tl.value.entries);
      ok := AllInside(st, rest);
      if !ok {
        return false;
      }
      err := store.AppendEntries(rest);
      return err.None?;
    }

    /** The entries of our own chains past the peer's heads, in any chain order. */
    method CollectOffer(l: Log, peerSeq: Vector) returns (offer: seq<Entry>)
      requires Inv(l)
      ensures multiset(offer) == multiset(Offer(me, l, peerSeq))
    {
      hide Inv, Streams, ChainAfter, Fold;
      var stewards := Fold(l.thread, l.entries).stewards;
      var pick := OwnPast(me, stewards, peerSeq);
      offer := [];
      var todo := l.heads.Keys;
      StreamsNone(l, pick);
      while todo != {}
        invariant todo <= l.heads.Keys
        invariant Streams(l, pick, l.heads.Keys - todo, offer)
        decreases |todo|
      {
        var key :| key in todo;
        assert l.heads.Keys - (todo - {key}) == (l.heads.Keys - todo) + {key};
        if ActsAsSelf(me, key.author) && !(key.lane == LaneControl && key.author !in stewards)
           && l.heads[key].seqNo > SeqAt(peerSeq, key) {
          StreamChain(l, pick, l.heads.Keys - todo, offer, key, SeqAt(peerSeq, key));
          offer := offer + ChainAfter(l.entries, key, SeqAt(peerSeq, key));
        } else {
          NothingPast(l, key);
          SkipChain(l, pick, l.heads.Keys - todo, offer, key);
        }
        todo := todo - {key};
      }
      assert l.heads.Keys - todo == l.heads.Keys;
      StreamsAll(l, pick, offer);
    }

    /** The entries of every chain of our own past the peer's heads, in any chain order. */
    method CollectShare(l: Log, peerSeq: Vector) returns (offer: seq<Entry>)
      requires Inv(l)
      ensures multiset(offer) == multiset(ShareOffer(me, l, peerSeq))
    {
      hide Inv, Streams, ChainAfter;
      var pick := SelfPast(me, peerSeq);
      offer := [];
      var todo := l.heads.Keys;
      StreamsNone(l, pick);
      while todo != {}
        invariant todo <= l.heads.Keys
        invariant Streams(l, pick, l.heads.Keys - todo, offer)
        decreases |todo|
      {
        var key :| key in todo;
        assert l.heads.Keys - (todo - {key}) == (l.heads.Keys - todo) + {key};
        if ActsAsSelf(me, key.author) && l.heads[key].seqNo > SeqAt(peerSeq, key) {
          StreamChain(l, pick, l.heads.Keys - todo, offer, key, SeqAt(peerSeq, key));
          offer := offer + ChainAfter(l.entries, key, SeqAt(peerSeq, key));
        } else {
          NothingPast(l, key);
          SkipChain(l, pick, l.heads.Keys - todo, offer, key);
        }
        todo := todo - {key};
      }
      assert l.heads.Keys - todo == l.heads.Keys;
      StreamsAll(l, pick, offer);
    }

    method ShareThread(t: string, nowPull: int, nowPush: int) returns (n: Option<nat>)
      requires StoreInv(store.logs) && StoreInv(peer.store.logs) && store != peer.store
      modifies peer.store
      ensures Round(store.logs, peer.store.logs, n)
           == ShareSpec(me, store.logs, old(peer.store.logs), t, nowPull, nowPush)
    {
      hide Inv, Fold, PushSpec, ShareOffer, PermittedHeads, VisibleLanes, Lists;
      var tl := store.Thread(t);
      if tl.None? {
        return None;
      }
      LogOfInv(store.logs, t);
      ghost var lanes := VisibleLanes(peer.store.logs, t, me.principal, nowPull);
      var peerHeads := [];
      var resp := peer.Pull(me.principal, t, [], nowPull);
      if resp.Some? {
        peerHeads := resp.value.heads;
        VectorRoundTrip(t, peerHeads, PermittedHeads(LogOf(peer.store.logs, t), lanes));
      }
      var peerSeq := BuildVector(t, peerHeads);
      var offer := CollectShare(tl.value, peerSeq);
      ShareRearranged(me, tl.value, peerSeq, offer, t);
      PushByOrder(peer.store.logs, t, me.principal, offer, ShareOffer(me, tl.value, peerSeq), nowPush);
      if |offer| == 0 {
        return Some(0);
      }
      n := peer.Push(me.principal, t, offer, nowPush);
    }

    method PushBack(t: string, peerHeads: seq<Head>, now: int) returns (pushed: Option<nat>)
      requires StoreInv(store.logs) && store != peer.store
      modifies peer.store
      ensures Round(store.logs, peer.store.logs, pushed)
           == PushBackSpec(me, store.logs, old(peer.store.logs), t, VectorOf(t, peerHeads), now)
    {
      hide Inv, Fold, PushSpec, Offer;
      if me.self == "" {
        return Some(0);
      }
      var tl := store.Thread(t);
      if tl.None? {
        return Some(0);
      }
      LogOfInv(store.logs, t);
      var peerSeq := BuildVector(t, peerHeads);
      var offer := CollectOffer(tl.value, peerSeq);
      OfferRearranged(me, tl.value, peerSeq, offer, t);
      PushByOrder(peer.store.logs, t, me.principal, offer, Offer(me, tl.value, peerSeq), now);
      if |offer| == 0 {
        return Some(0);
      }
      pushed := peer.Push(me.principal, t, offer, now);
    }

    method SyncThread(t: string, nowPull: int, nowPush: int) returns (n: Option<nat>)
      requires StoreInv(store.logs) && StoreInv(peer.store.logs) && store != peer.store
      modifies store, peer.store
      ensures Round(store.logs, peer.store.logs, n)
           == SyncSpec(me, old(store.logs), old(peer.store.logs), t, nowPull, nowPush)
    {
      hide Inv, Fold, Ingest, PushBackSpec, MissingFrom, PermittedHeads, HeadSeqs, VisibleLanes, Lists;
      var have := [];
      var tl := store.Thread(t);
      LogOfInv(store.logs, t);
      LogOfInv(peer.store.logs, t);
      HeadKeysOfThread(LogOf(store.logs, t));
      if tl.Some? {
        have := ListHeads(tl.value);
      }
      HaveIsVector(LogOf(store.logs, t), have);
      var resp := peer.Pull(me.principal, t, have, nowPull);
      if resp.None? {
        return None;
      }
      ghost var s, lanes := LogOf(peer.store.logs, t), VisibleLanes(peer.store.logs, t, me.principal, nowPull);
      ghost var batch := MissingFrom(s, lanes, HeadSeqs(LogOf(store.logs, t)));
      BatchRearranged(s, lanes, HeadSeqs(LogOf(store.logs, t)), resp.value.entries, t);
      VectorRoundTrip(t, resp.value.heads, PermittedHeads(s, lanes));
      IngestByOrder(store.logs, t, resp.value.entries, batch);
      IngestKeepsInv(store.logs, t, batch);
      var ok := TakeIn(t, resp.value.entries);
      if !ok {
        return None;
      }
      var pushed := PushBack(t, resp.value.heads, nowPush);
      return if pushed.None? then None else Some(|resp.value.entries| + pushed.value);
    }
  }

  lemma PushByOrder(s: Logs, t: string, principal: string, es: seq<Entry>, fs: seq<Entry>, now: int)
    requires Ordered(es, t) == Ordered(fs, t)
    ensures PushSpec(s, t, principal, es, now) == PushSpec(s, t, principal, fs, now)
  {
    hide Ordered, AppendAll, PushChecked, VisibleLanes;
  }

  lemma IngestByOrder(c: Logs, t: string, es: seq<Entry>, fs: seq<Entry>)
    requires Ordered(es, t) == Ordered(fs, t)
    ensures Ingest(c, t, es) == Ingest(c, t, fs)
  {
    hide Ordered, AppendAll, Filter, Fold, MayContribute;
  }

  /** Beyond the head of a chain there is nothing. */
  lemma NothingPast(l: Log, key: ChainKey)
    requires Inv(l) && key in l.heads
    ensures forall e :: e in l.entries && KeyOf(e) == key ==> e.seqNo <= l.heads[key].seqNo
  {
    hide ChainSet;
    forall e | e in l.entries && KeyOf(e) == key ensures e.seqNo <= l.heads[key].seqNo {
      HeadFacts(l.heads, Elems(l.entries), e);
    }
  }

  lemma ShareRearranged(me: Identity, l: Log, peer: Vector, offer: seq<Entry>, t: string)
    requires Inv(l) && l.thread == t && multiset(offer) == multiset(ShareOffer(me, l, peer))
    ensures Ordered(offer, t) == Ordered(ShareOffer(me, l, peer), t) && |offer| == |ShareOffer(me, l, peer)|
  {
    hide ChainSet, Represents;
    FilterMembers(l.entries, SelfPast(me, peer));
    Rearranged(offer, ShareOffer(me, l, peer));
    OrderedIndependent(Elems(l.entries), offer, ShareOffer(me, l, peer), t);
  }

  lemma OfferRearranged(me: Identity, l: Log, peer: Vector, offer: seq<Entry>, t: string)
    requires Inv(l) && l.thread == t && multiset(offer) == multiset(Offer(me, l, peer))
    ensures Ordered(offer, t) == Ordered(Offer(me, l, peer), t) && |offer| == |Offer(me, l, peer)|
  {
    hide ChainSet, Represents, Fold;
    FilterMembers(l.entries, OwnPast(me, Fold(l.thread, l.entries).stewards, peer));
    Rearranged(offer, Offer(me, l, peer));
    OrderedIndependent(Elems(l.entries), offer, Offer(me, l, peer), t);
  }

  lemma BatchRearranged(s: Log, lanes: seq<Lane>, have: Vector, es: seq<Entry>, t: string)
    requires Inv(s) && s.thread == t && multiset(es) == multiset(MissingFrom(s, lanes, have))
    ensures Ordered(es, t) == Ordered(MissingFrom(s, lanes, have), t) && |es| == |MissingFrom(s, lanes, have)|
  {
    hide ChainSet, Represents;
    FilterMembers(s.entries, PermittedPast(lanes, have));
    Rearranged(es, MissingFrom(s, lanes, have));
    OrderedIndependent(Elems(s.entries), es, MissingFrom(s, lanes, have), t);
  }

  lemma HaveIsVector(l: Log, have: seq<Head>)
    requires Inv(l)
    requires if l.entries == [] then have == [] else Lists(have, l.thread, HeadSeqs(l))
    ensures VectorOf(l.thread, have) == HeadSeqs(l)
  {
    if l.entries == [] {
      HeadsHeld(l);
    } else {
      VectorRoundTrip(l.thread, have, HeadSeqs(l));
    }
  }

  lemma IngestKeepsInv(c: Logs, t: string, batch: seq<Entry>)
    requires StoreInv(c)
    ensures StoreInv(Ingest(c, t, batch).logs)
  {
    hide StoreInv, Ordered, Fold;
    var ordered := Ordered(batch, t);
    AppendAllKeepsInv(c, Filter(ordered, OnControl()));
    AppendAllKeepsInv(AppendAll(c, Filter(ordered, OnControl())).logs, Filter(ordered, OffControl()));
  }
}
