/** Writing: `Author.Append` and `NewThreadWith`, on values.  Fresh ids (ULIDs) and the
    clock are parameters. */
module Authors {
  import opened Entries
  import opened ThreadLogs

  /** The caller's part of a new entry; `body` is `None` for a nil body, and `rest` stands for
      the references and the body keys that no decoder reads. */
  datatype Draft = Draft(kind: Kind, lane: Lane, onBehalfOf: string, body: Option<Body>, rest: string)

  datatype Writing = Written(log: Log, entry: Entry) | BodyRequired | NotAdmitted(error: AppendError)

  function NextEntry(l: Log, pid: string, d: Draft, id: string, ts: Option<int>): Entry
    requires d.body.Some?
  {
    var key := ChainKey(l.thread, pid, d.lane);
    var headSeq: u64 := if key in l.heads then l.heads[key].seqNo else 0;
    var prev := if headSeq > 0 then l.heads[key].hash else GenesisPrev;
    Entry(ENVELOPE_VERSION, id, l.thread, d.kind, d.lane, pid, d.onBehalfOf,
          Succ(headSeq), Succ(l.lamport), prev, ts, d.body.value, Some(pid), d.rest)
  }

  function AuthorAppend(l: Log, pid: string, d: Draft, id: string, ts: Option<int>): Writing {
    if d.body.None? then BodyRequired
    else
      var e := NextEntry(l, pid, d, id, ts);
      match Append(l, e)
      case Admitted(r) => Written(r, e)
      case Refused(err) => NotAdmitted(err)
  }

  /** What the caller of `Author.Append` has to get right; everything else is assigned. */
  predicate GoodDraft(l: Log, pid: string, d: Draft, id: string) {
    && d.body.Some?
    && LaneValid(d.lane)
    && (d.kind.KindExtension? ==> !("core." <= d.kind.name))
    && IsPrincipal(pid)
    && (d.onBehalfOf != "" ==> IsPrincipal(d.onBehalfOf))
    && id !in l.byId
  }

  /** Room left in the two 64-bit counters. */
  predicate ClockRoom(l: Log, pid: string, lane: Lane) {
    && l.lamport < MAX_U64
    && (ChainKey(l.thread, pid, lane) in l.heads ==>
          l.heads[ChainKey(l.thread, pid, lane)].seqNo < MAX_U64)
  }

  lemma {:induction false} PositionLast(es: seq<Entry>, e: Entry)
    requires forall x :: x in es ==> Less(x, e)
    ensures Position(es, e) == |es|
  {
  }

  /** A reused id can only be accepted as a redelivery, and a freshly numbered entry is
      never already in the log. */
  lemma NextNotHeld(l: Log, pid: string, d: Draft, id: string, ts: Option<int>)
    requires Inv(l) && d.body.Some?
    ensures NextEntry(l, pid, d, id, ts) !in l.entries
  {
    var e := NextEntry(l, pid, d, id, ts);
    if e in l.entries {
      HeadFacts(l.heads, Elems(l.entries), e);
    }
  }

  /** `Author.Append` succeeds exactly on a good draft while the counters have room. */
  lemma AuthorAppendExact(l: Log, pid: string, d: Draft, id: string, ts: Option<int>)
    requires Inv(l)
    ensures AuthorAppend(l, pid, d, id, ts).Written?
       <==> GoodDraft(l, pid, d, id) && ClockRoom(l, pid, d.lane)
  {
    hide Insert, AllLinked, OnePerId, OnePerSlot, InOrder, ClockOf;
    if d.body.Some? {
      NextNotHeld(l, pid, d, id, ts);
      if id in l.byId {
        assert l.byId[id] in Elems(l.entries);
      }
      var k := ChainKey(l.thread, pid, d.lane);
      if k in l.heads {
        var h := l.heads[k].hash.entry;
        assert h in Elems(l.entries) && Validate(h);
      }
    }
  }

  /** What it writes sorts after everything the log held, and the log grows by it alone. */
  lemma AuthorAppendsLast(l: Log, pid: string, d: Draft, id: string, ts: Option<int>)
    requires Inv(l) && AuthorAppend(l, pid, d, id, ts).Written?
    ensures var w := AuthorAppend(l, pid, d, id, ts);
      && Inv(w.log) && w.log.thread == l.thread
      && w.log.entries == l.entries + [w.entry]
      && w.entry.lamport == w.log.lamport
      && w.entry.author == pid && w.entry.lane == d.lane && w.entry.thread == l.thread
      && w.entry.kind == d.kind && w.entry.body == d.body.value && w.entry.rest == d.rest
      && w.entry.onBehalfOf == d.onBehalfOf && w.entry.ts == ts && w.entry.id == id
      && w.entry.lamport >= 1
      && (forall x :: x in l.entries ==> x.lamport < w.entry.lamport)
  {
    hide Inv, Insert, Validate, ChainError;
    AuthorAppendExact(l, pid, d, id, ts);
    var e := NextEntry(l, pid, d, id, ts);
    AppendKeepsInv(l, e);
    assert e.lamport == l.lamport + 1;
    LaterGoesLast(l, e);
    assert Append(l, e) == Admitted(Insert(l, e));
  }

  lemma LaterGoesLast(l: Log, e: Entry)
    requires Inv(l) && e.lamport > l.lamport
    ensures Insert(l, e).entries == l.entries + [e] && Insert(l, e).lamport == e.lamport
    ensures forall x :: x in l.entries ==> x.lamport < e.lamport
  {
    hide ChainSet, HeadsOf, IndexOf, InOrder;
    forall x | x in l.entries ensures x.lamport < e.lamport {
      assert x in Elems(l.entries);
    }
    PositionLast(l.entries, e);
  }

  function GenesisEntry(pid: string, title: string, discoverable: bool, id: string, ts: Option<int>): Entry {
    Entry(ENVELOPE_VERSION, id, id, KindThread, LaneControl, pid, "", 1, 1, GenesisPrev, ts,
          ThreadBody([pid], title, discoverable), Some(pid), "")
  }

  /** `NewThreadWith`: a log holding the genesis entry, whose id names the thread. */
  function NewThreadWith(pid: string, title: string, discoverable: bool, id: string, ts: Option<int>): Admission {
    Append(EmptyLog(id), GenesisEntry(pid, title, discoverable, id, ts))
  }

  lemma NewThreadHoldsGenesis(pid: string, title: string, discoverable: bool, id: string, ts: Option<int>)
    requires IsPrincipal(pid)
    ensures var r := NewThreadWith(pid, title, discoverable, id, ts);
      && r.Admitted? && Inv(r.log) && r.log.thread == id && r.log.lamport == 1
      && r.log.entries == [GenesisEntry(pid, title, discoverable, id, ts)]
  {
    EmptyLogInv(id);
    AppendExact(EmptyLog(id), GenesisEntry(pid, title, discoverable, id, ts));
  }
}
