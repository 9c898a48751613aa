/** What a pull does to the two stores: batches that always append, and agreement. */
module SyncLaws {
  import opened Entries
  import opened Sequences
  import opened ThreadLogs
  import opened Convergence
  import opened Perm
  import opened PermLaws
  import opened Stores
  import opened Sync
  import InsertionSort
  import Lex

  // ------------------------------------------------------------------ the append order works

  /** Only a chain's first entry carries the thread's own id. */
  ghost predicate Rooted(es: set<Entry>, t: string) {
    forall e :: e in es && e.id == t ==> e.seqNo == 1
  }

  lemma PredecessorSortsFirst(p: Entry, e: Entry, t: string)
    requires e.id != t && KeyOf(p) == KeyOf(e) && p.seqNo < e.seqNo
    ensures AppendOrder(t)(p, e)
  {
  }

  /** Whatever is sorted in the append order ascends along every chain. */
  lemma SortedAscends(held: set<Entry>, o: seq<Entry>, t: string)
    requires InsertionSort.Sorted(o, AppendOrder(t)) && Rooted(Elems(o), t)
    requires forall e :: e in o ==> Linked(held + Elems(o), e)
    ensures Ascending(held, o)
  {
    hide AppendOrder, Ascending;
    forall p, e | e in o && e.seqNo > 1 && KeyOf(p) == KeyOf(e) && p.seqNo < e.seqNo ensures AppendOrder(t)(p, e) {
      assert e in Elems(o);
      PredecessorSortsFirst(p, e, t);
    }
    ChainSortedAscends(held, o, AppendOrder(t));
  }

  lemma OrderedFacts(es: seq<Entry>, t: string)
    ensures var o := Ordered(es, t);
      && multiset(o) == multiset(es) && |o| == |es| && Elems(o) == Elems(es)
      && InsertionSort.Sorted(o, AppendOrder(t))
  {
    hide AppendOrder;
    AppendOrderWeak(t);
    InsertionSort.SortPermutes(es, AppendOrder(t));
    InsertionSort.SortSorts(es, AppendOrder(t));
    InsertionSort.SortMembers(es, AppendOrder(t));
  }

  /** `orderForAppend` only rearranges: the genesis first, control before the rest and summaries
      before content, within a lane by author, and each author's entries by position. */
  lemma OrderedShape(es: seq<Entry>, t: string, i: nat, j: nat)
    requires i < j < |es|
    ensures var o := Ordered(es, t);
      && |o| == |es| && multiset(o) == multiset(es)
      && (o[j].id == t ==> o[i].id == t)
      && (o[j].id != t && o[j].lane == LaneControl ==> o[i].id == t || LaneRank(o[i].lane) == 0)
      && (o[j].id != t && o[j].lane == LaneSummary ==> o[i].id == t || o[i].lane != LaneContent)
      && (o[i].id != t && o[j].id != t && o[i].lane == o[j].lane ==> !Lex.Less(o[j].author, o[i].author))
      && (o[i].id != t && o[j].id != t && KeyOf(o[i]) == KeyOf(o[j]) ==> o[i].seqNo <= o[j].seqNo)
  {
    hide Ordered;
    OrderedFacts(es, t);
    assert !AppendOrder(t)(Ordered(es, t)[j], Ordered(es, t)[i]);
    Lex.Irreflexive(Ordered(es, t)[i].author);
  }

  /** Batches are admissible: if a log's entries with the batch are an admissible set, then
      the ordered batch is accepted to the last entry, whole or split into the control lane
      and the rest. */
  lemma OrderedBatchAccepted(l: Log, es: seq<Entry>)
    requires Inv(l) && ChainSet(Elems(l.entries) + Elems(es), l.thread) && Rooted(Elems(es), l.thread)
    ensures var o := Ordered(es, l.thread);
      var whole := Deliver(l, o);
      var control := Deliver(l, Filter(o, OnControl()));
      var rest := Deliver(control.log, Filter(o, OffControl()));
      && whole.error == None && control.error == None && rest.error == None
      && Inv(control.log) && control.log.thread == l.thread
      && Elems(control.log.entries) == Elems(l.entries) + Elems(Filter(o, OnControl()))
      && whole.log == rest.log && Inv(whole.log) && whole.log.thread == l.thread
      && Elems(whole.log.entries) == Elems(l.entries) + Elems(es)
  {
    hide Inv, ChainSet, Ordered, Deliver, Ascending, Rooted;
    var t, s, u := l.thread, Elems(l.entries), Elems(l.entries) + Elems(es);
    var o := Ordered(es, t);
    var c, r := Filter(o, OnControl()), Filter(o, OffControl());
    OrderedFacts(es, t);
    FilterMembers(o, OnControl());
    FilterMembers(o, OffControl());
    assert Elems(o) == Elems(c) + Elems(r);
    PartsAscend(s, es, t);
    DeliverAccepted(l, o, u);
    DeliverAccepted(l, c, u);
    var cl := Deliver(l, c).log;
    DeliverAccepted(cl, r, u);
    LogDetermined(Deliver(l, o).log, Deliver(cl, r).log);
  }

  lemma SortedPart(o: seq<Entry>, c: seq<Entry>, keep: Entry -> bool, less: (Entry, Entry) -> bool)
    requires InsertionSort.Sorted(o, less) && c == Filter(o, keep)
    ensures InsertionSort.Sorted(c, less)
  {
    FilterSorted(o, keep, less);
  }

  /** The part of an ordered batch taken from whole chains ascends as well. */
  lemma PartAscends(s: set<Entry>, held: set<Entry>, es: seq<Entry>, t: string, keep: Entry -> bool)
    requires ChainSet(s + Elems(es), t) && Rooted(Elems(es), t) && s <= held
    requires forall a, b :: KeyOf(a) == KeyOf(b) ==> keep(a) == keep(b)
    ensures Ascending(held, Filter(Ordered(es, t), keep))
  {
    hide Ordered, Ascending, Filter, AllValid, OnePerId, OnePerSlot, AppendOrder;
    var o := Ordered(es, t);
    var c := Filter(o, keep);
    OrderedFacts(es, t);
    FilterMembers(o, keep);
    forall e | e in c ensures Linked(held + Elems(c), e) {
      assert e in Elems(o) && Linked(s + Elems(es), e);
      if e.seqNo != 1 {
        var p := e.prev.entry;
        assert p in s || (p in Elems(o) && p in c);
      }
    }
    assert forall e :: e in Elems(c) ==> e in Elems(es);
    assert Rooted(Elems(c), t);
    SortedPart(o, c, keep, AppendOrder(t));
    SortedAscends(held, c, t);
  }

  lemma PartsAscend(s: set<Entry>, es: seq<Entry>, t: string)
    requires ChainSet(s + Elems(es), t) && Rooted(Elems(es), t)
    ensures var o := Ordered(es, t);
      var c := Filter(o, OnControl());
      Ascending(s, o) && Ascending(s, c) && Ascending(s + Elems(c), Filter(o, OffControl()))
  {
    hide Ordered, Ascending, Filter, ChainSet, Rooted;
    var o := Ordered(es, t);
    var all := (e: Entry) => true;
    FilterAll(o, all);
    PartAscends(s, s, es, t, all);
    PartAscends(s, s, es, t, OnControl());
    PartAscends(s, s + Elems(Filter(o, OnControl())), es, t, OffControl());
  }

  // ------------------------------------------------------------------ the pull half of a round

  function InLanes(lanes: seq<Lane>): Entry -> bool {
    (e: Entry) => e.lane in lanes
  }

  /** The caller holds nothing in these lanes that the server does not. */
  ghost predicate PrefixOn(c: Log, s: Log, lanes: seq<Lane>) {
    forall e :: e in c.entries && e.lane in lanes ==> e in s.entries
  }

  /** In these lanes the two logs never hold different entries at one chain position. */
  ghost predicate NoFork(c: Log, s: Log, lanes: seq<Lane>) {
    forall e, f {:trigger SameSlot(e, f)} ::
      e in c.entries && f in s.entries && e.lane in lanes && SameSlot(e, f) ==> e == f
  }

  lemma PrefixNoFork(c: Log, s: Log, lanes: seq<Lane>)
    requires Inv(s) && PrefixOn(c, s, lanes)
    ensures NoFork(c, s, lanes)
  {
    hide Inv;
    forall e, f | e in c.entries && f in s.entries && e.lane in lanes && SameSlot(e, f) ensures e == f {
      HeldOnce(s, e, f);
    }
  }

  /** Ids are unique across the two logs. */
  ghost predicate IdsAgree(c: Log, s: Log) {
    forall e, f {:trigger SameId(e, f)} :: e in c.entries && f in s.entries && SameId(e, f) ==> e == f
  }

  /** Everything outside the control lane is inside its author's window. */
  ghost predicate AllMayContribute(s: Log) {
    forall e :: e in s.entries && e.lane != LaneControl ==>
      MayContribute(Fold(s.thread, s.entries), e.author, e.lamport)
  }

  /** The pulled batch, by membership. */
  lemma BatchMembers(s: Log, lanes: seq<Lane>, have: Vector)
    ensures forall e :: e in MissingFrom(s, lanes, have) <==>
      e in s.entries && e.lane in lanes && e.seqNo > SeqAt(have, KeyOf(e))
  {
    FilterMembers(s.entries, PermittedPast(lanes, have));
  }

  /** What the caller holds and what it is sent cover the permitted lanes of the server. */
  lemma HeldOrSent(c: Log, s: Log, lanes: seq<Lane>, e: Entry)
    requires Inv(c) && Inv(s) && c.thread == s.thread && NoFork(c, s, lanes)
    requires e in s.entries && e.lane in lanes
    ensures e in c.entries || e in MissingFrom(s, lanes, HeadSeqs(c))
  {
    hide Inv;
    BatchMembers(s, lanes, HeadSeqs(c));
    Held(s, e);
    var k := KeyOf(e);
    if k in c.heads && e.seqNo <= c.heads[k].seqNo {
      PositionHeld(c, k, e.seqNo);
      var f :| f in c.entries && KeyOf(f) == k && f.seqNo == e.seqNo;
      assert SameSlot(f, e);
    }
  }

  /** The caller's log and the batch together are an admissible set. */
  lemma UnionAdmissible(c: Log, s: Log, lanes: seq<Lane>)
    requires Inv(c) && Inv(s) && c.thread == s.thread && NoFork(c, s, lanes) && IdsAgree(c, s)
    ensures ChainSet(Elems(c.entries) + Elems(MissingFrom(s, lanes, HeadSeqs(c))), c.thread)
  {
    hide Inv;
    var batch := MissingFrom(s, lanes, HeadSeqs(c));
    var u := Elems(c.entries) + Elems(batch);
    BatchMembers(s, lanes, HeadSeqs(c));
    forall e | e in u ensures e.thread == c.thread && Validate(e) && Linked(u, e) {
      hide Validate;
      if e in c.entries {
        Held(c, e);
        FirstPrev(c, e);
      } else {
        Held(s, e);
        FirstPrev(s, e);
        if e.seqNo > 1 {
          HeldOrSent(c, s, lanes, e.prev.entry);
        }
      }
    }
    forall e, f | e in u && f in u && SameId(e, f) ensures e == f {
      UnionAgrees(c, s, lanes, e, f);
    }
    forall e, f | e in u && f in u && SameSlot(e, f) ensures e == f {
      UnionAgrees(c, s, lanes, e, f);
    }
  }

  lemma FirstPrev(l: Log, e: Entry)
    requires Inv(l) && e in l.entries
    ensures e.seqNo == 1 ==> e.prev == GenesisPrev
  {
    hide OnePerId, OnePerSlot, Represents;
    assert e in Elems(l.entries) && Linked(Elems(l.entries), e);
  }

  lemma UnionAgrees(c: Log, s: Log, lanes: seq<Lane>, e: Entry, f: Entry)
    requires Inv(c) && Inv(s) && NoFork(c, s, lanes) && IdsAgree(c, s)
    requires e in c.entries || (e in s.entries && e.lane in lanes)
    requires f in c.entries || (f in s.entries && f.lane in lanes)
    requires SameId(e, f) || SameSlot(e, f)
    ensures e == f
  {
    hide Inv;
    assert SameId(f, e) == SameId(e, f) && SameSlot(f, e) == SameSlot(e, f);
    if e in c.entries && f in c.entries {
      HeldOnce(c, e, f);
    } else if e in s.entries && f in s.entries {
      HeldOnce(s, e, f);
    }
  }

  lemma NoControlNoRights(t: string, es: seq<Entry>, p: string, l: u64)
    requires forall e :: e in es ==> e.lane != LaneControl
    ensures !MayContribute(Fold(t, es), p, l)
  {
    FoldReadsControlOnly(t, es);
    FilterNone(es, OnControl());
  }

  lemma SameControlSameFold(c: Log, s: Log)
    requires Inv(c) && Inv(s) && c.thread == s.thread
    requires forall e: Entry :: e.lane == LaneControl ==> (e in c.entries <==> e in s.entries)
    ensures Fold(c.thread, c.entries) == Fold(s.thread, s.entries)
  {
    hide ChainSet, HeadsOf, IndexOf, ClockOf, Fold;
    SameLaneSameOrder(c, s, OnControl());
    FoldReadsControlOnly(c.thread, c.entries);
    FoldReadsControlOnly(s.thread, s.entries);
  }

  /** Logs that hold the same entries of a kind list them in the same order. */
  lemma SameLaneSameOrder(c: Log, s: Log, keep: Entry -> bool)
    requires Inv(c) && Inv(s)
    requires forall e: Entry :: keep(e) ==> (e in c.entries <==> e in s.entries)
    ensures Filter(c.entries, keep) == Filter(s.entries, keep)
  {
    hide ChainSet, HeadsOf, IndexOf, ClockOf;
    FilterMembers(c.entries, keep);
    FilterMembers(s.entries, keep);
    FilterInOrder(c.entries, keep);
    FilterInOrder(s.entries, keep);
    InOrderUnique(Filter(c.entries, keep), Filter(s.entries, keep));
  }

  lemma {:induction false} FilterInOrder(es: seq<Entry>, keep: Entry -> bool)
    requires InOrder(es)
    ensures InOrder(Filter(es, keep))
    decreases |es|
  {
    hide Less;
    if es != [] {
      var n := |es| - 1;
      var front, r := Filter(es[..n], keep), Filter(es, keep);
      FilterInOrder(es[..n], keep);
      FilterMembers(es[..n], keep);
      forall i, j | 0 <= i < j < |r| ensures Less(r[i], r[j]) {
        assert r[i] == front[i] && front[i] in es[..n];
        var m :| 0 <= m < n && es[m] == front[i];
        assert r[j] == if j < |front| then front[j] else es[n];
      }
    }
  }

  /** The control entries of both sides, in total order. */
  ghost predicate ControlOfBoth(control: seq<Entry>, c: Log, s: Log) {
    && InOrder(control)
    && forall e: Entry :: e in control <==> e.lane == LaneControl && (e in c.entries || e in s.entries)
  }

  /** Two stores whose copies of a thread can be joined by a pull: they never disagree, and
      either may hold entries the other lacks. */
  ghost predicate Joinable(c: Logs, s: Logs, t: string, lanes: seq<Lane>, control: seq<Entry>) {
    && StoreInv(c) && StoreInv(s) && LaneControl in lanes
    && Rooted(Elems(LogOf(s, t).entries), t)
    && NoFork(LogOf(c, t), LogOf(s, t), lanes) && IdsAgree(LogOf(c, t), LogOf(s, t))
    && ControlOfBoth(control, LogOf(c, t), LogOf(s, t))
  }

  /** Everything the server sends outside the control lane is inside its author's window,
      judged by both sides' control entries. */
  ghost predicate SentInside(c: Log, s: Log, lanes: seq<Lane>, control: seq<Entry>) {
    forall e :: e in MissingFrom(s, lanes, HeadSeqs(c)) && e.lane != LaneControl ==>
      MayContribute(Fold(s.thread, control), e.author, e.lamport)
  }

  /** The situation of an honest pull: the server's own data passes its own check, and the
      caller's permitted lanes hold nothing foreign to it. */
  ghost predicate HonestPull(c: Logs, s: Logs, t: string, lanes: seq<Lane>) {
    && StoreInv(c) && StoreInv(s) && LaneControl in lanes
    && AllMayContribute(LogOf(s, t)) && Rooted(Elems(LogOf(s, t).entries), t)
    && PrefixOn(LogOf(c, t), LogOf(s, t), lanes) && IdsAgree(LogOf(c, t), LogOf(s, t))
  }

  lemma FoldOfControl(l: Log, control: seq<Entry>)
    requires Inv(l) && InOrder(control)
    requires forall e: Entry :: e in control <==> e.lane == LaneControl && e in l.entries
    ensures Fold(l.thread, l.entries) == Fold(l.thread, control)
  {
    hide ChainSet, HeadsOf, IndexOf, ClockOf, Fold;
    FoldReadsControlOnly(l.thread, l.entries);
    FilterMembers(l.entries, OnControl());
    FilterInOrder(l.entries, OnControl());
    InOrderUnique(Filter(l.entries, OnControl()), control);
  }

  /** Once the control part is in, the caller's fold is that of both sides' control entries. */
  lemma ControlFirst(cl: Log, sl: Log, lanes: seq<Lane>, control: seq<Entry>, mid: Log)
    requires Inv(cl) && Inv(sl) && cl.thread == sl.thread && NoFork(cl, sl, lanes) && LaneControl in lanes
    requires ControlOfBoth(control, cl, sl) && Inv(mid) && mid.thread == cl.thread
    requires var batch := MissingFrom(sl, lanes, HeadSeqs(cl));
      Elems(mid.entries) == Elems(cl.entries) + Elems(Filter(Ordered(batch, cl.thread), OnControl()))
    ensures Fold(mid.thread, mid.entries) == Fold(sl.thread, control)
  {
    hide Inv, Ordered, MissingFrom, Fold, NoFork;
    var batch := MissingFrom(sl, lanes, HeadSeqs(cl));
    var o := Ordered(batch, cl.thread);
    BatchMembers(sl, lanes, HeadSeqs(cl));
    OrderedFacts(batch, cl.thread);
    FilterMembers(o, OnControl());
    forall e: Entry ensures e in control <==> e.lane == LaneControl && e in mid.entries {
      assert e in mid.entries <==> e in Elems(mid.entries);
      assert e in Elems(o) <==> e in Elems(batch);
      if e.lane == LaneControl && e in sl.entries {
        HeldOrSent(cl, sl, lanes, e);
      }
    }
    FoldOfControl(mid, control);
  }

  /** What holds of a batch taken from a log also holds of its ordered parts. */
  lemma BatchFromLog(s: Log, batch: seq<Entry>, t: string)
    requires Inv(s) && s.thread == t && (forall e :: e in batch ==> e in s.entries)
    requires Rooted(Elems(s.entries), t)
    ensures Rooted(Elems(batch), t)
    ensures forall e :: e in Filter(Ordered(batch, t), OnControl()) ==> e in batch && e.thread == t
    ensures forall e :: e in Filter(Ordered(batch, t), OffControl()) ==>
      e in batch && e.thread == t && e.lane != LaneControl
  {
    hide Inv, Ordered, Filter;
    var o := Ordered(batch, t);
    OrderedFacts(batch, t);
    FilterMembers(o, OnControl());
    FilterMembers(o, OffControl());
    forall e | e in o ensures e in batch && e.thread == t {
      assert e in Elems(o) && e in Elems(batch);
      Held(s, e);
    }
  }

  lemma DeliverNone(l: Log)
    ensures Deliver(l, []) == Delivery(l, None)
  {
  }

  /** The pull half succeeds exactly when what is sent is inside its authors' windows by the
      control entries of both sides; then it leaves exactly the union. */
  lemma PullAcceptedExactly(c: Logs, s: Logs, t: string, lanes: seq<Lane>, control: seq<Entry>)
    requires Joinable(c, s, t, lanes, control)
    ensures var cl, sl := LogOf(c, t), LogOf(s, t);
      var batch := MissingFrom(sl, lanes, HeadSeqs(cl));
      var r := Ingest(c, t, batch);
      && StoreInv(r.logs)
      && (r.ok <==> SentInside(cl, sl, lanes, control))
      && (r.ok ==> Elems(LogOf(r.logs, t).entries) == Elems(cl.entries) + Elems(batch))
      && (forall u :: u != t ==> LogOf(r.logs, u) == LogOf(c, u))
  {
    hide Inv, Ordered, Fold, Deliver, AppendAll, StoreInv, ChainSet, Rooted, MissingFrom, MayContribute, Filter, LogOf,
         NoFork, IdsAgree, ControlOfBoth;
    var cl, sl := LogOf(c, t), LogOf(s, t);
    LogOfInv(c, t);
    LogOfInv(s, t);
    var batch := MissingFrom(sl, lanes, HeadSeqs(cl));
    BatchMembers(sl, lanes, HeadSeqs(cl));
    var first, rest := Filter(Ordered(batch, t), OnControl()), Filter(Ordered(batch, t), OffControl());
    BatchFromLog(sl, batch, t);
    RestMembers(batch, t);
    UnionAdmissible(cl, sl, lanes);
    OrderedBatchAccepted(cl, batch);
    AppendOneThread(c, t, first);
    var mid := Deliver(cl, first).log;
    AppendOneThread(AppendAll(c, first).logs, t, rest);
    ControlFirst(cl, sl, lanes, control, mid);
    if rest != [] && mid.entries == [] {
      NoControlNoRights(t, [], rest[0].author, rest[0].lamport);
    }
    IngestKeepsInv(c, t, batch);
    DeliverNone(mid);
  }

  lemma RestMembers(batch: seq<Entry>, t: string)
    ensures forall e :: e in Filter(Ordered(batch, t), OffControl()) <==> e in batch && e.lane != LaneControl
  {
    hide Ordered, Filter;
    var o := Ordered(batch, t);
    OrderedFacts(batch, t);
    FilterMembers(o, OffControl());
    forall e ensures e in o <==> e in batch {
      assert e in Elems(o) <==> e in Elems(batch);
    }
  }

  /** The pull half never fails on an honest pull, and leaves exactly the union. */
  lemma PullNeverFails(c: Logs, s: Logs, t: string, lanes: seq<Lane>)
    requires HonestPull(c, s, t, lanes)
    ensures var cl := LogOf(c, t);
      var batch := MissingFrom(LogOf(s, t), lanes, HeadSeqs(cl));
      var r := Ingest(c, t, batch);
      && r.ok && StoreInv(r.logs)
      && Elems(LogOf(r.logs, t).entries) == Elems(cl.entries) + Elems(batch)
      && (forall u :: u != t ==> LogOf(r.logs, u) == LogOf(c, u))
  {
    hide Inv, Fold, StoreInv, Rooted, MissingFrom, MayContribute, Filter, LogOf, NoFork, IdsAgree, Ingest, InOrder;
    var cl, sl := LogOf(c, t), LogOf(s, t);
    LogOfInv(c, t);
    LogOfInv(s, t);
    PrefixNoFork(cl, sl, lanes);
    var control := Filter(sl.entries, OnControl());
    FilterMembers(sl.entries, OnControl());
    LogInOrder(sl);
    FilterInOrder(sl.entries, OnControl());
    FoldReadsControlOnly(t, sl.entries);
    BatchMembers(sl, lanes, HeadSeqs(cl));
    PullAcceptedExactly(c, s, t, lanes, control);
  }

  /** Pull, then agreement: after an honest pull the two logs hold the same entries in every
      permitted lane, in the same order, with the same heads, and fold to the same
      permissions. */
  lemma PullAgrees(c: Logs, s: Logs, t: string, lanes: seq<Lane>)
    requires HonestPull(c, s, t, lanes)
    ensures var sl := LogOf(s, t);
      var r := Ingest(c, t, MissingFrom(sl, lanes, HeadSeqs(LogOf(c, t))));
      var l := LogOf(r.logs, t);
      && r.ok
      && Filter(l.entries, InLanes(lanes)) == Filter(sl.entries, InLanes(lanes))
      && PermittedHeads(l, lanes) == PermittedHeads(sl, lanes)
      && Fold(t, l.entries) == Fold(t, sl.entries)
  {
    hide Inv, Ingest, Fold, StoreInv, MissingFrom, AllMayContribute, Rooted, PermittedHeads, LogOf;
    var cl, sl := LogOf(c, t), LogOf(s, t);
    LogOfInv(c, t);
    LogOfInv(s, t);
    var batch := MissingFrom(sl, lanes, HeadSeqs(cl));
    PullNeverFails(c, s, t, lanes);
    PrefixNoFork(cl, sl, lanes);
    var r := Ingest(c, t, batch);
    var l := LogOf(r.logs, t);
    LogOfInv(r.logs, t);
    BatchMembers(sl, lanes, HeadSeqs(cl));
    forall e: Entry | e.lane in lanes ensures e in l.entries <==> e in sl.entries {
      assert e in l.entries <==> e in Elems(l.entries);
      if e in sl.entries {
        HeldOrSent(cl, sl, lanes, e);
      }
    }
    SameLaneSameOrder(l, sl, InLanes(lanes));
    SameControlSameFold(l, sl);
    SameHeads(l, sl, lanes);
  }

  lemma SameHeads(l: Log, m: Log, lanes: seq<Lane>)
    requires Inv(l) && Inv(m)
    requires forall e: Entry :: e.lane in lanes ==> (e in l.entries <==> e in m.entries)
    ensures PermittedHeads(l, lanes) == PermittedHeads(m, lanes)
    ensures forall k: ChainKey :: k.lane in lanes ==> (k in l.heads <==> k in m.heads)
    ensures forall k: ChainKey :: k.lane in lanes && k in l.heads ==> l.heads[k] == m.heads[k]
  {
    hide Inv;
    HeadsHeld(l);
    HeadsHeld(m);
    forall k: ChainKey | k.lane in lanes && k in l.heads ensures k in m.heads && l.heads[k] == m.heads[k] {
      Held(m, l.heads[k].hash.entry);
      Held(l, m.heads[k].hash.entry);
      HeldOnce(l, l.heads[k].hash.entry, m.heads[k].hash.entry);
    }
    forall k: ChainKey | k.lane in lanes && k in m.heads ensures k in l.heads {
      Held(l, m.heads[k].hash.entry);
    }
  }
}
