/** The embedded store on values: rows in a database shared by several processes, and each
    process's cache of thread logs, revalidated by row id.  Every call is one atomic step. */
module RowStore {
  import opened Entries
  import opened Sequences
  import opened ThreadLogs
  import opened Convergence
  import InsertionSort
  import Lex

  /** The entries table; the row at index `i` has row id `i + 1`. */
  type Rows = seq<Entry>

  function OfThread(t: string): Entry -> bool {
    (e: Entry) => e.thread == t
  }

  function RowsOf(rows: Rows, t: string): seq<Entry> {
    Filter(rows, OfThread(t))
  }

  /** `SELECT max(rid)` over the rows of a thread, 0 when there are none. */
  function MaxRid(rows: Rows, t: string): (n: nat)
    ensures n <= |rows|
  {
    if rows == [] then 0
    else if rows[|rows| - 1].thread == t then |rows|
    else MaxRid(rows[..|rows| - 1], t)
  }

  function LaneText(l: Lane): string {
    match l
    case LaneControl => "control"
    case LaneSummary => "summary"
    case LaneContent => "content"
    case LaneOther(n) => n
  }

  predicate RowBefore(a: Entry, b: Entry) {
    if a.author != b.author then Lex.Less(a.author, b.author)
    else if LaneText(a.lane) != LaneText(b.lane) then Lex.Less(LaneText(a.lane), LaneText(b.lane))
    else a.seqNo < b.seqNo
  }

  /** `ORDER BY author, lane, seq`. */
  function RowOrder(): (Entry, Entry) -> bool {
    (a: Entry, b: Entry) => RowBefore(a, b)
  }

  /** Rebuilding a thread log from its rows. */
  function Replay(rows: Rows, t: string): Delivery {
    Deliver(EmptyLog(t), InsertionSort.Sort(RowsOf(rows, t), RowOrder()))
  }

  datatype Cached = Cached(log: Log, maxRid: nat)

  type Cache = map<string, Cached>

  predicate Current(rows: Rows, c: Cache, t: string) {
    t in c && c[t].maxRid == MaxRid(rows, t)
  }

  /** The cache after `threadLog`: revalidated, or rebuilt.  A replay that is refused leaves
      the cache alone and is reported as corruption. */
  function Refresh(rows: Rows, c: Cache, t: string): Cache {
    if Current(rows, c, t) || Replay(rows, t).error != None then c
    else c[t := Cached(Replay(rows, t).log, MaxRid(rows, t))]
  }

  /** What `threadLog` returns; `None` is the corruption error. */
  function ThreadLogOf(rows: Rows, c: Cache, t: string): Option<Log> {
    var r := Refresh(rows, c, t);
    if Current(rows, r, t) then Some(r[t].log) else None
  }

  datatype Saved = Saved(rows: Rows, cache: Cache, ok: bool)

  predicate IdTaken(rows: Rows, e: Entry) {
    exists r :: r in rows && r.id == e.id
  }

  predicate SlotTaken(rows: Rows, e: Entry) {
    exists r :: r in rows && SameSlot(r, e)
  }

  /** One turn of the `AppendEntries` loop: admit to the cached log, then insert the row
      unless its id is already stored; the table's uniqueness constraint may refuse it. */
  function SaveOne(rows: Rows, c: Cache, e: Entry): Saved {
    var t := e.thread;
    var r := Refresh(rows, c, t);
    if !Current(rows, r, t) then Saved(rows, r, false)
    else
      match Append(r[t].log, e)
      case Refused(_) => Saved(rows, r, false)
      case Admitted(l) =>
        if IdTaken(rows, e) then Saved(rows, r[t := Cached(l, r[t].maxRid)], true)
        else if SlotTaken(rows, e) then Saved(rows, r[t := Cached(l, r[t].maxRid)], false)
        else Saved(rows + [e], r[t := Cached(l, if |rows| + 1 > r[t].maxRid then |rows| + 1 else r[t].maxRid)], true)
  }

  function SaveAll(rows: Rows, c: Cache, es: seq<Entry>): Saved
    decreases |es|
  {
    if es == [] then Saved(rows, c, true)
    else
      var r := SaveOne(rows, c, es[0]);
      if r.ok then SaveAll(r.rows, r.cache, es[1..]) else r
  }

  // ------------------------------------------------------------------ what holds of rows and caches

  /** The rows of every thread are an admissible set. */
  ghost predicate RowsInv(rows: Rows) {
    && (forall t :: ChainSet(Elems(RowsOf(rows, t)), t))
    && OnePerId(Elems(rows))
    && NoDuplicates(rows)
  }

  /** A cached log holds the rows it has seen, and the entries written into it and not saved. */
  ghost predicate CacheOk(rows: Rows, x: Cached, t: string, unsaved: set<Entry>) {
    && Inv(x.log) && x.log.thread == t && x.maxRid <= |rows|
    && Elems(x.log.entries) == Elems(RowsOf(rows[..x.maxRid], t)) + unsaved
  }

  lemma RowsOfMembers(rows: Rows, t: string)
    ensures forall e :: e in Elems(RowsOf(rows, t)) <==> e in rows && e.thread == t
  {
    FilterMembers(rows, OfThread(t));
  }

  /** Nothing of the thread lies beyond its largest row id. */
  lemma {:induction false} MaxRidCovers(rows: Rows, t: string)
    ensures RowsOf(rows[..MaxRid(rows, t)], t) == RowsOf(rows, t)
    decreases |rows|
  {
    if rows == [] {
      assert rows[..0] == rows;
    } else if rows[|rows| - 1].thread == t {
      assert rows[..|rows|] == rows;
    } else {
      var front := rows[..|rows| - 1];
      MaxRidCovers(front, t);
      assert rows[..MaxRid(rows, t)] == front[..MaxRid(front, t)];
      assert RowsOf(front, t) + [] == RowsOf(front, t);
    }
  }

  lemma RowOrderWeak()
    ensures InsertionSort.WeakOrder(RowOrder())
  {
    Lex.StrictTotalOrder();
  }

  /** Replaying admissible rows in (author, lane, seq) order is never refused. */
  lemma ReplayNeverCorrupt(rows: Rows, t: string)
    requires ChainSet(Elems(RowsOf(rows, t)), t)
    ensures var r := Replay(rows, t);
      && r.error == None && Inv(r.log) && r.log.thread == t
      && Elems(r.log.entries) == Elems(RowsOf(rows, t))
  {
    hide RowOrder, Deliver, RowsOf, Inv, Ascending, Validate, OnePerId, OnePerSlot;
    var found := RowsOf(rows, t);
    var o := InsertionSort.Sort(found, RowOrder());
    RowOrderWeak();
    InsertionSort.SortSorts(found, RowOrder());
    InsertionSort.SortMembers(found, RowOrder());
    assert Elems(o) == Elems(found);
    forall e | e in o ensures Linked({} + Elems(o), e) {
      assert {} + Elems(o) == Elems(found) && e in Elems(found) && Linked(Elems(found), e);
    }
    ChainsInRowOrder(o);
    ChainSortedAscends({}, o, RowOrder());
    EmptyLogInv(t);
    assert Elems(EmptyLog(t).entries) == {};
    DeliverAccepted(EmptyLog(t), o, Elems(found));
  }

  lemma ChainsInRowOrder(o: seq<Entry>)
    ensures forall p, e :: e in o && e.seqNo > 1 && KeyOf(p) == KeyOf(e) && p.seqNo < e.seqNo ==> RowOrder()(p, e)
  {
  }

  /** `threadLog` never reports corruption, and returns the rows of the thread together with
      what this process has written into the cached log and not saved; rebuilding drops the
      latter. */
  lemma RefreshExact(rows: Rows, c: Cache, t: string, unsaved: set<Entry>)
    requires RowsInv(rows) && (t in c ==> CacheOk(rows, c[t], t, unsaved))
    ensures var r := Refresh(rows, c, t); var left := if Current(rows, c, t) then unsaved else {};
      && t in r && Current(rows, r, t) && CacheOk(rows, r[t], t, left)
      && Elems(r[t].log.entries) == Elems(RowsOf(rows, t)) + left
      && (forall u :: u != t ==> (u in r <==> u in c) && (u in c ==> r[u] == c[u]))
  {
    hide Replay, RowsOf, MaxRid, ChainSet, Represents;
    MaxRidCovers(rows, t);
    ReplayNeverCorrupt(rows, t);
  }

  /** With nothing unsaved left, the log that `threadLog` returns is the replay. */
  lemma NothingUnsavedIsReplay(rows: Rows, c: Cache, t: string, unsaved: set<Entry>)
    requires RowsInv(rows) && (t in c ==> CacheOk(rows, c[t], t, unsaved))
    requires Current(rows, c, t) ==> unsaved == {}
    ensures ThreadLogOf(rows, c, t) == Some(Replay(rows, t).log)
  {
    hide Replay, RowsOf, MaxRid, ChainSet, Represents, Refresh, Current;
    RefreshExact(rows, c, t, unsaved);
    ReplayNeverCorrupt(rows, t);
    LogDetermined(Refresh(rows, c, t)[t].log, Replay(rows, t).log);
  }

  // ------------------------------------------------------------------ saving

  /** The predecessor of `e` is stored. */
  ghost predicate PredecessorSaved(rows: Rows, e: Entry) {
    e.seqNo > 1 && e.prev.HashOf? ==> e.prev.entry in rows
  }

  lemma RowsOfSnoc(rows: Rows, e: Entry, t: string)
    ensures RowsOf(rows + [e], t) == if e.thread == t then RowsOf(rows, t) + [e] else RowsOf(rows, t)
  {
    assert (rows + [e])[..|rows|] == rows;
  }

  lemma RowAdded(rows: Rows, l: Log, e: Entry)
    requires RowsInv(rows) && Inv(l) && l.thread == e.thread && Append(l, e).Admitted?
    requires Elems(RowsOf(rows, e.thread)) <= Elems(l.entries)
    requires !IdTaken(rows, e) && PredecessorSaved(rows, e)
    ensures !SlotTaken(rows, e) && RowsInv(rows + [e])
  {
    hide Append, Inv, ChainSet, RowsOf, IdTaken, SlotTaken, PredecessorSaved, OnePerId;
    var t, s := e.thread, Elems(RowsOf(rows, e.thread));
    AppendExact(l, e);
    var u := Elems(l.entries) + {e};
    RowsOfMembers(rows, t);
    NoSlotTaken(rows, u, e);
    ThreadRowsAdded(rows, u, e);
    IdsAdded(rows, e);
    forall v ensures ChainSet(Elems(RowsOf(rows + [e], v)), v) {
      RowsOfSnoc(rows, e, v);
      if v == t {
        assert Elems(RowsOf(rows, t) + [e]) == s + {e};
      }
    }
  }

  lemma NoSlotTaken(rows: Rows, u: set<Entry>, e: Entry)
    requires ChainSet(u, e.thread) && e in u && !IdTaken(rows, e)
    requires forall r :: r in rows && r.thread == e.thread ==> r in u
    ensures !SlotTaken(rows, e)
  {
    forall r | r in rows ensures !SameSlot(r, e) {
      assert r.id != e.id;
    }
  }

  lemma ThreadRowsAdded(rows: Rows, u: set<Entry>, e: Entry)
    requires ChainSet(u, e.thread) && ChainSet(Elems(RowsOf(rows, e.thread)), e.thread)
    requires Elems(RowsOf(rows, e.thread)) + {e} <= u && PredecessorSaved(rows, e)
    ensures ChainSet(Elems(RowsOf(rows, e.thread)) + {e}, e.thread)
  {
    hide RowsOf, Validate, OnePerId, OnePerSlot;
    var s := Elems(RowsOf(rows, e.thread));
    RowsOfMembers(rows, e.thread);
    forall f | f in s + {e} && f.seqNo > 1 && f.prev.HashOf? ensures f.prev.entry in s + {e} {
      assert f in s ==> Linked(s, f);
      assert Linked(u, f);
    }
    LinkedSubset(s + {e}, u, e.thread);
  }

  lemma IdsAdded(rows: Rows, e: Entry)
    requires OnePerId(Elems(rows)) && NoDuplicates(rows) && !IdTaken(rows, e)
    ensures OnePerId(Elems(rows + [e])) && NoDuplicates(rows + [e])
  {
    var r := rows + [e];
    forall f, g | f in Elems(r) && g in Elems(r) && SameId(f, g) ensures f == g {
      assert f != e ==> f in rows;
      assert g != e ==> g in rows;
      if f in rows && g in rows {
        assert f in Elems(rows) && g in Elems(rows);
      }
    }
    forall i, j | 0 <= i < j < |r| ensures r[i] != r[j] {
      assert r[i] in rows;
    }
  }

  lemma CurrentSees(rows: Rows, x: Cached, t: string, unsaved: set<Entry>)
    requires x.maxRid == MaxRid(rows, t)
    ensures CacheOk(rows, x, t, unsaved) <==>
      Inv(x.log) && x.log.thread == t && Elems(x.log.entries) == Elems(RowsOf(rows, t)) + unsaved
  {
    hide Inv, RowsOf;
    MaxRidCovers(rows, t);
  }

  /** Redelivery of a stored entry. */
  lemma SavedAlready(rows: Rows, x: Cached, e: Entry, unsaved: set<Entry>)
    requires RowsInv(rows) && CacheOk(rows, x, e.thread, unsaved) && x.maxRid == MaxRid(rows, e.thread)
    requires IdTaken(rows, e) && OnePerId(Elems(rows) + {e})
    ensures Append(x.log, e) == Admitted(x.log) && e in rows
    ensures CacheOk(rows, x, e.thread, unsaved - {e})
  {
    hide Append, Inv, RowsOf, MaxRid, ChainSet;
    var r :| r in rows && r.id == e.id;
    assert r in Elems(rows) && SameId(r, e);
    RowsOfMembers(rows, e.thread);
    CurrentSees(rows, x, e.thread, unsaved);
    CurrentSees(rows, x, e.thread, unsaved - {e});
    assert e in Elems(x.log.entries);
    AppendExact(x.log, e);
    assert Elems(RowsOf(rows, e.thread)) + unsaved == Elems(RowsOf(rows, e.thread)) + (unsaved - {e});
  }

  /** A new row. */
  lemma SavedNew(rows: Rows, x: Cached, e: Entry, unsaved: set<Entry>)
    requires RowsInv(rows) && CacheOk(rows, x, e.thread, unsaved) && x.maxRid == MaxRid(rows, e.thread)
    requires !IdTaken(rows, e) && PredecessorSaved(rows, e) && Append(x.log, e).Admitted?
    ensures !SlotTaken(rows, e) && RowsInv(rows + [e])
    ensures CacheOk(rows + [e], Cached(Append(x.log, e).log, |rows| + 1), e.thread, unsaved - {e})
  {
    hide Append, Inv, RowsOf, RowsInv, IdTaken, SlotTaken, PredecessorSaved;
    var t := e.thread;
    var y := Cached(Append(x.log, e).log, |rows| + 1);
    CurrentSees(rows, x, t, unsaved);
    RowAdded(rows, x.log, e);
    AppendExact(x.log, e);
    RowsOfSnoc(rows, e, t);
    assert MaxRid(rows + [e], t) == |rows| + 1;
    CurrentSees(rows + [e], y, t, unsaved - {e});
    var s := Elems(RowsOf(rows, t));
    assert Elems(RowsOf(rows, t) + [e]) == s + {e};
    assert (s + unsaved) + {e} == (s + {e}) + (unsaved - {e});
  }

  /** Saving one entry whose predecessor is saved keeps rows and cache in agreement; the
      uniqueness constraint never refuses it, and it is stored exactly when the log admits it. */
  lemma SaveOneExact(rows: Rows, c: Cache, e: Entry, unsaved: set<Entry>)
    requires RowsInv(rows) && (e.thread in c ==> CacheOk(rows, c[e.thread], e.thread, unsaved))
    requires PredecessorSaved(rows, e) && OnePerId(Elems(rows) + {e})
    ensures var r := SaveOne(rows, c, e); var t := e.thread;
      var left := if Current(rows, c, t) then unsaved else {};
      && RowsInv(r.rows) && rows <= r.rows
      && Elems(r.rows) == Elems(rows) + (if r.ok then {e} else {})
      && t in r.cache && CacheOk(r.rows, r.cache[t], t, if r.ok then left - {e} else left)
      && (forall u :: u != t ==> (u in r.cache <==> u in c) && (u in c ==> r.cache[u] == c[u]))
    ensures var r := Refresh(rows, c, e.thread);
      e.thread in r && (SaveOne(rows, c, e).ok <==> Append(r[e.thread].log, e).Admitted?)
  {
    hide Refresh, RowsOf, MaxRid, Append, Inv, RowsInv, CacheOk, IdTaken, SlotTaken, PredecessorSaved;
    var t := e.thread;
    var left := if Current(rows, c, t) then unsaved else {};
    RefreshExact(rows, c, t, unsaved);
    var x := Refresh(rows, c, t)[t];
    if IdTaken(rows, e) {
      SavedAlready(rows, x, e, left);
      assert Elems(rows) + {e} == Elems(rows);
    } else if Append(x.log, e).Admitted? {
      SavedNew(rows, x, e, left);
      assert Elems(rows + [e]) == Elems(rows) + {e};
    } else {
      assert Elems(rows) + {} == Elems(rows);
    }
  }
}
