/** Runs of several writer processes over one database, and the store contract refined. */
module RowRuns {
  import opened Entries
  import opened Sequences
  import opened ThreadLogs
  import opened Authors
  import opened Convergence
  import opened Stores
  import opened RowStore

  /** `unsaved` tracks, for a process and a thread, the entries written into the log object
      the process has cached now and not saved since; `pending` tracks everything the process
      wrote into any log it was given and has not saved since. */
  datatype World = World(
    rows: Rows, caches: map<string, Cache>,
    unsaved: map<(string, string), set<Entry>>, pending: map<(string, string), set<Entry>>)

  const EMPTY_WORLD := World([], map[], map[], map[])

  function CacheOf(w: World, p: string): Cache {
    if p in w.caches then w.caches[p] else map[]
  }

  function UnsavedOf(w: World, p: string, t: string): set<Entry> {
    if (p, t) in w.unsaved then w.unsaved[(p, t)] else {}
  }

  function PendingOf(w: World, p: string, t: string): set<Entry> {
    if (p, t) in w.pending then w.pending[(p, t)] else {}
  }

  /** What is left unsaved in the log that `threadLog` returns: rebuilding starts afresh. */
  function LeftOf(w: World, p: string, t: string): set<Entry> {
    if Current(w.rows, CacheOf(w, p), t) then UnsavedOf(w, p, t) else {}
  }

  datatype Event =
    | Load(proc: string, thread: string)
    | WriteInto(proc: string, thread: string, pid: string, draft: Draft, id: string, ts: Option<int>)
    | Save(proc: string, batch: seq<Entry>)

  function LoadStep(w: World, p: string, t: string): World {
    World(w.rows, w.caches[p := Refresh(w.rows, CacheOf(w, p), t)], w.unsaved[(p, t) := LeftOf(w, p, t)], w.pending)
  }

  /** `Author.Append` on the log that `threadLog` returned; the cache shares that log. */
  function WriteStep(w: World, p: string, t: string, pid: string, d: Draft, id: string, ts: Option<int>): World {
    var v := LoadStep(w, p, t);
    var c := CacheOf(v, p);
    if t !in c then v
    else
      match AuthorAppend(c[t].log, pid, d, id, ts)
      case Written(l, e) =>
        World(v.rows, v.caches[p := c[t := Cached(l, c[t].maxRid)]],
              v.unsaved[(p, t) := LeftOf(w, p, t) + {e}], v.pending[(p, t) := PendingOf(w, p, t) + {e}])
      case _ => v
  }

  function SaveOneStep(w: World, p: string, e: Entry): World {
    var r := SaveOne(w.rows, CacheOf(w, p), e);
    var done := if r.ok then {e} else {};
    World(r.rows, w.caches[p := r.cache],
          w.unsaved[(p, e.thread) := LeftOf(w, p, e.thread) - done],
          w.pending[(p, e.thread) := PendingOf(w, p, e.thread) - done])
  }

  function SaveStep(w: World, p: string, es: seq<Entry>): World
    decreases |es|
  {
    if es == [] then w
    else if SaveOne(w.rows, CacheOf(w, p), es[0]).ok then SaveStep(SaveOneStep(w, p, es[0]), p, es[1..])
    else SaveOneStep(w, p, es[0])
  }

  function Step(w: World, ev: Event): World {
    match ev
    case Load(p, t) => LoadStep(w, p, t)
    case WriteInto(p, t, pid, d, id, ts) => WriteStep(w, p, t, pid, d, id, ts)
    case Save(p, es) => SaveStep(w, p, es)
  }

  /** Entries are saved in the order written: each after its chain predecessor; and ids are
      unique. */
  ghost predicate Orderly(w: World, ev: Event) {
    ev.Save? ==> Ascending(Elems(w.rows), ev.batch) && OnePerId(Elems(w.rows) + Elems(ev.batch))
  }

  ghost predicate ProcOk(w: World, p: string) {
    forall t :: t in CacheOf(w, p) ==> CacheOk(w.rows, CacheOf(w, p)[t], t, UnsavedOf(w, p, t))
  }

  ghost predicate WorldInv(w: World) {
    RowsInv(w.rows) && forall p :: ProcOk(w, p)
  }

  /** A cache is judged by the rows it has seen, so new rows do not disturb it. */
  lemma CacheOkGrows(rows: Rows, more: Rows, x: Cached, t: string, unsaved: set<Entry>)
    requires CacheOk(rows, x, t, unsaved) && rows <= more
    ensures CacheOk(more, x, t, unsaved)
  {
    hide Inv, RowsOf;
    assert more[..x.maxRid] == rows[..x.maxRid];
  }

  /** One process changed one thread of its cache; everyone else is as before. */
  ghost predicate Touched(w: World, v: World, p: string, t: string) {
    && w.rows <= v.rows
    && (forall q :: q != p ==> CacheOf(v, q) == CacheOf(w, q))
    && (forall u :: u != t ==> SameAt(CacheOf(w, p), CacheOf(v, p), u))
    && (forall q, u {:trigger UnsavedOf(v, q, u)} :: q != p || u != t ==> UnsavedOf(v, q, u) == UnsavedOf(w, q, u))
  }

  lemma PutTouches(w: World, v: World, p: string, t: string, c: Cache, u: set<Entry>)
    requires w.rows <= v.rows && v.caches == w.caches[p := c] && v.unsaved == w.unsaved[(p, t) := u]
    requires forall x :: x != t ==> SameAt(CacheOf(w, p), c, x)
    ensures Touched(w, v, p, t) && CacheOf(v, p) == c && UnsavedOf(v, p, t) == u
  {
  }

  lemma TouchedKeepsInv(w: World, v: World, p: string, t: string)
    requires WorldInv(w) && Touched(w, v, p, t) && RowsInv(v.rows)
    requires t in CacheOf(v, p) ==> CacheOk(v.rows, CacheOf(v, p)[t], t, UnsavedOf(v, p, t))
    ensures WorldInv(v)
  {
    hide CacheOk, RowsInv, UnsavedOf, CacheOf;
    forall q ensures ProcOk(v, q) {
      forall u | u in CacheOf(v, q) ensures CacheOk(v.rows, CacheOf(v, q)[u], u, UnsavedOf(v, q, u)) {
        if q != p || u != t {
          assert ProcOk(w, q);
          assert q == p ==> SameAt(CacheOf(w, p), CacheOf(v, p), u);
          assert u in CacheOf(w, q) && CacheOf(v, q)[u] == CacheOf(w, q)[u];
          CacheOkGrows(w.rows, v.rows, CacheOf(w, q)[u], u, UnsavedOf(w, q, u));
        }
      }
    }
  }

  lemma LoadKeepsInv(w: World, p: string, t: string)
    requires WorldInv(w)
    ensures WorldInv(LoadStep(w, p, t)) && Touched(w, LoadStep(w, p, t), p, t)
    ensures var c := CacheOf(LoadStep(w, p, t), p);
      && t in c && CacheOk(w.rows, c[t], t, LeftOf(w, p, t)) && Current(w.rows, c, t)
      && Elems(c[t].log.entries) == Elems(RowsOf(w.rows, t)) + LeftOf(w, p, t)
  {
    hide CacheOk, RowsInv, Refresh, RowsOf, Current;
    assert ProcOk(w, p);
    RefreshExact(w.rows, CacheOf(w, p), t, UnsavedOf(w, p, t));
    PutTouches(w, LoadStep(w, p, t), p, t, Refresh(w.rows, CacheOf(w, p), t), LeftOf(w, p, t));
    TouchedKeepsInv(w, LoadStep(w, p, t), p, t);
  }

  lemma WriteKeepsInv(w: World, p: string, t: string, pid: string, d: Draft, id: string, ts: Option<int>)
    requires WorldInv(w)
    ensures WorldInv(WriteStep(w, p, t, pid, d, id, ts))
  {
    hide RowsInv, Refresh, RowsOf, WorldInv, Touched, AuthorAppend, LoadStep, Inv;
    var v := LoadStep(w, p, t);
    LoadKeepsInv(w, p, t);
    var x := CacheOf(v, p)[t];
    if AuthorAppend(x.log, pid, d, id, ts).Written? {
      AuthorAppendsLast(x.log, pid, d, id, ts);
      WriteTouches(w, p, t, pid, d, id, ts);
    }
  }

  lemma WriteTouches(w: World, p: string, t: string, pid: string, d: Draft, id: string, ts: Option<int>)
    requires WorldInv(LoadStep(w, p, t)) && t in CacheOf(LoadStep(w, p, t), p)
    requires var x := CacheOf(LoadStep(w, p, t), p)[t]; var a := AuthorAppend(x.log, pid, d, id, ts);
      && CacheOk(w.rows, x, t, LeftOf(w, p, t)) && a.Written?
      && Inv(a.log) && a.log.thread == t && a.log.entries == x.log.entries + [a.entry]
    ensures WorldInv(WriteStep(w, p, t, pid, d, id, ts))
  {
    hide RowsInv, Refresh, RowsOf, AuthorAppend, Inv, WorldInv;
    var v, r := LoadStep(w, p, t), WriteStep(w, p, t, pid, d, id, ts);
    var x := CacheOf(v, p)[t];
    var a := AuthorAppend(x.log, pid, d, id, ts);
    assert Elems(a.log.entries) == Elems(x.log.entries) + {a.entry};
    assert CacheOk(w.rows, Cached(a.log, x.maxRid), t, LeftOf(w, p, t) + {a.entry});
    PutTouches(v, r, p, t, CacheOf(v, p)[t := Cached(a.log, x.maxRid)], LeftOf(w, p, t) + {a.entry});
    assert RowsInv(v.rows) by { InvHasRows(v); }
    TouchedKeepsInv(v, r, p, t);
  }

  lemma InvHasRows(w: World)
    requires WorldInv(w)
    ensures RowsInv(w.rows)
  {
  }

  lemma SaveOneKeepsInv(w: World, p: string, e: Entry)
    requires WorldInv(w) && PredecessorSaved(w.rows, e) && OnePerId(Elems(w.rows) + {e})
    ensures var v := SaveOneStep(w, p, e);
      && WorldInv(v) && Touched(w, v, p, e.thread)
      && Elems(v.rows) == Elems(w.rows) + (if SaveOne(w.rows, CacheOf(w, p), e).ok then {e} else {})
  {
    hide CacheOk, RowsInv, Refresh, RowsOf, SaveOne, PredecessorSaved, OnePerId, Current;
    assert ProcOk(w, p);
    SaveOneExact(w.rows, CacheOf(w, p), e, UnsavedOf(w, p, e.thread));
    var v := SaveOneStep(w, p, e);
    PutTouches(w, v, p, e.thread, SaveOne(w.rows, CacheOf(w, p), e).cache, v.unsaved[(p, e.thread)]);
    var left := LeftOf(w, p, e.thread);
    assert left - {} == left;
    TouchedKeepsInv(w, v, p, e.thread);
  }

  lemma {:induction false} SaveKeepsInv(w: World, p: string, es: seq<Entry>)
    requires WorldInv(w) && Ascending(Elems(w.rows), es) && OnePerId(Elems(w.rows) + Elems(es))
    ensures WorldInv(SaveStep(w, p, es))
    decreases |es|
  {
    hide WorldInv, SaveOneStep, SaveOne, Ascending;
    if es != [] {
      var e := es[0];
      ElemsCons(es);
      FirstIsOrderly(w.rows, es);
      SaveOneKeepsInv(w, p, e);
      if SaveOne(w.rows, CacheOf(w, p), e).ok {
        var v := SaveOneStep(w, p, e);
        AscendingTail(Elems(w.rows), es);
        assert Elems(v.rows) + Elems(es[1..]) == Elems(w.rows) + Elems(es);
        SaveKeepsInv(v, p, es[1..]);
      }
    }
  }

  lemma FirstIsOrderly(rows: Rows, es: seq<Entry>)
    requires es != [] && Ascending(Elems(rows), es) && OnePerId(Elems(rows) + Elems(es))
    ensures PredecessorSaved(rows, es[0]) && OnePerId(Elems(rows) + {es[0]})
  {
    assert es[..0] == [];
    assert forall f :: f in Elems(rows) + {es[0]} ==> f in Elems(rows) + Elems(es);
  }

  function Run(evs: seq<Event>): World {
    if evs == [] then EMPTY_WORLD else Step(Run(evs[..|evs| - 1]), evs[|evs| - 1])
  }

  ghost predicate OrderlyRun(evs: seq<Event>) {
    evs != [] ==> OrderlyRun(evs[..|evs| - 1]) && Orderly(Run(evs[..|evs| - 1]), evs[|evs| - 1])
  }

  lemma EmptyWorldInv()
    ensures WorldInv(EMPTY_WORLD)
  {
    forall t ensures ChainSet(Elems(RowsOf([], t)), t) {
      assert Elems(RowsOf([], t)) == {};
    }
  }

  lemma {:induction false} RunInv(evs: seq<Event>)
    requires OrderlyRun(evs)
    ensures WorldInv(Run(evs))
    decreases |evs|
  {
    hide WorldInv, LoadStep, WriteStep, SaveStep;
    if evs == [] {
      EmptyWorldInv();
    } else {
      var w := Run(evs[..|evs| - 1]);
      RunInv(evs[..|evs| - 1]);
      match evs[|evs| - 1]
      case Load(p, t) => LoadKeepsInv(w, p, t);
      case WriteInto(p, t, pid, d, id, ts) => WriteKeepsInv(w, p, t, pid, d, id, ts);
      case Save(p, es) => SaveKeepsInv(w, p, es);
    }
  }

  /** What a process has written and not saved includes what its cached logs still hold of it. */
  ghost predicate UnsavedPends(w: World) {
    forall p, t {:trigger UnsavedOf(w, p, t)} :: UnsavedOf(w, p, t) <= PendingOf(w, p, t)
  }

  lemma SaveOnePends(w: World, p: string, e: Entry)
    requires UnsavedPends(w)
    ensures UnsavedPends(SaveOneStep(w, p, e))
  {
    hide SaveOne, Current;
    var v := SaveOneStep(w, p, e);
    forall q, t ensures UnsavedOf(v, q, t) <= PendingOf(v, q, t) {
      assert UnsavedOf(w, q, t) <= PendingOf(w, q, t);
    }
  }

  lemma {:induction false} SavePends(w: World, p: string, es: seq<Entry>)
    requires UnsavedPends(w)
    ensures UnsavedPends(SaveStep(w, p, es))
    decreases |es|
  {
    hide SaveOneStep, SaveOne, UnsavedPends;
    if es != [] {
      SaveOnePends(w, p, es[0]);
      if SaveOne(w.rows, CacheOf(w, p), es[0]).ok {
        SavePends(SaveOneStep(w, p, es[0]), p, es[1..]);
      }
    }
  }

  lemma StepPends(w: World, ev: Event)
    requires UnsavedPends(w)
    ensures UnsavedPends(Step(w, ev))
  {
    hide Refresh, Current, AuthorAppend, SaveStep;
    match ev
    case Save(p, es) => SavePends(w, p, es);
    case _ =>
      var v := Step(w, ev);
      forall q, t ensures UnsavedOf(v, q, t) <= PendingOf(v, q, t) {
        assert UnsavedOf(w, q, t) <= PendingOf(w, q, t);
      }
  }

  lemma {:induction false} RunPends(evs: seq<Event>)
    ensures UnsavedPends(Run(evs))
    decreases |evs|
  {
    hide UnsavedPends, Step;
    if evs == [] {
      assert UnsavedPends(EMPTY_WORLD) by { NothingPends(); }
    } else {
      RunPends(evs[..|evs| - 1]);
      StepPends(Run(evs[..|evs| - 1]), evs[|evs| - 1]);
    }
  }

  lemma NothingPends()
    ensures UnsavedPends(EMPTY_WORLD)
  {
  }

  /** Everything the process wrote and has not saved is in the log it has cached, and that
      cache is current, or it is in the table by now. */
  ghost predicate NothingDropped(w: World, p: string, t: string) {
    forall e :: e in PendingOf(w, p, t) ==>
      e in RowsOf(w.rows, t) || (Current(w.rows, CacheOf(w, p), t) && e in CacheOf(w, p)[t].log.entries)
  }

  /** Cache coherence over every run: at any moment, the log `threadLog` gives a process holds
      exactly the thread's rows, whoever wrote them, and what this process wrote into the log
      it has cached, if that cache is current, and has not saved; with nothing of that kind it
      is the replay of the rows.  It holds all that the process wrote and has not saved exactly
      when nothing was dropped.  The replay itself is never refused, so corruption is never
      reported. */
  lemma CacheCoherent(evs: seq<Event>, p: string, t: string)
    requires OrderlyRun(evs)
    ensures var w := Run(evs); var l := ThreadLogOf(w.rows, CacheOf(w, p), t);
      && Replay(w.rows, t).error == None
      && l.Some? && Inv(l.value) && l.value.thread == t
      && Elems(l.value.entries) == Elems(RowsOf(w.rows, t)) + LeftOf(w, p, t)
      && LeftOf(w, p, t) <= PendingOf(w, p, t)
      && (LeftOf(w, p, t) == {} ==> l.value == Replay(w.rows, t).log)
      && (Elems(l.value.entries) == Elems(RowsOf(w.rows, t)) + PendingOf(w, p, t) <==> NothingDropped(w, p, t))
  {
    hide Run, OrderlyRun, Refresh, RowsOf, Current, CacheOk, Replay, Inv, NothingDropped;
    var w := Run(evs);
    RunInv(evs);
    RunPends(evs);
    assert UnsavedOf(w, p, t) <= PendingOf(w, p, t);
    assert ProcOk(w, p);
    RefreshExact(w.rows, CacheOf(w, p), t, UnsavedOf(w, p, t));
    var x := Refresh(w.rows, CacheOf(w, p), t)[t];
    CacheOkLog(w.rows, x, t, LeftOf(w, p, t));
    RowsAdmissible(w.rows, t);
    ReplayNeverCorrupt(w.rows, t);
    if LeftOf(w, p, t) == {} {
      NothingUnsavedIsReplay(w.rows, CacheOf(w, p), t, UnsavedOf(w, p, t));
    }
    CurrentStays(w.rows, CacheOf(w, p), t);
    AllPendingExact(w, p, t, x.log);
  }

  lemma CurrentStays(rows: Rows, c: Cache, t: string)
    ensures Current(rows, c, t) ==> t in c && Refresh(rows, c, t) == c
  {
  }

  lemma AllPendingExact(w: World, p: string, t: string, l: Log)
    requires Elems(l.entries) == Elems(RowsOf(w.rows, t)) + LeftOf(w, p, t)
    requires LeftOf(w, p, t) <= PendingOf(w, p, t)
    requires Current(w.rows, CacheOf(w, p), t) ==> l == CacheOf(w, p)[t].log
    ensures Elems(l.entries) == Elems(RowsOf(w.rows, t)) + PendingOf(w, p, t) <==> NothingDropped(w, p, t)
  {
    hide RowsOf, MaxRid, CacheOf, PendingOf;
    var rows, pending := Elems(RowsOf(w.rows, t)), PendingOf(w, p, t);
    forall e ensures e in l.entries <==> e in rows || e in LeftOf(w, p, t) {
      assert e in l.entries <==> e in Elems(l.entries);
    }
    if NothingDropped(w, p, t) {
      forall e ensures e in Elems(l.entries) <==> e in rows + pending {
        assert e in RowsOf(w.rows, t) ==> e in rows;
      }
    }
    if Elems(l.entries) == rows + pending {
      forall e | e in pending && e !in RowsOf(w.rows, t)
        ensures Current(w.rows, CacheOf(w, p), t) && e in CacheOf(w, p)[t].log.entries
      {
        assert e in Elems(l.entries) && e !in rows;
      }
    }
  }

  /** A save judges an entry, a dropped one too, by the rows and by what the process has left
      in a current cache: it succeeds exactly when the three together are admissible. */
  lemma SaveExact(w: World, p: string, e: Entry)
    requires WorldInv(w) && PredecessorSaved(w.rows, e) && OnePerId(Elems(w.rows) + {e})
    ensures SaveOne(w.rows, CacheOf(w, p), e).ok <==>
      ChainSet(Elems(RowsOf(w.rows, e.thread)) + LeftOf(w, p, e.thread) + {e}, e.thread)
  {
    hide CacheOk, RowsInv, Refresh, RowsOf, SaveOne, PredecessorSaved, OnePerId, Current, ChainSet, Append, Inv;
    var t := e.thread;
    assert ProcOk(w, p);
    SaveOneExact(w.rows, CacheOf(w, p), e, UnsavedOf(w, p, t));
    RefreshExact(w.rows, CacheOf(w, p), t, UnsavedOf(w, p, t));
    var x := Refresh(w.rows, CacheOf(w, p), t)[t];
    CacheOkLog(w.rows, x, t, LeftOf(w, p, t));
    AppendExact(x.log, e);
  }

  lemma CacheOkLog(rows: Rows, x: Cached, t: string, unsaved: set<Entry>)
    requires CacheOk(rows, x, t, unsaved)
    ensures Inv(x.log) && x.log.thread == t
  {
    hide Inv;
  }

  lemma RowsAdmissible(rows: Rows, t: string)
    requires RowsInv(rows)
    ensures ChainSet(Elems(RowsOf(rows, t)), t)
  {
    hide RowsOf;
  }

  // ------------------------------------------------------------------ the contract refined

  /** The store contract's view of the table: one log per thread, holding its rows. */
  ghost predicate Views(s: Logs, rows: Rows) {
    StoreInv(s) && forall t :: Elems(LogOf(s, t).entries) == Elems(RowsOf(rows, t))
  }

  ghost predicate AllSaved(rows: Rows, c: Cache) {
    forall t :: t in c ==> CacheOk(rows, c[t], t, {})
  }

  /** The cached log is the contract's log. */
  lemma SameLog(s: Logs, rows: Rows, c: Cache, t: string)
    requires Views(s, rows) && RowsInv(rows) && AllSaved(rows, c)
    ensures var r := Refresh(rows, c, t);
      && t in r && Current(rows, r, t) && r[t].log == LogOf(s, t) && AllSaved(rows, r)
      && Inv(LogOf(s, t)) && LogOf(s, t).thread == t
  {
    hide CacheOk, RowsInv, Refresh, RowsOf, StoreInv, Current, Inv, LogOf;
    LogOfInv(s, t);
    RefreshExact(rows, c, t, {});
    var r := Refresh(rows, c, t);
    CacheOkLog(rows, r[t], t, {});
    assert Elems(r[t].log.entries) == Elems(LogOf(s, t).entries);
    LogDetermined(r[t].log, LogOf(s, t));
  }

  /** The view moves with the table. */
  lemma ViewsAfter(s: Logs, rows: Rows, more: Rows, e: Entry)
    requires Views(s, rows) && Append(LogOf(s, e.thread), e).Admitted? && Elems(more) == Elems(rows) + {e}
    ensures Views(s[e.thread := Append(LogOf(s, e.thread), e).log], more)
  {
    hide RowsOf, Append, Inv, LogOf;
    var t := e.thread;
    var l := Append(LogOf(s, t), e).log;
    LogOfInv(s, t);
    AcceptedStep(LogOf(s, t), e);
    var s' := s[t := l];
    assert LogOf(s', t) == l by { LogOfUpdated(s, t, l, t); }
    forall u ensures Elems(LogOf(s', u).entries) == Elems(RowsOf(more, u)) {
      LogOfUpdated(s, t, l, u);
      RowsOfMembers(rows, u);
      RowsOfMembers(more, u);
      assert forall x :: x in more <==> x in Elems(more);
      assert forall x :: x in rows <==> x in Elems(rows);
    }
  }

  lemma LogOfUpdated(s: Logs, t: string, l: Log, u: string)
    ensures LogOf(s[t := l], u) == if u == t then l else LogOf(s, u)
  {
  }

  lemma SaveOneRefines(s: Logs, rows: Rows, c: Cache, e: Entry)
    requires Views(s, rows) && RowsInv(rows) && AllSaved(rows, c) && OnePerId(Elems(rows) + {e})
    ensures var r := SaveOne(rows, c, e); var a := Append(LogOf(s, e.thread), e);
      && (r.ok <==> a.Admitted?)
      && RowsInv(r.rows) && AllSaved(r.rows, r.cache)
      && Elems(r.rows) == Elems(rows) + (if r.ok then {e} else {})
      && Views(if r.ok then s[e.thread := a.log] else s, r.rows)
  {
    hide CacheOk, RowsInv, Refresh, RowsOf, OnePerId, Append, Current, Inv, LogOf, Views;
    var t := e.thread;
    SameLog(s, rows, c, t);
    if Append(LogOf(s, t), e).Admitted? {
      AcceptedStep(LogOf(s, t), e);
      ViewedPredecessor(s, rows, e);
      SaveOneExact(rows, c, e, {});
      var r := SaveOne(rows, c, e);
      forall u | u in r.cache ensures CacheOk(r.rows, r.cache[u], u, {}) {
        if u == t {
          assert {} - {e} == {};
        } else {
          CacheOkGrows(rows, r.rows, c[u], u, {});
        }
      }
      ViewsAfter(s, rows, r.rows, e);
    } else {
      assert SaveOne(rows, c, e) == Saved(rows, Refresh(rows, c, t), false);
      assert Elems(rows) + {} == Elems(rows);
    }
  }

  lemma ViewedPredecessor(s: Logs, rows: Rows, e: Entry)
    requires Views(s, rows)
    requires e.seqNo > 1 && e.prev.HashOf? ==> e.prev.entry in Elems(LogOf(s, e.thread).entries)
    ensures PredecessorSaved(rows, e)
  {
    hide LogOf, RowsOf, StoreInv;
    RowsOfMembers(rows, e.thread);
  }

  /** The database implements the store contract: with nothing unsaved, a batch is accepted
      exactly when the contract accepts it, and afterwards every thread's rows are the
      contract's log. */
  lemma {:induction false} DatabaseRefinesStore(s: Logs, rows: Rows, c: Cache, es: seq<Entry>)
    requires Views(s, rows) && RowsInv(rows) && AllSaved(rows, c) && OnePerId(Elems(rows) + Elems(es))
    ensures var r, a := SaveAll(rows, c, es), AppendAll(s, es);
      && (r.ok <==> a.error == None)
      && Views(a.logs, r.rows) && RowsInv(r.rows) && AllSaved(r.rows, r.cache)
    decreases |es|
  {
    hide RowsInv, SaveOne, Append, Views, AllSaved, LogOf;
    if es != [] {
      var e := es[0];
      ElemsCons(es);
      FirstUnique(rows, es);
      SaveOneRefines(s, rows, c, e);
      var r := SaveOne(rows, c, e);
      if r.ok {
        assert Elems(r.rows) + Elems(es[1..]) == Elems(rows) + Elems(es);
        DatabaseRefinesStore(s[e.thread := Append(LogOf(s, e.thread), e).log], r.rows, r.cache, es[1..]);
      }
    }
  }

  lemma FirstUnique(rows: Rows, es: seq<Entry>)
    requires es != [] && OnePerId(Elems(rows) + Elems(es))
    ensures OnePerId(Elems(rows) + {es[0]})
  {
    assert forall f :: f in Elems(rows) + {es[0]} ==> f in Elems(rows) + Elems(es);
  }
}
