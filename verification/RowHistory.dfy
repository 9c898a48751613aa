/** What becomes of an entry between writing and saving it, over runs of several processes. */
module RowHistory {
  import opened Entries
  import opened Sequences
  import opened ThreadLogs
  import opened Authors
  import opened Convergence
  import opened RowStore
  import opened RowRuns

  /** The event writes `e` into the log that process `p` is given for `t`. */
  ghost predicate WritesInto(w: World, ev: Event, p: string, t: string, e: Entry) {
    && ev.WriteInto? && ev.proc == p && ev.thread == t
    && var c := CacheOf(LoadStep(w, p, t), p);
       t in c && var a := AuthorAppend(c[t].log, ev.pid, ev.draft, ev.id, ev.ts); a.Written? && a.entry == e
  }

  /** Event `j` is another process committing rows of the thread. */
  ghost predicate ForeignCommit(evs: seq<Event>, j: nat, p: string, t: string) {
    && j < |evs| && evs[j].proc != p
    && RowsOf(Run(evs[..j + 1]).rows, t) != RowsOf(Run(evs[..j]).rows, t)
  }

  ghost predicate Stored(w: World, t: string, e: Entry) {
    e in RowsOf(w.rows, t)
  }

  /** The entry is in the log the process has cached, which is current. */
  ghost predicate StillCached(w: World, p: string, t: string, e: Entry) {
    Current(w.rows, CacheOf(w, p), t) && e in UnsavedOf(w, p, t)
  }

  /** The entry is out of the cached log, or that log is behind the table for good. */
  ghost predicate Dropped(w: World, p: string, t: string, e: Entry) {
    || e !in UnsavedOf(w, p, t)
    || t !in CacheOf(w, p)
    || CacheOf(w, p)[t].maxRid < MaxRid(w.rows, t)
  }

  // ------------------------------------------------------------------ row ids

  /** New rows of the thread raise its largest row id, and no other rows do. */
  lemma {:induction false} MaxRidGrows(rows: Rows, more: Rows, t: string)
    requires rows <= more
    ensures RowsOf(rows, t) <= RowsOf(more, t)
    ensures if RowsOf(more, t) == RowsOf(rows, t) then MaxRid(more, t) == MaxRid(rows, t)
            else MaxRid(more, t) > MaxRid(rows, t)
    decreases |more|
  {
    if rows != more {
      var n := |more| - 1;
      assert rows <= more[..n];
      MaxRidGrows(rows, more[..n], t);
      assert more == more[..n] + [more[n]];
      RowsOfSnoc(more[..n], more[n], t);
    }
  }

  lemma StoredStays(w: World, v: World, t: string, e: Entry)
    requires w.rows <= v.rows && Stored(w, t, e)
    ensures Stored(v, t, e)
  {
    hide MaxRid, RowsOf;
    MaxRidGrows(w.rows, v.rows, t);
  }

  // ------------------------------------------------------------------ steps that leave the thread's cache alone

  /** The cache of `p` for `t`, and what is unsaved in it, are as before; rows may be new. */
  ghost predicate Aside(w: World, v: World, p: string, t: string) {
    w.rows <= v.rows && SameAt(CacheOf(w, p), CacheOf(v, p), t) && UnsavedOf(v, p, t) == UnsavedOf(w, p, t)
  }

  lemma AsideExact(w: World, v: World, p: string, t: string, e: Entry)
    requires Aside(w, v, p, t)
    ensures StillCached(w, p, t, e) && RowsOf(v.rows, t) == RowsOf(w.rows, t) ==> StillCached(v, p, t, e)
    ensures StillCached(w, p, t, e) && RowsOf(v.rows, t) != RowsOf(w.rows, t) ==> Dropped(v, p, t, e)
    ensures Dropped(w, p, t, e) ==> Dropped(v, p, t, e)
  {
    hide MaxRid, RowsOf, CacheOf, UnsavedOf;
    MaxRidGrows(w.rows, v.rows, t);
  }

  lemma TouchedAside(w: World, v: World, q: string, u: string, p: string, t: string)
    requires Touched(w, v, q, u) && (q != p || u != t)
    ensures Aside(w, v, p, t)
  {
    hide CacheOf, UnsavedOf;
    if q == p {
      assert SameAt(CacheOf(w, p), CacheOf(v, p), t);
    }
  }

  // ------------------------------------------------------------------ steps on the thread itself

  lemma LoadOwn(w: World, p: string, t: string, e: Entry)
    requires WorldInv(w)
    ensures var v := LoadStep(w, p, t);
      && v.rows == w.rows && Touched(w, v, p, t) && Current(v.rows, CacheOf(v, p), t)
      && UnsavedOf(v, p, t) == LeftOf(w, p, t)
      && (StillCached(w, p, t, e) ==> StillCached(v, p, t, e)) && (Dropped(w, p, t, e) ==> Dropped(v, p, t, e))
  {
    hide WorldInv, Refresh, MaxRid, Touched;
    LoadKeepsInv(w, p, t);
  }

  lemma WriteOwn(w: World, p: string, t: string, pid: string, d: Draft, id: string, ts: Option<int>, e: Entry)
    requires WorldInv(w)
    ensures var v := WriteStep(w, p, t, pid, d, id, ts); var ev := WriteInto(p, t, pid, d, id, ts);
      && v.rows == w.rows && Touched(w, v, p, t)
      && (WritesInto(w, ev, p, t, e) ==> StillCached(v, p, t, e))
      && (StillCached(w, p, t, e) ==> StillCached(v, p, t, e))
      && (Dropped(w, p, t, e) && !WritesInto(w, ev, p, t, e) ==> Dropped(v, p, t, e))
  {
    hide WorldInv, LoadStep, LeftOf, MaxRid, AuthorAppend, Touched;
    LoadOwn(w, p, t, e);
    WritePut(w, p, t, pid, d, id, ts);
  }

  /** What a write does to the cache that loading left. */
  lemma WritePut(w: World, p: string, t: string, pid: string, d: Draft, id: string, ts: Option<int>)
    requires Touched(w, LoadStep(w, p, t), p, t)
    ensures var l, v := LoadStep(w, p, t), WriteStep(w, p, t, pid, d, id, ts); var c := CacheOf(l, p);
      && Touched(w, v, p, t) && v.rows == l.rows
      && if t in c && AuthorAppend(c[t].log, pid, d, id, ts).Written?
         then UnsavedOf(v, p, t) == LeftOf(w, p, t) + {AuthorAppend(c[t].log, pid, d, id, ts).entry}
           && t in CacheOf(v, p) && CacheOf(v, p)[t].maxRid == c[t].maxRid
         else v == l
  {
    hide Refresh, AuthorAppend, LeftOf;
    var l, v := LoadStep(w, p, t), WriteStep(w, p, t, pid, d, id, ts);
    var c := CacheOf(l, p);
    if t in c && AuthorAppend(c[t].log, pid, d, id, ts).Written? {
      var a := AuthorAppend(c[t].log, pid, d, id, ts);
      var c' := c[t := Cached(a.log, c[t].maxRid)];
      forall x | x != t ensures SameAt(CacheOf(w, p), c', x) {
        assert SameAt(CacheOf(w, p), c, x);
      }
      PutTouches(w, v, p, t, c', LeftOf(w, p, t) + {a.entry});
    }
  }

  /** Saving leaves the cache of the thread current. */
  lemma SaveOneCurrent(rows: Rows, c: Cache, e: Entry)
    requires Current(rows, Refresh(rows, c, e.thread), e.thread)
    ensures var r := SaveOne(rows, c, e);
      && Current(r.rows, r.cache, e.thread) && (r.rows == rows || r.rows == rows + [e])
      && (r.ok ==> e in r.rows || IdTaken(rows, e))
  {
    hide Refresh, Append, SlotTaken;
  }

  lemma SaveOneOwn(w: World, p: string, x: Entry, t: string, e: Entry)
    requires WorldInv(w) && PredecessorSaved(w.rows, x) && OnePerId(Elems(w.rows) + {x})
    ensures var v := SaveOneStep(w, p, x);
      && w.rows <= v.rows
      && (StillCached(w, p, t, e) ==> StillCached(v, p, t, e) || Stored(v, t, e))
      && (Dropped(w, p, t, e) ==> Dropped(v, p, t, e))
  {
    hide WorldInv, Refresh, SaveOne, Current, RowsOf, MaxRid, PredecessorSaved, OnePerId, Touched, StillCached, Dropped;
    var v := SaveOneStep(w, p, x);
    SaveOneKeepsInv(w, p, x);
    LoadOwn(w, p, x.thread, x);
    assert CacheOf(LoadStep(w, p, x.thread), p) == Refresh(w.rows, CacheOf(w, p), x.thread);
    SaveOneCurrent(w.rows, CacheOf(w, p), x);
    if x.thread == t {
      SavedHere(w, p, x, e);
    } else {
      TouchedAside(w, v, p, x.thread, p, t);
      AsideExact(w, v, p, t, e);
      RowsOfSnoc(w.rows, x, t);
    }
    assert Touched(w, v, p, x.thread) ==> w.rows <= v.rows by { TouchedGrows(w, v, p, x.thread); }
  }

  lemma TouchedGrows(w: World, v: World, p: string, t: string)
    ensures Touched(w, v, p, t) ==> w.rows <= v.rows
  {
  }

  lemma SavedHere(w: World, p: string, x: Entry, e: Entry)
    requires var v := SaveOneStep(w, p, x); var r := SaveOne(w.rows, CacheOf(w, p), x);
      && Current(v.rows, CacheOf(v, p), x.thread)
      && Elems(v.rows) == Elems(w.rows) + (if r.ok then {x} else {})
    ensures var v := SaveOneStep(w, p, x); var t := x.thread;
      && (StillCached(w, p, t, e) ==> StillCached(v, p, t, e) || Stored(v, t, e))
      && (Dropped(w, p, t, e) ==> Dropped(v, p, t, e))
  {
    hide SaveOne, RowsOf, MaxRid;
    var v, t := SaveOneStep(w, p, x), x.thread;
    RowsOfMembers(v.rows, t);
    assert x in Elems(v.rows) ==> x in v.rows;
    assert x in RowsOf(v.rows, t) <==> x in Elems(RowsOf(v.rows, t));
  }

  /** A whole save by the same process. */
  lemma {:induction false} SaveOwn(w: World, p: string, es: seq<Entry>, t: string, e: Entry)
    requires WorldInv(w) && Ascending(Elems(w.rows), es) && OnePerId(Elems(w.rows) + Elems(es))
    ensures var v := SaveStep(w, p, es);
      && w.rows <= v.rows
      && (StillCached(w, p, t, e) ==> StillCached(v, p, t, e) || Stored(v, t, e))
      && (Dropped(w, p, t, e) ==> Dropped(v, p, t, e))
    decreases |es|
  {
    hide WorldInv, SaveOneStep, SaveOne, Ascending, StillCached, Dropped, Stored;
    if es != [] {
      ElemsCons(es);
      FirstIsOrderly(w.rows, es);
      SaveOneOwn(w, p, es[0], t, e);
      SaveOneKeepsInv(w, p, es[0]);
      if SaveOne(w.rows, CacheOf(w, p), es[0]).ok {
        var v := SaveOneStep(w, p, es[0]);
        AscendingTail(Elems(w.rows), es);
        assert Elems(v.rows) + Elems(es[1..]) == Elems(w.rows) + Elems(es);
        SaveOwn(v, p, es[1..], t, e);
        if Stored(v, t, e) {
          StoredStays(v, SaveStep(w, p, es), t, e);
        }
      }
    }
  }

  /** A whole save by another process. */
  lemma {:induction false} SaveByOther(w: World, q: string, es: seq<Entry>, p: string, t: string)
    requires WorldInv(w) && Ascending(Elems(w.rows), es) && OnePerId(Elems(w.rows) + Elems(es)) && q != p
    ensures Aside(w, SaveStep(w, q, es), p, t)
    decreases |es|
  {
    hide WorldInv, SaveOneStep, SaveOne, Ascending, CacheOf, UnsavedOf, Touched;
    if es != [] {
      ElemsCons(es);
      FirstIsOrderly(w.rows, es);
      SaveOneKeepsInv(w, q, es[0]);
      var v := SaveOneStep(w, q, es[0]);
      TouchedAside(w, v, q, es[0].thread, p, t);
      if SaveOne(w.rows, CacheOf(w, q), es[0]).ok {
        AscendingTail(Elems(w.rows), es);
        assert Elems(v.rows) + Elems(es[1..]) == Elems(w.rows) + Elems(es);
        SaveByOther(v, q, es[1..], p, t);
      }
    }
  }

  // ------------------------------------------------------------------ runs

  /** What one event does to an entry it does not write. */
  lemma EventTrack(w: World, ev: Event, p: string, t: string, e: Entry)
    requires WorldInv(w) && Orderly(w, ev) && !WritesInto(w, ev, p, t, e)
    ensures var v := Step(w, ev); var foreign := ev.proc != p && RowsOf(v.rows, t) != RowsOf(w.rows, t);
      && w.rows <= v.rows
      && (StillCached(w, p, t, e) && !foreign ==> StillCached(v, p, t, e) || Stored(v, t, e))
      && (StillCached(w, p, t, e) && foreign ==> Dropped(v, p, t, e))
      && (Dropped(w, p, t, e) ==> Dropped(v, p, t, e))
  {
    hide WorldInv, LoadStep, WriteStep, SaveStep, StillCached, Dropped, Stored, Aside, Ascending, Touched, WritesInto,
         RowsOf;
    var v := Step(w, ev);
    match ev
    case Load(q, u) =>
      LoadOwn(w, q, u, e);
      if q != p || u != t {
        TouchedAside(w, v, q, u, p, t);
        AsideExact(w, v, p, t, e);
      }
    case WriteInto(q, u, pid, d, id, ts) =>
      WriteOwn(w, q, u, pid, d, id, ts, e);
      if q != p || u != t {
        TouchedAside(w, v, q, u, p, t);
        AsideExact(w, v, p, t, e);
      }
    case Save(q, es) =>
      if q == p {
        SaveOwn(w, p, es, t, e);
      } else {
        SaveByOther(w, q, es, p, t);
        AsideExact(w, v, p, t, e);
        assert Aside(w, v, p, t) ==> w.rows <= v.rows by { AsideGrows(w, v, p, t); }
      }
  }

  lemma AsideGrows(w: World, v: World, p: string, t: string)
    ensures Aside(w, v, p, t) ==> w.rows <= v.rows
  {
  }

  ghost predicate NoForeign(evs: seq<Event>, i: nat, p: string, t: string) {
    forall j :: i < j < |evs| ==> !ForeignCommit(evs, j, p, t)
  }

  lemma ForeignFront(evs: seq<Event>, j: nat, p: string, t: string)
    requires j < |evs| - 1
    ensures ForeignCommit(evs[..|evs| - 1], j, p, t) == ForeignCommit(evs, j, p, t)
  {
    hide Run, RowsOf;
    var front := evs[..|evs| - 1];
    assert front[..j + 1] == evs[..j + 1] && front[..j] == evs[..j];
  }

  lemma ForeignNow(evs: seq<Event>, p: string, t: string)
    requires evs != []
    ensures var n := |evs| - 1;
      ForeignCommit(evs, n, p, t) <==>
        evs[n].proc != p && RowsOf(Run(evs).rows, t) != RowsOf(Run(evs[..n]).rows, t)
  {
    hide Run, RowsOf;
    assert evs[..|evs|] == evs;
  }

  lemma NoForeignStep(evs: seq<Event>, i: nat, p: string, t: string)
    requires i + 1 < |evs|
    ensures var n := |evs| - 1; var w, v := Run(evs[..n]), Run(evs);
      NoForeign(evs, i, p, t) <==>
        NoForeign(evs[..n], i, p, t) && !(evs[n].proc != p && RowsOf(v.rows, t) != RowsOf(w.rows, t))
  {
    hide Run, ForeignCommit, RowsOf;
    var n := |evs| - 1;
    var front := evs[..n];
    ForeignNow(evs, p, t);
    forall j: nat | j < n ensures ForeignCommit(front, j, p, t) == ForeignCommit(evs, j, p, t) {
      ForeignFront(evs, j, p, t);
    }
    if NoForeign(evs, i, p, t) {
      assert !ForeignCommit(evs, n, p, t);
      forall j | i < j < n ensures !ForeignCommit(front, j, p, t) {
        assert !ForeignCommit(evs, j, p, t);
      }
    }
    if NoForeign(front, i, p, t) && !ForeignCommit(evs, n, p, t) {
      forall j | i < j < |evs| ensures !ForeignCommit(evs, j, p, t) {
        assert j < n ==> !ForeignCommit(front, j, p, t);
      }
    }
  }

  ghost predicate WrittenLastAt(evs: seq<Event>, i: nat, p: string, t: string, e: Entry) {
    && i < |evs| && WritesInto(Run(evs[..i]), evs[i], p, t, e)
    && forall j :: i < j < |evs| ==> !WritesInto(Run(evs[..j]), evs[j], p, t, e)
  }

  /** From its writing on, an entry is stored, or held while no other process has committed to
      the thread, or dropped once one has. */
  lemma {:induction false} Track(evs: seq<Event>, i: nat, p: string, t: string, e: Entry)
    requires OrderlyRun(evs) && WrittenLastAt(evs, i, p, t, e)
    ensures var w := Run(evs);
      Stored(w, t, e) || if NoForeign(evs, i, p, t) then StillCached(w, p, t, e) else Dropped(w, p, t, e)
    decreases |evs|
  {
    hide OrderlyRun, StillCached, Dropped, Stored, Step, NoForeign, WritesInto, Orderly, WorldInv, RowsOf;
    var n := |evs| - 1;
    var front, w := evs[..n], Run(evs[..n]);
    OrderlyFront(evs);
    RunInv(front);
    if i == n {
      WrittenNow(w, evs[n], p, t, e);
      assert NoForeign(evs, i, p, t) by { NothingSince(evs, i, p, t); }
    } else {
      forall j | 0 <= j < n ensures front[..j] == evs[..j] && front[j] == evs[j] {
      }
      Track(front, i, p, t, e);
      assert evs[..n] == front && !WritesInto(w, evs[n], p, t, e);
      EventTrack(w, evs[n], p, t, e);
      NoForeignStep(evs, i, p, t);
      if Stored(w, t, e) {
        StoredStays(w, Run(evs), t, e);
      }
    }
  }

  lemma OrderlyFront(evs: seq<Event>)
    requires OrderlyRun(evs) && evs != []
    ensures OrderlyRun(evs[..|evs| - 1]) && Orderly(Run(evs[..|evs| - 1]), evs[|evs| - 1])
  {
  }

  lemma NothingSince(evs: seq<Event>, i: nat, p: string, t: string)
    requires i == |evs| - 1
    ensures NoForeign(evs, i, p, t)
  {
  }

  lemma WrittenNow(w: World, ev: Event, p: string, t: string, e: Entry)
    requires WorldInv(w) && WritesInto(w, ev, p, t, e)
    ensures StillCached(Step(w, ev), p, t, e)
  {
    hide WorldInv, StillCached, WriteStep, LoadStep, AuthorAppend;
    WriteOwn(w, p, t, ev.pid, ev.draft, ev.id, ev.ts, e);
  }

  /** An entry that a process wrote into the log it was given is in the log it is given later
      exactly when it is in the table by then, or no other process has committed to the thread
      since it was written. */
  lemma WrittenEntryKept(evs: seq<Event>, i: nat, p: string, t: string, e: Entry)
    requires OrderlyRun(evs) && WrittenLastAt(evs, i, p, t, e)
    ensures var w := Run(evs); var l := ThreadLogOf(w.rows, CacheOf(w, p), t);
      l.Some? && (e in l.value.entries <==> Stored(w, t, e) || NoForeign(evs, i, p, t))
  {
    hide OrderlyRun, Run, WrittenLastAt, NoForeign, RowsOf, ThreadLogOf, Inv, Replay, NothingDropped, MaxRid;
    var w := Run(evs);
    Track(evs, i, p, t, e);
    CacheCoherent(evs, p, t);
    var l := ThreadLogOf(w.rows, CacheOf(w, p), t).value;
    assert e in l.entries <==> e in Elems(l.entries);
    assert e in RowsOf(w.rows, t) <==> e in Elems(RowsOf(w.rows, t));
  }
}
