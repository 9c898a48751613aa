/** A concrete run of two processes in which a written entry is dropped from a cached log. */
module RowCases {
  import opened Entries
  import opened ThreadLogs
  import opened Authors
  import opened RowStore
  import opened RowRuns
  import opened RowHistory

  const HOST := "ed25519:S"
  const GUEST := "ed25519:P"

  const SAY := Draft(KindMessage, LaneContent, "", Some(OtherBody("hello")), "")

  /** The first entry of an author in the thread. */
  function First(pid: string, id: string): Entry {
    NextEntry(EmptyLog("T"), pid, SAY, id, None)
  }

  const WRITE: Event := WriteInto("P", "T", HOST, SAY, "A", None)

  /** Process P writes, and before it saves process Q commits the guest's first entry. */
  const CROSSING: seq<Event> := [WRITE, Save("Q", [First(GUEST, "B")])]

  lemma FirstWritten(pid: string, id: string)
    requires pid == HOST || pid == GUEST
    ensures AuthorAppend(EmptyLog("T"), pid, SAY, id, None).Written?
    ensures AuthorAppend(EmptyLog("T"), pid, SAY, id, None).entry == First(pid, id)
    ensures ChainSet({First(pid, id)}, "T")
  {
    hide Inv, Append, ChainSet;
    EmptyLogInv("T");
    AuthorAppendExact(EmptyLog("T"), pid, SAY, id, None);
    AuthorAppendsLast(EmptyLog("T"), pid, SAY, id, None);
    var r := AuthorAppend(EmptyLog("T"), pid, SAY, id, None).log;
    InvChains(r);
    assert r.entries == [First(pid, id)] && Elems(r.entries) == {First(pid, id)};
  }

  lemma BothAdmissible()
    ensures ChainSet({First(GUEST, "B")} + {First(HOST, "A")}, "T")
  {
    hide Validate;
    FirstWritten(HOST, "A");
    FirstWritten(GUEST, "B");
  }

  lemma AfterWrite()
    ensures var w := Step(EMPTY_WORLD, WRITE);
      && WorldInv(w) && w.rows == [] && StillCached(w, "P", "T", First(HOST, "A"))
      && WritesInto(EMPTY_WORLD, WRITE, "P", "T", First(HOST, "A"))
      && PendingOf(w, "P", "T") == {First(HOST, "A")} && UnsavedOf(w, "Q", "T") == {}
  {
    hide WorldInv, AuthorAppend, StillCached, First;
    EmptyWorldInv();
    WriteKeepsInv(EMPTY_WORLD, "P", "T", HOST, SAY, "A", None);
    FirstWritten(HOST, "A");
    FirstLoad();
    WrittenNow(EMPTY_WORLD, WRITE, "P", "T", First(HOST, "A"));
  }

  lemma FirstLoad()
    ensures var c := CacheOf(LoadStep(EMPTY_WORLD, "P", "T"), "P");
      "T" in c && c["T"].log == EmptyLog("T")
  {
    assert RowsOf([], "T") == [];
  }

  /** Q commits: the table holds the guest's entry. */
  lemma AfterCommit()
    ensures var w := Step(Step(EMPTY_WORLD, WRITE), CROSSING[1]);
      && WorldInv(w) && Elems(w.rows) == {First(GUEST, "B")}
      && PendingOf(w, "P", "T") == {First(HOST, "A")}
      && Orderly(Step(EMPTY_WORLD, WRITE), CROSSING[1])
  {
    hide WorldInv, SaveOne, First, ChainSet, RowsOf, Touched, WriteStep, SaveOneStep, SaveStep, PendingOf, Current,
         PredecessorSaved, StillCached, WritesInto;
    var w, x := Step(EMPTY_WORLD, WRITE), First(GUEST, "B");
    AfterWrite();
    FirstWritten(GUEST, "B");
    FirstEntry(GUEST, "B");
    assert Elems(w.rows) == {} && Elems([x]) == {x};
    assert Elems(RowsOf(w.rows, "T")) + LeftOf(w, "Q", "T") + {x} == {x} by { NoRows("T"); }
    FirstIsReady(w.rows, x);
    SaveExact(w, "Q", x);
    SaveOneKeepsInv(w, "Q", x);
    SaveSingle(w, "Q", x);
    OthersPend(w, "Q", x, "P");
    FirstIsOrdered(w, CROSSING[1], x);
  }

  lemma SaveSingle(w: World, q: string, x: Entry)
    ensures SaveStep(w, q, [x]) == SaveOneStep(w, q, x)
  {
    hide SaveOneStep, SaveOne;
    assert [x][1..] == [];
  }

  lemma OthersPend(w: World, q: string, x: Entry, p: string)
    requires q != p
    ensures PendingOf(SaveOneStep(w, q, x), p, x.thread) == PendingOf(w, p, x.thread)
  {
    hide SaveOne, LeftOf;
  }

  lemma FirstIsOrdered(w: World, ev: Event, x: Entry)
    requires w.rows == [] && ev.Save? && ev.batch == [x] && x.seqNo == 1
    ensures Orderly(w, ev)
  {
  }

  lemma FirstEntry(pid: string, id: string)
    ensures First(pid, id).seqNo == 1 && First(pid, id).thread == "T" && First(pid, id).id == id
  {
  }

  lemma NoRows(t: string)
    ensures RowsOf([], t) == []
  {
  }

  lemma TheRun()
    ensures var w := Step(EMPTY_WORLD, WRITE);
      && Run(CROSSING[..0]) == EMPTY_WORLD && Run(CROSSING[..1]) == w && Run(CROSSING) == Step(w, CROSSING[1])
    ensures OrderlyRun(CROSSING) && WrittenLastAt(CROSSING, 0, "P", "T", First(HOST, "A"))
  {
    hide Step, First, Orderly, WritesInto;
    assert CROSSING[..1][..0] == [] && CROSSING[..0] == [] && CROSSING[..1] == [WRITE];
    AfterWrite();
    AfterCommit();
    assert Orderly(EMPTY_WORLD, WRITE) by { WritesAreOrderly(); }
    assert Run(CROSSING[..1]) == Step(EMPTY_WORLD, WRITE);
    assert OrderlyRun(CROSSING[..1]) by { assert OrderlyRun([]); }
    forall j | 0 < j < |CROSSING| ensures !WritesInto(Run(CROSSING[..j]), CROSSING[j], "P", "T", First(HOST, "A")) {
      SavesWriteNothing(Run(CROSSING[..j]), CROSSING[j], "P", "T", First(HOST, "A"));
    }
  }

  lemma SavesWriteNothing(w: World, ev: Event, p: string, t: string, e: Entry)
    requires ev.Save?
    ensures !WritesInto(w, ev, p, t, e)
  {
  }

  lemma WritesAreOrderly()
    ensures Orderly(EMPTY_WORLD, WRITE)
  {
  }

  lemma CommitIsForeign()
    ensures var w, e, x := Run(CROSSING), First(HOST, "A"), First(GUEST, "B");
      ForeignCommit(CROSSING, 1, "P", "T") && !Stored(w, "T", e) && Elems(RowsOf(w.rows, "T")) == {x}
  {
    hide WorldInv, First, Step, Run, OrderlyRun, RowsOf;
    TheRun();
    AfterWrite();
    AfterCommit();
    FirstEntry(HOST, "A");
    FirstEntry(GUEST, "B");
    var w, x := Run(CROSSING), First(GUEST, "B");
    RowsOfMembers(w.rows, "T");
    forall e ensures e in Elems(RowsOf(w.rows, "T")) <==> e == x {
      assert e in w.rows <==> e in Elems(w.rows);
    }
    assert CROSSING[..2] == CROSSING;
    NoRows("T");
    assert x in Elems(RowsOf(w.rows, "T"));
  }

  lemma FirstIsReady(rows: Rows, e: Entry)
    requires e.seqNo == 1
    ensures PredecessorSaved(rows, e)
  {
  }

  /** What P wrote is no longer in the log that P is given, though P has not saved it.  Saving it
      then succeeds all the same, for its place in the chain is still free. */
  lemma WrittenEntryDropped()
    ensures OrderlyRun(CROSSING)
    ensures var w, e := Run(CROSSING), First(HOST, "A"); var l := ThreadLogOf(w.rows, CacheOf(w, "P"), "T");
      && PendingOf(w, "P", "T") == {e} && l.Some? && l.value.entries == [First(GUEST, "B")]
      && !NothingDropped(w, "P", "T")
      && SaveOne(w.rows, CacheOf(w, "P"), e).ok
  {
    hide WorldInv, SaveOne, First, ChainSet, RowsOf, Step, ThreadLogOf, Inv, WritesInto, NothingDropped,
         Replay, Orderly, Run, OrderlyRun, WrittenLastAt, LeftOf, PredecessorSaved;
    var e, x := First(HOST, "A"), First(GUEST, "B");
    AfterCommit();
    TheRun();
    CommitIsForeign();
    var w := Run(CROSSING);
    WrittenEntryKept(CROSSING, 0, "P", "T", e);
    CacheCoherent(CROSSING, "P", "T");
    var l := ThreadLogOf(w.rows, CacheOf(w, "P"), "T").value;
    var left := LeftOf(w, "P", "T");
    assert e in l.entries <==> e in Elems(l.entries);
    assert left == {};
    assert Elems(l.entries) == {x} == Elems([x]);
    LogInOrder(l);
    InOrderUnique(l.entries, [x]);
    FirstEntry(HOST, "A");
    FirstEntry(GUEST, "B");
    BothAdmissible();
    assert {x} + left + {e} == {x} + {e};
    FirstIsReady(w.rows, e);
    SaveExact(w, "P", e);
  }
}
