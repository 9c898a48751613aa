/** Runs of many replicas of one thread: threads are founded, entries are written through
    `Author.Append` on any replica, and written entries are delivered to replicas that
    admit them.  The total order respects what each author had seen. */
module Causality {
  import opened Entries
  import opened ThreadLogs
  import opened Authors

  /** `saw` holds (e, f) when the log in which `f` was written held `e` at that moment. */
  datatype World = World(
    thread: string, nodes: map<string, Log>, written: set<Entry>, saw: set<(Entry, Entry)>)

  datatype Event =
    | Join(node: string)
    | Write(node: string, pid: string, draft: Draft, id: string, ts: Option<int>)
    | Receive(node: string, entry: Entry)

  function Founded(node: string, pid: string, title: string, discoverable: bool, id: string, ts: Option<int>): World
    requires IsPrincipal(pid)
  {
    var e := GenesisEntry(pid, title, discoverable, id, ts);
    World(id, map[node := Insert(EmptyLog(id), e)], {e}, {})
  }

  /** One event; an event that the program would refuse changes nothing. */
  function Step(w: World, ev: Event): World {
    match ev
    case Join(n) =>
      if n in w.nodes then w else w.(nodes := w.nodes[n := EmptyLog(w.thread)])
    case Write(n, pid, d, id, ts) =>
      if n !in w.nodes then w
      else
        (match AuthorAppend(w.nodes[n], pid, d, id, ts)
         case Written(r, f) =>
           World(w.thread, w.nodes[n := r], w.written + {f},
                 w.saw + set e | e in w.nodes[n].entries :: (e, f))
         case _ => w)
    case Receive(n, e) =>
      if n !in w.nodes || e !in w.written then w
      else
        (match Append(w.nodes[n], e)
         case Admitted(r) => w.(nodes := w.nodes[n := r])
         case Refused(_) => w)
  }

  function Run(w: World, evs: seq<Event>): World {
    if evs == [] then w else Step(Run(w, evs[..|evs| - 1]), evs[|evs| - 1])
  }

  ghost predicate NodeOk(w: World, l: Log) {
    Inv(l) && l.thread == w.thread && Elems(l.entries) <= w.written
  }

  ghost predicate ClocksOk(w: World) {
    && (forall f :: f in w.written && f.prev.HashOf? ==> f.prev.entry.lamport < f.lamport)
    && (forall p :: p in w.saw ==> p.0.lamport < p.1.lamport)
  }

  ghost predicate WorldInv(w: World) {
    (forall n :: n in w.nodes ==> NodeOk(w, w.nodes[n])) && ClocksOk(w)
  }

  lemma FoundedInv(node: string, pid: string, title: string, discoverable: bool, id: string, ts: Option<int>)
    requires IsPrincipal(pid)
    ensures WorldInv(Founded(node, pid, title, discoverable, id, ts))
  {
    hide Inv;
    NewThreadHoldsGenesis(pid, title, discoverable, id, ts);
  }

  /** A world in which one thread was just founded. */
  ghost predicate JustFounded(w: World) {
    exists node, pid, title, discoverable, id, ts ::
      IsPrincipal(pid) && w == Founded(node, pid, title, discoverable, id, ts)
  }

  lemma WriteStep(w: World, n: string, pid: string, d: Draft, id: string, ts: Option<int>)
    requires WorldInv(w) && n in w.nodes && AuthorAppend(w.nodes[n], pid, d, id, ts).Written?
    ensures WorldInv(Step(w, Write(n, pid, d, id, ts)))
  {
    hide Inv, AuthorAppend;
    var l := w.nodes[n];
    var f := AuthorAppend(l, pid, d, id, ts).entry;
    var w' := Step(w, Write(n, pid, d, id, ts));
    assert NodeOk(w, l);
    AuthorAppendsLast(l, pid, d, id, ts);
    WrittenPrevHeld(l, pid, d, id, ts);
    assert ClocksOk(w');
    forall m | m in w'.nodes ensures NodeOk(w', w'.nodes[m]) {
      assert m != n ==> NodeOk(w, w.nodes[m]);
    }
  }

  lemma WrittenPrevHeld(l: Log, pid: string, d: Draft, id: string, ts: Option<int>)
    requires Inv(l) && AuthorAppend(l, pid, d, id, ts).Written?
    ensures var f := AuthorAppend(l, pid, d, id, ts).entry; f.prev.HashOf? ==> f.prev.entry in l.entries
  {
    var k := ChainKey(l.thread, pid, d.lane);
    if k in l.heads {
      assert l.heads[k].hash.entry in Elems(l.entries);
    }
  }

  lemma StepInv(w: World, ev: Event)
    requires WorldInv(w)
    ensures WorldInv(Step(w, ev))
  {
    hide Inv, Append, AuthorAppend;
    var w' := Step(w, ev);
    match ev
    case Join(n) =>
      EmptyLogInv(w.thread);
      assert Elems([]) == {};
      forall m | m in w'.nodes ensures NodeOk(w', w'.nodes[m]) {
        assert m in w.nodes ==> NodeOk(w, w.nodes[m]);
      }
    case Write(n, pid, d, id, ts) =>
      if n in w.nodes && AuthorAppend(w.nodes[n], pid, d, id, ts).Written? {
        WriteStep(w, n, pid, d, id, ts);
      }
    case Receive(n, e) =>
      if n in w.nodes && e in w.written && Append(w.nodes[n], e).Admitted? {
        assert NodeOk(w, w.nodes[n]);
        AppendExact(w.nodes[n], e);
        forall m | m in w'.nodes ensures NodeOk(w', w'.nodes[m]) {
          assert m != n ==> NodeOk(w, w.nodes[m]);
        }
      }
  }

  lemma {:induction false} RunInv(w: World, evs: seq<Event>)
    requires WorldInv(w)
    ensures WorldInv(Run(w, evs))
    decreases |evs|
  {
    hide WorldInv, Step;
    if evs != [] {
      RunInv(w, evs[..|evs| - 1]);
      StepInv(Run(w, evs[..|evs| - 1]), evs[|evs| - 1]);
    }
  }

  /** What every run from a founding keeps: each replica is a log of written entries, a
      predecessor in a chain has a smaller clock, and so has whatever a writer had seen. */
  lemma FoundedRunInv(w: World, evs: seq<Event>)
    requires JustFounded(w)
    ensures WorldInv(Run(w, evs))
  {
    hide WorldInv, Run, IsPrincipal;
    var node, pid, title, discoverable, id, ts :|
      IsPrincipal(pid) && w == Founded(node, pid, title, discoverable, id, ts);
    FoundedInv(node, pid, title, discoverable, id, ts);
    RunInv(w, evs);
  }

  lemma EarlierClockFirst(l: Log, i: nat, j: nat)
    requires Inv(l) && i < |l.entries| && j < |l.entries| && l.entries[i].lamport < l.entries[j].lamport
    ensures i < j
  {
    hide ChainSet, HeadsOf, IndexOf, ClockOf;
    assert j < i ==> Less(l.entries[j], l.entries[i]);
  }

  /** Causality: in every run from a founding, if the author's log held `e` when it wrote `f`,
      then `e` precedes `f` on every replica that holds both. */
  lemma SeenPrecedes(w: World, evs: seq<Event>, e: Entry, f: Entry, n: string, i: nat, j: nat)
    requires JustFounded(w)
    requires var r := Run(w, evs);
      && (e, f) in r.saw && n in r.nodes
      && i < |r.nodes[n].entries| && j < |r.nodes[n].entries|
      && r.nodes[n].entries[i] == e && r.nodes[n].entries[j] == f
    ensures i < j
  {
    hide Run, Inv, JustFounded;
    FoundedRunInv(w, evs);
    var r := Run(w, evs);
    assert NodeOk(r, r.nodes[n]);
    assert (e, f).0.lamport < (e, f).1.lamport;
    EarlierClockFirst(r.nodes[n], i, j);
  }

  lemma {:induction false} AncestorEarlier(w: World, l: Log, f: Entry, n: nat)
    requires ClocksOk(w) && NodeOk(w, l) && f in Elems(l.entries) && 1 <= n < f.seqNo
    ensures Ancestor(f, n).lamport < f.lamport
    decreases f
  {
    var s := Elems(l.entries);
    assert Linked(s, f);
    if n < f.seqNo - 1 {
      AncestorEarlier(w, l, f.prev.entry, n);
    }
  }

  /** Along every chain of every replica, clocks strictly increase. */
  lemma ChainClocksIncrease(w: World, evs: seq<Event>, n: string, e: Entry, f: Entry)
    requires JustFounded(w)
    requires var r := Run(w, evs);
      && n in r.nodes && e in r.nodes[n].entries && f in r.nodes[n].entries
      && KeyOf(e) == KeyOf(f) && e.seqNo < f.seqNo
    ensures e.lamport < f.lamport
  {
    hide Run, Inv, JustFounded, ChainSet;
    FoundedRunInv(w, evs);
    var r := Run(w, evs);
    var l := r.nodes[n];
    assert NodeOk(r, l);
    Held(l, e);
    InvChains(l);
    AncestorEarlier(r, l, f, e.seqNo);
    AncestorHeld(Elems(l.entries), l.thread, f, e.seqNo);
    HeldOnce(l, e, Ancestor(f, e.seqNo));
  }

  /** The same along any path of "was seen by the writer of". */
  lemma {:induction false} CausalPath(w: World, evs: seq<Event>, path: seq<Entry>)
    requires JustFounded(w) && |path| >= 2
    requires forall i :: 0 <= i < |path| - 1 ==> (path[i], path[i + 1]) in Run(w, evs).saw
    ensures path[0].lamport < path[|path| - 1].lamport
    decreases |path|
  {
    hide Run, JustFounded;
    FoundedRunInv(w, evs);
    var n := |path| - 1;
    assert (path[n - 1], path[n]).0.lamport < (path[n - 1], path[n]).1.lamport;
    if n > 1 {
      CausalPath(w, evs, path[..n]);
    }
  }
}
