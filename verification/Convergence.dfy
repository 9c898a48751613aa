/** What the append rules give replicas: convergence, history fixed by head hashes, and
    forks that never heal. */
module Convergence {
  import opened Entries
  import opened ThreadLogs
  import InsertionSort

  /** Appending a batch one by one, stopping at the first refusal. */
  datatype Delivery = Delivery(log: Log, error: Option<AppendError>)

  function Deliver(l: Log, d: seq<Entry>): Delivery
    decreases |d|
  {
    if d == [] then Delivery(l, None)
    else
      match Append(l, d[0])
      case Refused(err) => Delivery(l, Some(err))
      case Admitted(r) => Deliver(r, d[1..])
  }

  /** Every entry of `d` arrives after its chain predecessor, or the receiver had it. */
  ghost predicate Ascending(held: set<Entry>, d: seq<Entry>) {
    forall i {:trigger d[i]} :: 0 <= i < |d| && d[i].seqNo > 1 && d[i].prev.HashOf? ==>
      d[i].prev.entry in held || d[i].prev.entry in d[..i]
  }

  /** A sort that puts every chain in position order gives an in-order delivery. */
  lemma ChainSortedAscends(held: set<Entry>, o: seq<Entry>, less: (Entry, Entry) -> bool)
    requires InsertionSort.Sorted(o, less)
    requires forall p, e :: e in o && e.seqNo > 1 && KeyOf(p) == KeyOf(e) && p.seqNo < e.seqNo ==> less(p, e)
    requires forall e :: e in o ==> Linked(held + Elems(o), e)
    ensures Ascending(held, o)
  {
    forall i | 0 <= i < |o| && o[i].seqNo > 1 && o[i].prev.HashOf?
      ensures o[i].prev.entry in held || o[i].prev.entry in o[..i]
    {
      assert o[i] in o && Linked(held + Elems(o), o[i]);
      var p := o[i].prev.entry;
      if p !in held {
        var j :| 0 <= j < |o| && o[j] == p;
        assert less(p, o[i]);
        assert j <= i;
        assert o[..i][j] == p;
      }
    }
  }

  lemma ElemsCons(d: seq<Entry>)
    requires d != []
    ensures Elems(d) == {d[0]} + Elems(d[1..])
  {
    assert d == [d[0]] + d[1..];
  }

  lemma AscendingTail(held: set<Entry>, d: seq<Entry>)
    requires d != [] && Ascending(held, d)
    ensures Ascending(held + {d[0]}, d[1..])
  {
    var t := d[1..];
    forall i | 0 <= i < |t| && t[i].seqNo > 1 && t[i].prev.HashOf?
      ensures t[i].prev.entry in held + {d[0]} || t[i].prev.entry in t[..i]
    {
      assert t[i] == d[i + 1];
      assert d[..i + 1] == [d[0]] + t[..i];
    }
  }

  lemma AscendingCons(held: set<Entry>, d: seq<Entry>)
    requires d != [] && Ascending(held + {d[0]}, d[1..])
    requires d[0].seqNo > 1 && d[0].prev.HashOf? ==> d[0].prev.entry in held
    ensures Ascending(held, d)
  {
    forall i | 0 <= i < |d| && d[i].seqNo > 1 && d[i].prev.HashOf?
      ensures d[i].prev.entry in held || d[i].prev.entry in d[..i]
    {
      if i > 0 {
        assert d[1..][i - 1] == d[i];
        assert d[..i] == [d[0]] + d[1..][..i - 1];
      }
    }
  }

  lemma {:induction false} DeliverKeepsInv(l: Log, d: seq<Entry>)
    requires Inv(l)
    ensures var r := Deliver(l, d).log;
      Inv(r) && r.thread == l.thread && Elems(l.entries) <= Elems(r.entries) <= Elems(l.entries) + Elems(d)
    decreases |d|
  {
    hide Inv, Append, ChainSet;
    if d != [] && Append(l, d[0]).Admitted? {
      AppendExact(l, d[0]);
      ElemsCons(d);
      DeliverKeepsInv(Append(l, d[0]).log, d[1..]);
    }
  }

  lemma DeliverStep(l: Log, d: seq<Entry>, t: set<Entry>)
    requires Inv(l) && ChainSet(t, l.thread) && d != []
    requires Elems(l.entries) <= t && Elems(d) <= t && Ascending(Elems(l.entries), d)
    ensures var a := Append(l, d[0]);
      && a.Admitted? && Inv(a.log) && a.log.thread == l.thread
      && Elems(a.log.entries) == Elems(l.entries) + {d[0]}
  {
    OneMore(Elems(l.entries), t, l.thread, d);
    AppendExact(l, d[0]);
  }

  /** An in-order delivery inside an admissible set is accepted to the last entry. */
  lemma {:induction false} DeliverAccepted(l: Log, d: seq<Entry>, t: set<Entry>)
    requires Inv(l) && ChainSet(t, l.thread)
    requires Elems(l.entries) <= t && Elems(d) <= t && Ascending(Elems(l.entries), d)
    ensures var r := Deliver(l, d);
      && r.error == None && Inv(r.log) && r.log.thread == l.thread
      && Elems(r.log.entries) == Elems(l.entries) + Elems(d)
    decreases |d|
  {
    hide Inv, ChainSet, Append;
    if d == [] {
      assert Elems(d) == {};
    } else {
      DeliverStep(l, d, t);
      AscendingTail(Elems(l.entries), d);
      ElemsCons(d);
      var r := Append(l, d[0]).log;
      DeliverAccepted(r, d[1..], t);
      assert Deliver(l, d) == Deliver(r, d[1..]);
    }
  }

  lemma OneMore(s: set<Entry>, t: set<Entry>, thread: string, d: seq<Entry>)
    requires ChainSet(s, thread) && ChainSet(t, thread) && s <= t
    requires d != [] && d[0] in t && Ascending(s, d)
    ensures ChainSet(s + {d[0]}, thread)
  {
    assert d[..0] == [];
    forall e | e in s + {d[0]} && e.seqNo > 1 && e.prev.HashOf? ensures e.prev.entry in s + {d[0]} {
      assert e in s ==> Linked(s, e);
    }
    LinkedSubset(s + {d[0]}, t, thread);
  }

  /** A delivery is accepted in full exactly when everything held afterwards is an
      admissible set and each entry came after its predecessor. */
  lemma {:induction false} DeliverExact(l: Log, d: seq<Entry>)
    requires Inv(l)
    ensures Deliver(l, d).error == None <==>
      ChainSet(Elems(l.entries) + Elems(d), l.thread) && Ascending(Elems(l.entries), d)
    decreases |d|
  {
    hide ChainSet, Ascending, Deliver, Represents;
    var s := Elems(l.entries);
    if ChainSet(s + Elems(d), l.thread) && Ascending(s, d) {
      DeliverAccepted(l, d, s + Elems(d));
    }
    if Deliver(l, d).error == None {
      AcceptedAscends(l, d);
    }
  }

  lemma AcceptedStep(l: Log, e: Entry)
    requires Inv(l) && Append(l, e).Admitted?
    ensures var r := Append(l, e).log;
      && Inv(r) && r.thread == l.thread && Elems(r.entries) == Elems(l.entries) + {e}
    ensures e.seqNo > 1 && e.prev.HashOf? ==> e.prev.entry in Elems(l.entries)
  {
    hide Inv, Append, Represents;
    AppendExact(l, e);
    assert Linked(Elems(l.entries) + {e}, e);
  }

  lemma {:induction false} AcceptedAscends(l: Log, d: seq<Entry>)
    requires Inv(l) && Deliver(l, d).error == None
    ensures Ascending(Elems(l.entries), d)
    ensures var r := Deliver(l, d).log;
      Inv(r) && r.thread == l.thread && Elems(r.entries) == Elems(l.entries) + Elems(d)
    decreases |d|
  {
    hide Inv, Append;
    if d == [] {
      assert Elems(d) == {};
    } else {
      AcceptedStep(l, d[0]);
      ElemsCons(d);
      var r := Append(l, d[0]).log;
      AcceptedAscends(r, d[1..]);
      AscendingCons(Elems(l.entries), d);
      assert Deliver(l, d) == Deliver(r, d[1..]);
    }
  }

  /** Replica convergence: any two in-order deliveries of the same entries, interleaved in
      any way and with any duplicates, are accepted in full and end in the same log. */
  lemma ReplicasConverge(thread: string, s: set<Entry>, d1: seq<Entry>, d2: seq<Entry>)
    requires ChainSet(s, thread) && Elems(d1) == s && Elems(d2) == s
    requires Ascending({}, d1) && Ascending({}, d2)
    ensures var r1, r2 := Deliver(EmptyLog(thread), d1), Deliver(EmptyLog(thread), d2);
      && r1.error == None && r2.error == None && r1.log == r2.log
      && Inv(r1.log) && Elems(r1.log.entries) == s
  {
    var e := EmptyLog(thread);
    EmptyLogInv(thread);
    assert Elems(e.entries) == {} && {} + s == s;
    DeliverAccepted(e, d1, s);
    DeliverAccepted(e, d2, s);
    LogDetermined(Deliver(e, d1).log, Deliver(e, d2).log);
  }

  /** The entries of one chain. */
  ghost function Chain(l: Log, k: ChainKey): set<Entry> {
    set e | e in l.entries && KeyOf(e) == k
  }

  /** The chain is the head and what it links back to, so it is fixed by the head alone. */
  lemma ChainFromHead(l: Log, k: ChainKey, e: Entry)
    requires Inv(l) && k in l.heads
    ensures e in Chain(l, k) <==>
      KeyOf(e) == k && 1 <= e.seqNo <= l.heads[k].seqNo
      && e == Ancestor(l.heads[k].hash.entry, e.seqNo)
  {
    var s, h := Elems(l.entries), l.heads[k].hash.entry;
    assert h in s;
    if 1 <= e.seqNo <= h.seqNo {
      AncestorHeld(s, l.thread, h, e.seqNo);
      assert SameSlot(e, Ancestor(h, e.seqNo)) <==> KeyOf(e) == k;
    }
    if e in s {
      assert Validate(e);
    }
  }

  /** Two logs hold a chain entry for entry exactly when its heads agree in position and hash. */
  lemma HeadsDetermineHistory(l: Log, m: Log, k: ChainKey)
    requires Inv(l) && Inv(m) && k in l.heads && k in m.heads
    ensures l.heads[k] == m.heads[k] <==> Chain(l, k) == Chain(m, k)
  {
    hide AllValid, AllLinked, OnePerId, IndexOf, ClockOf, InOrder;
    if l.heads[k] == m.heads[k] {
      forall e ensures e in Chain(l, k) <==> e in Chain(m, k) {
        ChainFromHead(l, k, e);
        ChainFromHead(m, k, e);
      }
    }
    if Chain(l, k) == Chain(m, k) {
      var h, g := l.heads[k].hash.entry, m.heads[k].hash.entry;
      assert h in Elems(l.entries) && g in Elems(m.entries);
      assert h in Chain(l, k) && g in Chain(m, k);
      assert h in Elems(m.entries) && g in Elems(l.entries);
      HeadFacts(m.heads, Elems(m.entries), h);
      HeadFacts(l.heads, Elems(l.entries), g);
      assert SameSlot(h, g);
    }
  }

  /** Once two logs differ at one position of a chain, no later entry of that chain from
      one is ever admitted by the other, whatever either receives in between. */
  lemma ForkIsPermanent(l: Log, m: Log, a: Entry, b: Entry, e: Entry)
    requires Inv(l) && Inv(m) && a in l.entries && b in m.entries
    requires SameSlot(a, b) && a != b
    requires e in l.entries && KeyOf(e) == KeyOf(a) && e.seqNo >= a.seqNo
    ensures Append(m, e).Refused?
  {
    var s, t := Elems(l.entries), Elems(m.entries);
    assert Validate(a) && a in s && b in t && e in s;
    AncestorHeld(s, l.thread, e, a.seqNo);
    assert SameSlot(Ancestor(e, a.seqNo), a);
    AppendExact(m, e);
    if ChainSet(t + {e}, m.thread) {
      AncestorHeld(t + {e}, m.thread, e, a.seqNo);
    }
  }
}
