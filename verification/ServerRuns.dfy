/** Runs of a server: what may ever enter a thread through Push and SubmitAccessRequest, and
    what may ever leave it through Pull. */
module ServerRuns {
  import opened Entries
  import opened ThreadLogs
  import opened Convergence
  import opened Perm
  import opened Stores
  import opened Sync
  import opened SyncLaws

  // ------------------------------------------------------------------ what may enter

  datatype Call =
    | PushCall(principal: string, batch: seq<Entry>, now: int)
    | RequestCall(principal: string, entry: Entry, now: int)

  /** Every entry of the call names the thread it is sent to. */
  ghost predicate NamesThread(t: string, c: Call) {
    match c
    case PushCall(_, batch, _) => forall e :: e in batch ==> e.thread == t
    case RequestCall(_, e, _) => e.thread == t
  }

  function Do(s: Logs, t: string, c: Call): Logs {
    match c
    case PushCall(p, batch, now) => PushSpec(s, t, p, batch, now).logs
    case RequestCall(p, e, now) => if RequestAllowed(s, p, e, now) then AppendAll(s, [e]).logs else s
  }

  function After(t: string, calls: seq<Call>): Logs {
    if calls == [] then map[] else Do(After(t, calls[..|calls| - 1]), t, calls[|calls| - 1])
  }

  /** The bootstrap: an unknown thread is opened by its genesis, written by the caller. */
  ghost predicate Founding(s: Logs, t: string, c: Call, e: Entry) {
    && c.PushCall? && e in c.batch
    && LogOf(s, t).entries == [] && e.id == t && e.author == c.principal && e.seqNo == 1
  }

  /** An access request to a thread that is discoverable or visible to the caller then. */
  ghost predicate Requested(s: Logs, t: string, c: Call, e: Entry) {
    var st := Fold(t, LogOf(s, t).entries);
    && c.RequestCall? && e == c.entry && e.kind == KindAccessRequest && e.lane == LaneControl
    && (st.discoverable || VisibleLanes(s, t, c.principal, c.now) != [])
    && ActsFor(st, e.author, c.principal)
  }

  /** The permissions a push is checked against: those before it, or, when it founds the
      thread, those of the genesis alone. */
  function AdmissionPerms(s: Logs, t: string, c: Call): Perms
    requires c.PushCall?
  {
    if LogOf(s, t).entries == [] && c.batch != []
    then Fold(t, LogOf(AppendAll(s, Ordered(c.batch, t)[..1]).logs, t).entries)
    else Fold(t, LogOf(s, t).entries)
  }

  ghost predicate PushedIn(s: Logs, t: string, c: Call, e: Entry) {
    c.PushCall? && e in c.batch && PushAllowed(AdmissionPerms(s, t, c), t, c.principal, e)
  }

  ghost predicate Justified(s: Logs, t: string, c: Call, e: Entry) {
    Founding(s, t, c, e) || Requested(s, t, c, e) || PushedIn(s, t, c, e)
  }

  /** A batch adds nothing but its own entries. */
  lemma AppendAdds(s: Logs, t: string, es: seq<Entry>)
    requires StoreInv(s) && forall e :: e in es ==> e.thread == t
    ensures var r := AppendAll(s, es).logs;
      && StoreInv(r) && Inv(LogOf(r, t)) && LogOf(r, t).thread == t
      && Elems(LogOf(s, t).entries) <= Elems(LogOf(r, t).entries) <= Elems(LogOf(s, t).entries) + Elems(es)
  {
    hide Inv, StoreInv, LogOf, Deliver, AppendAll;
    LogOfInv(s, t);
    AppendOneThread(s, t, es);
    AppendAllKeepsInv(s, es);
    DeliverKeepsInv(LogOf(s, t), es);
  }

  lemma CheckedAdds(s: Logs, t: string, p: string, es: seq<Entry>, total: nat)
    requires StoreInv(s) && forall e :: e in es ==> e.thread == t
    ensures var r := PushChecked(s, t, p, es, total).logs;
      && StoreInv(r)
      && Elems(LogOf(s, t).entries) <= Elems(LogOf(r, t).entries)
      && forall e :: e in LogOf(r, t).entries && e !in LogOf(s, t).entries ==>
           e in es && PushAllowed(Fold(t, LogOf(s, t).entries), t, p, e)
  {
    hide Inv, StoreInv, LogOf, AppendAll, PushAllowed, Fold;
    AppendAdds(s, t, es);
    var r := PushChecked(s, t, p, es, total).logs;
    forall e | e in LogOf(r, t).entries && e !in LogOf(s, t).entries
      ensures e in es && PushAllowed(Fold(t, LogOf(s, t).entries), t, p, e)
    {
      assert e in Elems(LogOf(r, t).entries);
    }
  }

  /** Appending to a thread that holds nothing can only start with a first entry. */
  lemma FoundingEntry(s: Logs, t: string, g: Entry)
    requires StoreInv(s) && LogOf(s, t).entries == [] && g.thread == t
    ensures var r := AppendAll(s, [g]);
      && StoreInv(r.logs)
      && (r.error == None ==> LogOf(r.logs, t).entries == [g] && g.seqNo == 1)
      && (r.error != None ==> LogOf(r.logs, t).entries == [])
  {
    hide Inv, StoreInv, LogOf, Append;
    LogOfInv(s, t);
    var l := LogOf(s, t);
    AppendOneThread(s, t, [g]);
    AppendAllKeepsInv(s, [g]);
    AppendToEmpty(l, g);
    var d := Deliver(l, [g]);
    assert [g][1..] == [];
    assert d == if Append(l, g).Admitted? then Delivery(Append(l, g).log, None)
                else Delivery(l, Some(Append(l, g).error));
  }

  lemma AppendToEmpty(l: Log, g: Entry)
    requires Inv(l) && l.entries == []
    ensures Append(l, g).Admitted? ==> Append(l, g).log.entries == [g] && g.seqNo == 1
  {
    hide ChainSet;
    HeadsHeld(l);
    assert Elems(l.entries) == {};
  }

  lemma PushStep(s: Logs, t: string, p: string, batch: seq<Entry>, now: int, e: Entry)
    requires StoreInv(s) && (forall x :: x in batch ==> x.thread == t)
    requires var r := PushSpec(s, t, p, batch, now).logs; e in LogOf(r, t).entries && e !in LogOf(s, t).entries
    ensures var c := PushCall(p, batch, now); Founding(s, t, c, e) || PushedIn(s, t, c, e)
  {
    hide Inv, StoreInv, AppendAll, PushAllowed, Fold, Ordered, PushChecked, VisibleLanes, LogOf;
    var o := Ordered(batch, t);
    OrderedFacts(batch, t);
    forall x | x in o ensures x in batch { assert x in Elems(o) && x in Elems(batch); }
    if LogOf(s, t).entries == [] {
      if o != [] && o[0].id == t && o[0].author == p {
        assert o[..1] == [o[0]];
        FoundingEntry(s, t, o[0]);
        CheckedAdds(AppendAll(s, o[..1]).logs, t, p, o[1..], |o|);
        ElemsEmpty(batch);
        ElemsEmpty(o);
      }
    } else {
      CheckedAdds(s, t, p, o, |o|);
    }
  }

  /** Everything one call adds to the thread is justified by the state it was made in. */
  lemma CallJustified(s: Logs, t: string, c: Call, e: Entry)
    requires StoreInv(s) && NamesThread(t, c)
    requires e in LogOf(Do(s, t, c), t).entries && e !in LogOf(s, t).entries
    ensures Justified(s, t, c, e)
  {
    hide Inv, StoreInv, AppendAll, Fold, PushSpec, LogOf, Lanes;
    match c
    case PushCall(p, batch, now) => PushStep(s, t, p, batch, now, e);
    case RequestCall(p, x, now) =>
      AppendAdds(s, t, [x]);
      assert e in Elems(LogOf(Do(s, t, c), t).entries);
  }

  lemma CallKeepsInv(s: Logs, t: string, c: Call)
    requires StoreInv(s)
    ensures StoreInv(Do(s, t, c))
  {
    hide Inv, StoreInv, Fold, Ordered, VisibleLanes, LogOf, AppendAll, RequestAllowed, PushAllowed;
    match c
    case PushCall(p, batch, now) =>
      var o := Ordered(batch, t);
      AppendAllKeepsInv(s, o);
      if o != [] {
        AppendAllKeepsInv(s, o[..1]);
        AppendAllKeepsInv(AppendAll(s, o[..1]).logs, o[1..]);
      }
    case RequestCall(p, e, now) =>
      AppendAllKeepsInv(s, [e]);
  }

  lemma {:induction false} RunKeepsInv(t: string, calls: seq<Call>)
    ensures StoreInv(After(t, calls))
    decreases |calls|
  {
    hide StoreInv, Do;
    if calls == [] {
      assert StoreInv(map[]) by { EmptyStoreInv(); }
    } else {
      RunKeepsInv(t, calls[..|calls| - 1]);
      CallKeepsInv(After(t, calls[..|calls| - 1]), t, calls[|calls| - 1]);
    }
  }

  lemma EmptyStoreInv()
    ensures StoreInv(map[])
  {
  }

  /** Entry `e` entered the thread at call `i`: absent before it, stored after it, sent with
      it, for a reason that held at that moment. */
  ghost predicate EnteredAt(t: string, calls: seq<Call>, e: Entry, i: nat)
    requires i < |calls|
  {
    && e !in LogOf(After(t, calls[..i]), t).entries
    && e in LogOf(After(t, calls[..i + 1]), t).entries
    && Justified(After(t, calls[..i]), t, calls[i], e)
  }

  /** Authority over whole runs: in every run of Push and SubmitAccessRequest calls whose
      entries name the thread, every stored entry entered at some call that justified it. */
  lemma {:induction false} EverythingJustified(t: string, calls: seq<Call>, e: Entry)
    requires forall i :: 0 <= i < |calls| ==> NamesThread(t, calls[i])
    requires e in LogOf(After(t, calls), t).entries
    ensures exists i: nat :: i < |calls| && EnteredAt(t, calls, e, i)
    decreases |calls|
  {
    hide Do, Justified, LogOf, StoreInv;
    if calls == [] {
      NothingAtFirst(t, e);
    } else {
      var n := |calls| - 1;
      var front := calls[..n];
      RunKeepsInv(t, front);
      if e in LogOf(After(t, front), t).entries {
        EverythingJustified(t, front, e);
        var i: nat :| i < n && EnteredAt(t, front, e, i);
        assert front[..i] == calls[..i] && front[..i + 1] == calls[..i + 1];
        assert EnteredAt(t, calls, e, i);
      } else {
        CallJustified(After(t, front), t, calls[n], e);
        assert calls[..n + 1] == calls;
        assert EnteredAt(t, calls, e, n);
      }
    }
  }

  lemma NothingAtFirst(t: string, e: Entry)
    ensures e !in LogOf(map[], t).entries
  {
  }

  /** What a justification means, lane by lane: apart from the founding genesis, a control
      entry is an access request or by a steward of the fold at admission, and any other
      entry was inside its author's contribute window. */
  lemma JustificationByLane(s: Logs, t: string, c: Call, e: Entry)
    requires Justified(s, t, c, e) && !Founding(s, t, c, e)
    ensures if e.lane == LaneControl
      then e.kind == KindAccessRequest || (c.PushCall? && e.author in AdmissionPerms(s, t, c).stewards)
      else c.PushCall? && MayContribute(AdmissionPerms(s, t, c), e.author, e.lamport)
  {
    hide Fold, AdmissionPerms, MayContribute;
  }

  /** No push changes a chain whose author does not act for the caller. */
  lemma PushLeavesOthersAlone(s: Logs, t: string, c: Call, k: ChainKey)
    requires StoreInv(s) && NamesThread(t, c) && c.PushCall?
    requires !ActsFor(AdmissionPerms(s, t, c), k.author, c.principal)
    ensures Chain(LogOf(Do(s, t, c), t), k) == Chain(LogOf(s, t), k)
  {
    hide Inv, StoreInv, AppendAll, Fold, PushSpec, LogOf, AdmissionPerms;
    var l, m := LogOf(s, t), LogOf(Do(s, t, c), t);
    PushGrows(s, t, c);
    forall e ensures e in Chain(m, k) <==> e in Chain(l, k) {
      if e in m.entries && KeyOf(e) == k && e !in l.entries {
        PushStep(s, t, c.principal, c.batch, c.now, e);
      }
    }
  }

  lemma PushGrows(s: Logs, t: string, c: Call)
    requires StoreInv(s) && NamesThread(t, c) && c.PushCall?
    ensures forall e :: e in LogOf(s, t).entries ==> e in LogOf(Do(s, t, c), t).entries
  {
    hide Inv, StoreInv, AppendAll, Fold, Ordered, VisibleLanes, LogOf, PushAllowed, PushChecked;
    var o := Ordered(c.batch, t);
    OrderedFacts(c.batch, t);
    forall x | x in o ensures x.thread == t { assert x in Elems(o) && x in Elems(c.batch); }
    if LogOf(s, t).entries != [] {
      CheckedAdds(s, t, c.principal, o, |o|);
      assert forall e :: e in LogOf(s, t).entries ==> e in Elems(LogOf(s, t).entries);
    }
  }
}
