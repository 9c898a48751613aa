/** When a push is accepted, threads keep their root, and who can ever be sent content. */
module Confinement {
  import opened Entries
  import opened Sequences
  import opened ThreadLogs
  import opened Authors
  import opened Convergence
  import opened Perm
  import opened PermLaws
  import opened PermWindows
  import opened Stores
  import opened Sync
  import opened SyncLaws
  import opened ServerRuns

  // ------------------------------------------------------------------ the root

  /** The log is empty or holds the entry that carries the thread's id, first in its chain. */
  ghost predicate HasRoot(l: Log) {
    l.entries == [] || exists g :: g in l.entries && g.id == l.thread && g.seqNo == 1
  }

  lemma RootIsUnique(l: Log, s: set<Entry>)
    requires Inv(l) && HasRoot(l) && l.entries != [] && s <= Elems(l.entries)
    ensures Rooted(s, l.thread)
  {
    hide Inv;
    var g :| g in l.entries && g.id == l.thread && g.seqNo == 1;
    forall e | e in s && e.id == l.thread ensures e.seqNo == 1 {
      assert e in Elems(l.entries) && SameId(e, g);
      HeldOnce(l, e, g);
    }
  }

  lemma RootStays(l: Log, m: Log)
    requires HasRoot(l) && l.entries != [] && l.thread == m.thread && Elems(l.entries) <= Elems(m.entries)
    ensures HasRoot(m)
  {
    var g :| g in l.entries && g.id == l.thread && g.seqNo == 1;
    assert g in Elems(m.entries);
  }

  lemma CallKeepsRoot(s: Logs, t: string, c: Call)
    requires StoreInv(s) && NamesThread(t, c) && HasRoot(LogOf(s, t))
    ensures HasRoot(LogOf(Do(s, t, c), t))
  {
    hide Inv, StoreInv, AppendAll, Fold, PushSpec, LogOf, PushAllowed, PushChecked, Lanes;
    LogOfInv(s, t);
    CallKeepsInv(s, t, c);
    LogOfInv(Do(s, t, c), t);
    var l, m := LogOf(s, t), LogOf(Do(s, t, c), t);
    match c
    case RequestCall(p, e, now) =>
      AppendAdds(s, t, [e]);
      if l.entries != [] { RootStays(l, m); }
    case PushCall(p, batch, now) =>
      if l.entries != [] {
        PushGrows(s, t, c);
        assert Elems(l.entries) <= Elems(m.entries);
        RootStays(l, m);
      } else {
        FoundingPush(s, t, c);
      }
  }

  lemma FoundingPush(s: Logs, t: string, c: Call)
    requires StoreInv(s) && NamesThread(t, c) && c.PushCall? && LogOf(s, t).entries == []
    ensures HasRoot(LogOf(Do(s, t, c), t))
  {
    hide Inv, StoreInv, AppendAll, Fold, LogOf, PushAllowed, PushChecked, Ordered;
    LogOfInv(s, t);
    CallKeepsInv(s, t, c);
    LogOfInv(Do(s, t, c), t);
    var o := Ordered(c.batch, t);
    OrderedFacts(c.batch, t);
    forall x | x in o ensures x.thread == t { assert x in Elems(o) && x in Elems(c.batch); }
    if o != [] && o[0].id == t && o[0].author == c.principal {
      assert o[..1] == [o[0]];
      FoundingEntry(s, t, o[0]);
      var first := AppendAll(s, o[..1]).logs;
      CheckedAdds(first, t, c.principal, o[1..], |o|);
      LogOfInv(first, t);
      if LogOf(first, t).entries != [] {
        assert o[0] in LogOf(first, t).entries;
        RootStays(LogOf(first, t), LogOf(Do(s, t, c), t));
      }
    }
  }

  /** Every thread a server ever holds keeps its root. */
  lemma {:induction false} RunsAreRooted(t: string, calls: seq<Call>)
    requires forall i :: 0 <= i < |calls| ==> NamesThread(t, calls[i])
    ensures HasRoot(LogOf(After(t, calls), t))
    decreases |calls|
  {
    hide Do, HasRoot, LogOf, NamesThread, StoreInv;
    if calls == [] {
      EmptyHasRoot(t);
    } else {
      var front := calls[..|calls| - 1];
      RunsAreRooted(t, front);
      RunKeepsInv(t, front);
      CallKeepsRoot(After(t, front), t, calls[|calls| - 1]);
    }
  }

  lemma EmptyHasRoot(t: string)
    ensures HasRoot(LogOf(map[], t))
  {
  }

  // ------------------------------------------------------------------ when a push is accepted

  /** A push to a known, visible thread is accepted exactly when every entry passes its
      check and the thread's entries with the batch are an admissible set; the order in
      which the batch was sent does not matter. */
  lemma PushAcceptedExactly(s: Logs, t: string, p: string, batch: seq<Entry>, now: int)
    requires StoreInv(s) && HasRoot(LogOf(s, t)) && VisibleLanes(s, t, p, now) != []
    ensures var r := PushSpec(s, t, p, batch, now); var l := LogOf(s, t);
      && (r.accepted.Some? <==>
            && (forall e :: e in batch ==> PushAllowed(Fold(t, l.entries), t, p, e))
            && ChainSet(Elems(l.entries) + Elems(batch), t))
      && (r.accepted.Some? ==>
            r.accepted.value == |batch| && Elems(LogOf(r.logs, t).entries) == Elems(l.entries) + Elems(batch))
  {
    hide Inv, StoreInv, AppendAll, Fold, LogOf, Lanes, Ordered, Deliver, ChainSet, HasRoot, Rooted, Ascending;
    var l, o, st := LogOf(s, t), Ordered(batch, t), Fold(t, LogOf(s, t).entries);
    LogOfInv(s, t);
    OrderedFacts(batch, t);
    forall e ensures e in o <==> e in batch { assert e in Elems(o) <==> e in Elems(batch); }
    if forall e :: e in batch ==> PushAllowed(st, t, p, e) {
      AppendOneThread(s, t, o);
      DeliverExact(l, o);
      if ChainSet(Elems(l.entries) + Elems(batch), t) {
        BatchRooted(l, batch);
        OrderedBatchAccepted(l, batch);
      }
      if Deliver(l, o).error == None {
        AcceptedAscends(l, o);
      }
    }
  }

  lemma BatchRooted(l: Log, batch: seq<Entry>)
    requires ChainSet(Elems(l.entries) + Elems(batch), l.thread) && HasRoot(l) && l.entries != []
    ensures Rooted(Elems(batch), l.thread)
  {
    hide AllLinked, AllValid, OnePerSlot;
    var g :| g in l.entries && g.id == l.thread && g.seqNo == 1;
    forall e | e in Elems(batch) && e.id == l.thread ensures e.seqNo == 1 {
      assert g in Elems(l.entries) && SameId(e, g);
    }
  }

  // ------------------------------------------------------------------ requests are harmless

  /** Submitting an access request changes nobody's lanes, windows or agents. */
  lemma RequestChangesNoAccess(s: Logs, principal: string, e: Entry, now: int)
    requires StoreInv(s) && RequestAllowed(s, principal, e, now)
    ensures Core(Fold(e.thread, LogOf(AppendAll(s, [e]).logs, e.thread).entries))
         == Core(Fold(e.thread, LogOf(s, e.thread).entries))
  {
    hide Inv, StoreInv, AppendAll, Fold, LogOf, Append, Core, ActsFor, Lanes;
    var l := LogOf(s, e.thread);
    LogOfInv(s, e.thread);
    AppendOneThread(s, e.thread, [e]);
    OneDelivery(l, e);
    if Append(l, e).Admitted? {
      AdmittedRequestIsInert(l, e, e.thread);
    }
  }

  lemma OneDelivery(l: Log, e: Entry)
    ensures Deliver(l, [e]).log == if Append(l, e).Admitted? then Append(l, e).log else l
  {
    hide Append;
    assert [e][1..] == [];
  }

  // ------------------------------------------------------------------ lane confinement

  /** No control entry makes `p` a steward or an agent, or grants `p` read. */
  predicate NeverReader(e: Entry, p: string) {
    match e.kind
    case KindThread => e.author != p && (e.body.ThreadBody? ==> p !in e.body.stewards)
    case KindMembership => e.body.MembershipBody? && e.body.member == p ==> e.body.role != "steward"
    case KindDelegation => e.body.DelegationBody? && e.body.agent == p ==> e.body.revoked
    case KindGrant => e.body.GrantBody? && e.body.principal == p ==> READ !in e.body.scopes
    case _ => true
  }

  ghost predicate NeverReaderIn(es: seq<Entry>, p: string) {
    forall e :: e in es && e.lane == LaneControl ==> NeverReader(e, p)
  }

  predicate NoReader(st: Perms, p: string) {
    p !in st.stewards && p !in st.delegations && (p in st.grants ==> READ !in st.grants[p])
  }

  lemma NotNamedSteward(st: Perms, e: Entry, p: string)
    requires p !in st.stewards && e.author != p && (e.body.ThreadBody? ==> p !in e.body.stewards)
    ensures p !in ApplyThread(st, e).stewards
  {
  }

  lemma NotAppointed(st: Perms, e: Entry, p: string)
    requires p !in st.stewards
    requires e.body.MembershipBody? && e.body.member == p ==> e.body.role != "steward"
    ensures p !in ApplyMembership(st, e).stewards
  {
    hide Authorised;
  }

  lemma NotMadeSteward(st: Perms, e: Entry, p: string)
    requires p !in st.stewards && NeverReader(e, p)
    ensures p !in Apply(st, e).stewards
  {
    hide ApplyThread, ApplyMembership, ApplyDelegation, ApplyRequest, ApplyGrant, ApplyDeny;
    if e.kind == KindThread {
      NotNamedSteward(st, e, p);
    } else if e.kind == KindMembership {
      NotAppointed(st, e, p);
    }
  }

  lemma NotMadeAgent(st: Perms, e: Entry, p: string)
    requires p !in st.delegations && NeverReader(e, p)
    ensures p !in Apply(st, e).delegations
  {
    hide ApplyThread, ApplyMembership, ApplyRequest, ApplyGrant, ApplyDeny;
  }

  lemma ApplyNoReader(st: Perms, e: Entry, p: string)
    requires NoReader(st, p) && NeverReader(e, p)
    ensures NoReader(Apply(st, e), p)
  {
    hide Apply, Authorised, RemovalTakesEffect, Denies;
    NotMadeSteward(st, e, p);
    NotMadeAgent(st, e, p);
    ApplyGrants(st, e, p);
  }

  lemma {:induction false} FoldNoReader(t: string, es: seq<Entry>, p: string)
    requires NeverReaderIn(es, p)
    ensures NoReader(Fold(t, es), p)
    decreases |es|
  {
    hide Apply, NeverReader;
    if es != [] {
      var n := |es| - 1;
      FoldNoReader(t, es[..n], p);
      if Relevant(t, es[n]) {
        ApplyNoReader(Fold(t, es[..n]), es[n], p);
      }
    }
  }

  /** One day in the life of a replica of `p`: `p` writes into it, or pulls into it from a
      server in any state, at any time. */
  datatype Happening =
    | Wrote(draft: Draft, id: string, ts: Option<int>)
    | Pulled(server: Logs, now: int)

  function Live(t: string, p: string, c: Logs, h: Happening): Logs {
    match h
    case Wrote(d, id, ts) =>
      (match AuthorAppend(LogOf(c, t), p, d, id, ts)
       case Written(r, _) => c[t := r]
       case _ => c)
    case Pulled(s, now) =>
      Ingest(c, t, MissingFrom(LogOf(s, t), VisibleLanes(s, t, p, now), HeadSeqs(LogOf(c, t)))).logs
  }

  function Life(t: string, p: string, hs: seq<Happening>): Logs {
    if hs == [] then map[] else Live(t, p, Life(t, p, hs[..|hs| - 1]), hs[|hs| - 1])
  }

  /** Every server pulled from is a valid store in which `p`, at that moment, is neither
      steward nor agent and holds no grant of read; whether it was named by an entry that
      took no effect does not matter. */
  ghost predicate HonestFor(t: string, p: string, h: Happening) {
    h.Pulled? ==> StoreInv(h.server) && NoReader(Fold(t, LogOf(h.server, t).entries), p)
  }

  ghost predicate OnlyOwnContent(l: Log, p: string) {
    forall e :: e in l.entries && e.lane == LaneContent ==> e.author == p
  }

  /** Every entry and head of an answer is in a lane the caller's scopes allow then. */
  lemma PullStaysInLanes(s: Logs, t: string, p: string, now: int, have: Vector)
    ensures var lanes := VisibleLanes(s, t, p, now);
      && (forall e :: e in MissingFrom(LogOf(s, t), lanes, have) ==> e.lane in lanes && e in LogOf(s, t).entries)
      && (forall k: ChainKey :: k in PermittedHeads(LogOf(s, t), lanes) ==> k.lane in lanes)
      && (LaneContent in lanes ==> READ in EffectiveScopes(Fold(t, LogOf(s, t).entries), p, now))
  {
    hide Fold, LogOf;
    BatchMembers(LogOf(s, t), VisibleLanes(s, t, p, now), have);
  }

  lemma NoReaderNoContent(s: Logs, t: string, p: string, now: int)
    requires NoReader(Fold(t, LogOf(s, t).entries), p)
    ensures LaneContent !in VisibleLanes(s, t, p, now)
  {
    hide Fold, LogOf;
  }

  lemma IngestAdds(c: Logs, t: string, batch: seq<Entry>, e: Entry)
    requires StoreInv(c) && (forall x :: x in batch ==> x.thread == t)
    requires e in LogOf(Ingest(c, t, batch).logs, t).entries
    ensures e in LogOf(c, t).entries || e in batch
  {
    hide Inv, StoreInv, LogOf, AppendAll, Ordered, Filter, Fold, MayContribute;
    var o := Ordered(batch, t);
    var control, rest := Filter(o, OnControl()), Filter(o, OffControl());
    FilterMembers(o, OnControl());
    FilterMembers(o, OffControl());
    OrderedFacts(batch, t);
    forall x | x in o ensures x in batch { assert x in Elems(o) && x in Elems(batch); }
    AppendAdds(c, t, control);
    var first := AppendAll(c, control).logs;
    AppendAdds(first, t, rest);
    assert e in Elems(LogOf(Ingest(c, t, batch).logs, t).entries);
  }

  lemma LiveKeeps(t: string, p: string, c: Logs, h: Happening)
    requires StoreInv(c) && OnlyOwnContent(LogOf(c, t), p) && HonestFor(t, p, h)
    ensures StoreInv(Live(t, p, c, h)) && OnlyOwnContent(LogOf(Live(t, p, c, h), t), p)
  {
    hide Inv, Ingest, AuthorAppend, MissingFrom, Fold, Lanes, NoReader;
    LogOfInv(c, t);
    match h
    case Wrote(d, id, ts) =>
      if AuthorAppend(LogOf(c, t), p, d, id, ts).Written? {
        AuthorAppendsLast(LogOf(c, t), p, d, id, ts);
      }
    case Pulled(s, now) =>
      var lanes := VisibleLanes(s, t, p, now);
      var batch := MissingFrom(LogOf(s, t), lanes, HeadSeqs(LogOf(c, t)));
      BatchMembers(LogOf(s, t), lanes, HeadSeqs(LogOf(c, t)));
      NoReaderNoContent(s, t, p, now);
      LogOfInv(s, t);
      forall x | x in batch ensures x.thread == t { Held(LogOf(s, t), x); }
      IngestKeepsInv(c, t, batch);
      var r := LogOf(Ingest(c, t, batch).logs, t);
      forall e | e in r.entries && e.lane == LaneContent ensures e.author == p {
        IngestAdds(c, t, batch, e);
      }
  }

  /** Lane confinement over whole lives: a replica that only its owner writes and that pulls
      only while the owner is neither steward nor agent and holds no grant of read holds no
      content entry except the owner's own. */
  lemma {:induction false} ContentStaysOut(t: string, p: string, hs: seq<Happening>)
    requires forall i :: 0 <= i < |hs| ==> HonestFor(t, p, hs[i])
    ensures StoreInv(Life(t, p, hs)) && OnlyOwnContent(LogOf(Life(t, p, hs), t), p)
    decreases |hs|
  {
    hide StoreInv, OnlyOwnContent, HonestFor, Live, LogOf;
    if hs == [] {
      NothingHeld(t, p);
    } else {
      ContentStaysOut(t, p, hs[..|hs| - 1]);
      LiveKeeps(t, p, Life(t, p, hs[..|hs| - 1]), hs[|hs| - 1]);
    }
  }

  /** In particular when no control entry on those servers ever names the owner so. */
  lemma NeverNamedStaysOut(t: string, p: string, hs: seq<Happening>)
    requires forall i :: 0 <= i < |hs| && hs[i].Pulled? ==>
      StoreInv(hs[i].server) && NeverReaderIn(LogOf(hs[i].server, t).entries, p)
    ensures OnlyOwnContent(LogOf(Life(t, p, hs), t), p)
  {
    hide StoreInv, OnlyOwnContent, Life, LogOf, NeverReaderIn, NoReader;
    forall i | 0 <= i < |hs| ensures HonestFor(t, p, hs[i]) {
      if hs[i].Pulled? {
        FoldNoReader(t, LogOf(hs[i].server, t).entries, p);
      }
    }
    ContentStaysOut(t, p, hs);
  }

  lemma NothingHeld(t: string, p: string)
    ensures StoreInv(map[]) && OnlyOwnContent(LogOf(map[], t), p)
  {
  }
}
