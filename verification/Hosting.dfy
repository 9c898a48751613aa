/** Hosting a thread on a peer that does not hold it yet. */
module Hosting {
  import opened Entries
  import opened Sequences
  import opened ThreadLogs
  import opened Authors
  import opened Convergence
  import opened Perm
  import opened Stores
  import opened Sync
  import opened SyncLaws
  import opened ServerRuns

  /** The thread's founder: `g` is its root, and alone makes its author a steward in person. */
  ghost predicate FoundedBy(l: Log, g: Entry, p: string) {
    && g in l.entries && g.id == l.thread && g.seqNo == 1 && g.author == p
    && p in Fold(l.thread, [g]).stewards && Fold(l.thread, [g]).delegations == map[]
  }

  /** What `NewThreadWith` makes is founded by its creator. */
  lemma NewThreadIsFounded(pid: string, title: string, discoverable: bool, id: string, ts: Option<int>)
    requires IsPrincipal(pid)
    ensures FoundedBy(NewThreadWith(pid, title, discoverable, id, ts).log,
                      GenesisEntry(pid, title, discoverable, id, ts), pid)
  {
    hide Append, Inv;
    NewThreadHoldsGenesis(pid, title, discoverable, id, ts);
    var g := GenesisEntry(pid, title, discoverable, id, ts);
    assert [g][..0] == [] && Fold(id, []) == INITIAL;
    assert pid in NamedStewards(g);
  }

  /** A new thread folds to its creator as the one steward, under its title, and is hidden unless
      founded as discoverable. */
  lemma NewThreadFolds(pid: string, title: string, discoverable: bool, id: string, ts: Option<int>)
    requires IsPrincipal(pid)
    ensures var st := Fold(id, NewThreadWith(pid, title, discoverable, id, ts).log.entries);
      && st.stewards == {pid} && st.title == title && st.discoverable == discoverable
      && st.grants == map[] && st.delegations == map[] && st.requests == map[]
  {
    hide Append, Inv;
    NewThreadHoldsGenesis(pid, title, discoverable, id, ts);
    var g := GenesisEntry(pid, title, discoverable, id, ts);
    assert [g][..0] == [] && Fold(id, []) == INITIAL;
    assert NamedStewards(g) == {pid};
  }

  lemma ShareMembers(me: Identity, l: Log)
    ensures forall e :: e in ShareOffer(me, l, map[]) <==> e in l.entries && ActsAsSelf(me, e.author) && e.seqNo > 0
  {
    FilterMembers(l.entries, SelfPast(me, map[]));
  }

  /** All the chains of some authors are an admissible set by themselves. */
  lemma OwnChainsAdmissible(l: Log, s: set<Entry>, me: Identity)
    requires Inv(l) && s <= Elems(l.entries)
    requires forall e :: e in s <==> e in l.entries && ActsAsSelf(me, e.author)
    ensures ChainSet(s, l.thread)
  {
    hide Inv;
    forall e | e in s && e.seqNo > 1 && e.prev.HashOf? ensures e.prev.entry in s {
      Held(l, e);
    }
    assert ChainSet(Elems(l.entries), l.thread) by { InvChains(l); }
    LinkedSubset(s, Elems(l.entries), l.thread);
  }

  /** The genesis opens the ordered batch. */
  lemma GenesisFirst(l: Log, batch: seq<Entry>, g: Entry)
    requires Inv(l) && g in batch && g.id == l.thread && (forall e :: e in batch ==> e in l.entries)
    ensures var o := Ordered(batch, l.thread); o != [] && o[0] == g
  {
    hide Inv, Ordered;
    var o := Ordered(batch, l.thread);
    OrderedFacts(batch, l.thread);
    assert g in Elems(batch);
    var i :| 0 <= i < |o| && o[i] == g;
    assert o[0] in Elems(o) && o[0] in Elems(batch);
    if i > 0 {
      OrderedShape(batch, l.thread, 0, i);
    }
    HeldOnce(l, o[0], g);
  }

  /** Against the genesis alone, the founder's own entries pass and no other: it names no agent. */
  lemma FounderAllowed(l: Log, g: Entry, p: string, e: Entry)
    requires Inv(l) && FoundedBy(l, g, p) && e in l.entries
    ensures PushAllowed(Fold(l.thread, [g]), l.thread, p, e) <==> e.author == p
  {
    hide Inv, Fold;
    Held(l, e);
    Held(l, g);
  }

  /** Whether the caller's agent keys have written nothing into the log. */
  predicate NoAgentEntries(me: Identity, l: Log) {
    forall e :: e in l.entries && ActsAsSelf(me, e.author) ==> e.author == me.self
  }

  /** Hosting: sharing a founded thread with a peer that does not hold it is accepted exactly
      when no agent key of the founder has written into it, and the peer then holds exactly
      the founder's own chains.  Otherwise the push is refused after the genesis went in, for
      the rest is checked against the genesis alone, which delegates to nobody. */
  lemma SharedThreadIsHosted(me: Identity, c: Logs, s: Logs, t: string, nowPull: int, nowPush: int, g: Entry)
    requires StoreInv(c) && StoreInv(s) && LogOf(s, t).entries == []
    requires me.self == me.principal && FoundedBy(LogOf(c, t), g, me.self)
    ensures var r := ShareSpec(me, c, s, t, nowPull, nowPush);
      && r.client == c && StoreInv(r.server)
      && (r.exchanged.Some? <==> NoAgentEntries(me, LogOf(c, t)))
      && (r.exchanged.Some? ==>
            forall e :: e in LogOf(r.server, t).entries <==> e in LogOf(c, t).entries && e.author == me.self)
      && (r.exchanged == None ==> LogOf(r.server, t).entries == [g])
  {
    hide Inv, Fold, StoreInv, LogOf, Ordered, AppendAll, PushAllowed, ChainSet, PermittedHeads, ShareOffer, PushSpec;
    var l := LogOf(c, t);
    LogOfInv(c, t);
    LogOfInv(s, t);
    var offer := ShareOffer(me, l, map[]);
    ShareMembers(me, l);
    forall e | e in l.entries ensures e.seqNo > 0 { Held(l, e); }
    GenesisFirst(l, offer, g);
    OwnChainsAdmissible(l, Elems(offer), me);
    forall e | e in offer ensures PushAllowed(Fold(t, [g]), t, me.self, e) <==> e.author == me.self {
      FounderAllowed(l, g, me.self, e);
    }
    PushFounds(s, t, me.self, offer, nowPush, g, l);
    var r := LogOf(PushSpec(s, t, me.self, offer, nowPush).logs, t);
    assert forall e :: e in r.entries <==> e in Elems(r.entries);
  }

  /** A push that founds a thread: all of the batch goes in, or the genesis alone. */
  lemma PushFounds(s: Logs, t: string, p: string, batch: seq<Entry>, now: int, g: Entry, l: Log)
    requires StoreInv(s) && LogOf(s, t).entries == [] && Inv(l) && l.thread == t
    requires g in batch && g.id == t && g.author == p && g.seqNo == 1
    requires (forall e :: e in batch ==> e in l.entries) && PushAllowed(Fold(t, [g]), t, p, g)
    requires Ordered(batch, t) != [] && Ordered(batch, t)[0] == g && ChainSet(Elems(batch), t)
    ensures var r := PushSpec(s, t, p, batch, now);
      && StoreInv(r.logs)
      && if forall e :: e in batch ==> PushAllowed(Fold(t, [g]), t, p, e)
         then r.accepted == Some(|batch|) && Elems(LogOf(r.logs, t).entries) == Elems(batch)
         else r.accepted == None && LogOf(r.logs, t).entries == [g]
  {
    hide Inv, Fold, StoreInv, LogOf, Ordered, AppendAll, PushAllowed, ChainSet, Deliver;
    var o := Ordered(batch, t);
    LogOfInv(s, t);
    OrderedFacts(batch, t);
    forall e | e in o ensures e in batch && e.thread == t {
      assert e in Elems(o) && e in Elems(batch);
      Held(l, e);
    }
    WholeBatchDelivered(s, t, batch, l);
    assert o[..1] == [g] && o == [g] + o[1..];
    DeliverSplit(LogOf(s, t), g, o[1..]);
    AppendOneThread(s, t, [g]);
    FoundingEntry(s, t, g);
    var first := AppendAll(s, [g]).logs;
    AppendOneThread(first, t, o[1..]);
    AppendAllKeepsInv(first, o[1..]);
    forall e | e in batch && e != g ensures e in o[1..] {
      assert e in Elems(batch) && e in Elems(o);
    }
  }

  lemma WholeBatchDelivered(s: Logs, t: string, batch: seq<Entry>, l: Log)
    requires StoreInv(s) && LogOf(s, t).entries == [] && ChainSet(Elems(batch), t)
    requires Inv(l) && l.thread == t && (forall e :: e in batch ==> e in l.entries)
    requires exists g :: g in batch && g.id == t && g.seqNo == 1
    ensures var d := Deliver(LogOf(s, t), Ordered(batch, t));
      d.error == None && Elems(d.log.entries) == Elems(batch)
  {
    hide Inv, StoreInv, LogOf, Ordered, ChainSet, Deliver;
    LogOfInv(s, t);
    var g :| g in batch && g.id == t && g.seqNo == 1;
    forall e | e in Elems(batch) && e.id == t ensures e.seqNo == 1 {
      HeldOnce(l, e, g);
    }
    assert Elems([]) == {};
    assert Elems(LogOf(s, t).entries) + Elems(batch) == Elems(batch);
    OrderedBatchAccepted(LogOf(s, t), batch);
  }

  /** A delivery that succeeds succeeds in two parts. */
  lemma DeliverSplit(l: Log, g: Entry, rest: seq<Entry>)
    requires Deliver(l, [g] + rest).error == None
    ensures Deliver(l, [g]).error == None
    ensures Deliver(Deliver(l, [g]).log, rest) == Deliver(l, [g] + rest)
  {
    hide Append;
    assert ([g] + rest)[1..] == rest && [g][1..] == [];
  }
}
