/** A steward's decision travels: sync, decide, sync, and the server acts on it. */
module Decisions {
  import opened Entries
  import opened ThreadLogs
  import opened Authors
  import opened Perm
  import opened PermWindows
  import opened Stores
  import opened Sync
  import opened SyncLaws
  import opened Rounds

  /** The steward has all of the server's control entries, and those the server lacks are by
      the steward or its agent keys, as stewards after the decision. */
  ghost predicate UpToDate(me: Identity, l: Log, s: Log, after: Perms) {
    && (forall e: Entry :: e in s.entries && e.lane == LaneControl ==> e in l.entries)
    && (forall e: Entry :: e in l.entries && e.lane == LaneControl && e !in s.entries ==>
          (e.author == me.self || e.author in me.selfKeys) && e.author in after.stewards)
  }

  /** What the steward wrote, with the store it is written to. */
  ghost predicate Decided(me: Identity, c: Logs, t: string, d: Draft, id: string, ts: Option<int>) {
    && StoreInv(c) && StewardOf(LogOf(c, t), me.self) && d.lane == LaneControl
    && AuthorAppend(LogOf(c, t), me.self, d, id, ts).Written?
  }

  function Decide(me: Identity, c: Logs, t: string, d: Draft, id: string, ts: Option<int>): Writing {
    AuthorAppend(LogOf(c, t), me.self, d, id, ts)
  }

  /** A decision that leaves its author a steward reaches the server with the next error-free
      round served all lanes, and the server's permissions are then those of the log it was
      written into. */
  lemma DecisionReachesServer(
    me: Identity, c: Logs, s: Logs, t: string, d: Draft, id: string, ts: Option<int>, nowPull: int, nowPush: int)
    requires StoreInv(s) && Decided(me, c, t, d, id, ts) && me.self != ""
    requires var w := Decide(me, c, t, d, id, ts); var after := Fold(t, w.log.entries);
      && me.self in after.stewards && UpToDate(me, LogOf(c, t), LogOf(s, t), after)
      && VisibleLanes(s, t, me.principal, nowPull) == ALL_LANES
      && SyncSpec(me, c[t := w.log], s, t, nowPull, nowPush).exchanged.Some?
    ensures var w := Decide(me, c, t, d, id, ts);
      var r := SyncSpec(me, c[t := w.log], s, t, nowPull, nowPush);
      && w.entry in LogOf(r.server, t).entries
      && Fold(t, LogOf(r.server, t).entries) == Fold(t, w.log.entries)
  {
    hide Inv, Fold, StoreInv, LogOf, VisibleLanes, SyncSpec, AuthorAppend, PermittedHeads, HeadSeqs, MissingFrom, Offer,
         OwnChain;
    var l, w := LogOf(c, t), Decide(me, c, t, d, id, ts);
    var c1 := c[t := w.log];
    LogOfInv(c, t);
    LogOfInv(s, t);
    AuthorAppendsLast(l, me.self, d, id, ts);
    WrittenStore(c, t, w.log);
    ErrorFreeRound(me, c1, s, t, nowPull, nowPush);
    var r := SyncSpec(me, c1, s, t, nowPull, nowPush);
    var sl, mine, theirs := LogOf(s, t), LogOf(r.client, t), LogOf(r.server, t);
    PulledNoControl(w.log, sl, mine);
    var after := Fold(t, w.log.entries);
    OfferMembers(me, mine, PermittedHeads(sl, ALL_LANES));
    forall e: Entry | e.lane == LaneControl ensures e in theirs.entries <==> e in w.log.entries {
      assert e in theirs.entries <==> e in Elems(theirs.entries);
      if e in w.log.entries && e !in sl.entries {
        BeyondServer(w.log, sl, e);
        OwnChainIs(me, after.stewards, KeyOf(e));
        assert e in Elems(w.log.entries) && e in Elems(mine.entries);
        assert e in Offer(me, mine, PermittedHeads(sl, ALL_LANES));
      }
    }
    SameControlSameFold(theirs, w.log);
  }

  lemma WrittenStore(c: Logs, t: string, l: Log)
    requires StoreInv(c) && Inv(l) && l.thread == t
    ensures StoreInv(c[t := l]) && LogOf(c[t := l], t) == l
  {
    hide Inv;
  }

  /** A caller that holds all of the server's control entries pulls none, and its fold stays. */
  lemma PulledNoControl(l: Log, s: Log, mine: Log)
    requires Inv(l) && Inv(s) && Inv(mine) && l.thread == mine.thread
    requires forall e: Entry :: e in s.entries && e.lane == LaneControl ==> e in l.entries
    requires Elems(mine.entries) == Elems(l.entries) + Elems(MissingFrom(s, ALL_LANES, HeadSeqs(l)))
    ensures forall e: Entry :: e.lane == LaneControl ==> (e in mine.entries <==> e in l.entries)
    ensures Fold(mine.thread, mine.entries) == Fold(l.thread, l.entries)
  {
    hide Inv, Fold, HeadSeqs, MissingFrom;
    BatchMembers(s, ALL_LANES, HeadSeqs(l));
    forall e: Entry | e.lane == LaneControl ensures e in mine.entries <==> e in l.entries {
      assert e in mine.entries <==> e in Elems(mine.entries);
      assert e in l.entries <==> e in Elems(l.entries);
    }
    SameControlSameFold(mine, l);
  }

  /** A control entry that the server lacks lies beyond the server's head. */
  lemma BeyondServer(l: Log, s: Log, e: Entry)
    requires Inv(l) && Inv(s) && e in l.entries && e.lane == LaneControl && e !in s.entries
    requires forall x: Entry :: x in s.entries && x.lane == LaneControl ==> x in l.entries
    ensures e.seqNo > SeqAt(PermittedHeads(s, ALL_LANES), KeyOf(e))
  {
    hide Inv;
    Held(l, e);
    var k := KeyOf(e);
    if k in s.heads && e.seqNo <= s.heads[k].seqNo {
      PositionHeld(s, k, e.seqNo);
      var f :| f in s.entries && KeyOf(f) == k && f.seqNo == e.seqNo;
      HeldOnce(l, e, f);
    }
  }

  lemma DecisionKeepsStewards(me: Identity, c: Logs, t: string, d: Draft, id: string, ts: Option<int>)
    requires Decided(me, c, t, d, id, ts) && (d.kind == KindGrant || d.kind == KindDeny || d.kind == KindRevoke)
    ensures Fold(t, Decide(me, c, t, d, id, ts).log.entries).stewards == Fold(t, LogOf(c, t).entries).stewards
  {
    hide Inv, Fold, StoreInv, LogOf, AuthorAppend, ApplyGrant, ApplyDeny;
    LogOfInv(c, t);
    FreshFold(LogOf(c, t), me.self, d, id, ts);
  }

  /** A steward syncs, writes a grant, and syncs: on the server `p` then holds exactly the valid
      scopes it names, its time limit, and no pending request. */
  lemma GrantReachesServer(
    me: Identity, c: Logs, s: Logs, t: string, d: Draft, id: string, ts: Option<int>, p: string,
    nowPull: int, nowPush: int)
    requires StoreInv(s) && Decided(me, c, t, d, id, ts) && me.self != ""
    requires DecisionDraft(d, KindGrant, p) && exists x :: x in d.body.value.scopes && ValidScope(x)
    requires var w := Decide(me, c, t, d, id, ts);
      && UpToDate(me, LogOf(c, t), LogOf(s, t), Fold(t, LogOf(c, t).entries))
      && VisibleLanes(s, t, me.principal, nowPull) == ALL_LANES
      && SyncSpec(me, c[t := w.log], s, t, nowPull, nowPush).exchanged.Some?
    ensures var w := Decide(me, c, t, d, id, ts);
      var r := SyncSpec(me, c[t := w.log], s, t, nowPull, nowPush);
      var st := Fold(t, LogOf(r.server, t).entries);
      && w.entry in LogOf(r.server, t).entries
      && p in st.grants && st.grants[p] == (set x | x in d.body.value.scopes && ValidScope(x))
      && p !in st.requests
      && (d.body.value.ttlSeconds <= 0 ==> p !in st.expiry)
      && (d.body.value.ttlSeconds > 0 && ts.Some? ==>
            p in st.expiry && st.expiry[p] == ts.value + d.body.value.ttlSeconds)
  {
    hide Inv, Fold, StoreInv, LogOf, VisibleLanes, SyncSpec, AuthorAppend;
    LogOfInv(c, t);
    DecisionKeepsStewards(me, c, t, d, id, ts);
    DecisionReachesServer(me, c, s, t, d, id, ts, nowPull, nowPush);
    FreshGrantTakesEffect(LogOf(c, t), me.self, d, id, ts, p);
  }

  /** The same for a deny or revoke: on the server `p` then holds nothing, and the denial is the
      latest. */
  lemma DenyReachesServer(
    me: Identity, c: Logs, s: Logs, t: string, d: Draft, id: string, ts: Option<int>, p: string,
    nowPull: int, nowPush: int)
    requires StoreInv(s) && Decided(me, c, t, d, id, ts) && me.self != ""
    requires DecisionDraft(d, KindDeny, p) || DecisionDraft(d, KindRevoke, p)
    requires var w := Decide(me, c, t, d, id, ts);
      && UpToDate(me, LogOf(c, t), LogOf(s, t), Fold(t, LogOf(c, t).entries))
      && VisibleLanes(s, t, me.principal, nowPull) == ALL_LANES
      && SyncSpec(me, c[t := w.log], s, t, nowPull, nowPush).exchanged.Some?
    ensures var w := Decide(me, c, t, d, id, ts);
      var r := SyncSpec(me, c[t := w.log], s, t, nowPull, nowPush);
      var st := Fold(t, LogOf(r.server, t).entries);
      && w.entry in LogOf(r.server, t).entries
      && p !in st.grants && p !in st.expiry && p !in st.requests
      && p in st.deniedAt && st.deniedAt[p] == w.entry.lamport
  {
    hide Inv, Fold, StoreInv, LogOf, VisibleLanes, SyncSpec, AuthorAppend;
    LogOfInv(c, t);
    DecisionKeepsStewards(me, c, t, d, id, ts);
    DecisionReachesServer(me, c, s, t, d, id, ts, nowPull, nowPush);
    FreshDenyTakesEffect(LogOf(c, t), me.self, d, id, ts, p);
  }
}
