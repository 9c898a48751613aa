/** Rounds in both directions: when a `SyncThread` succeeds and both sides then agree, and how
    several writers converge through one server. */
module TwoWay {
  import opened Entries
  import opened Sequences
  import opened ThreadLogs
  import opened Perm
  import opened Stores
  import opened Sync
  import opened SyncLaws
  import opened Rounds
  import opened ServerRuns
  import opened Confinement

  lemma ControlIsServed(s: Logs, t: string, p: string, now: int)
    requires VisibleLanes(s, t, p, now) != []
    ensures LaneControl in VisibleLanes(s, t, p, now) && LogOf(s, t).entries != []
  {
    hide Fold, LogOf;
  }

  /** A `SyncThread` whose pull is honest can only fail in its push half, and in either case
      leaves the caller agreeing with the log it pulled from: every permitted lane entry for
      entry in the same order, the same heads, the same permissions. */
  lemma PullHalfAgrees(me: Identity, c: Logs, s: Logs, t: string, nowPull: int, nowPush: int)
    requires StoreInv(c) && StoreInv(s) && VisibleLanes(s, t, me.principal, nowPull) != []
    requires AllMayContribute(LogOf(s, t)) && HasRoot(LogOf(s, t))
    requires PrefixOn(LogOf(c, t), LogOf(s, t), VisibleLanes(s, t, me.principal, nowPull))
    requires IdsAgree(LogOf(c, t), LogOf(s, t))
    ensures var lanes := VisibleLanes(s, t, me.principal, nowPull);
      var r := SyncSpec(me, c, s, t, nowPull, nowPush);
      var mine, theirs := LogOf(r.client, t), LogOf(s, t);
      && Filter(mine.entries, InLanes(lanes)) == Filter(theirs.entries, InLanes(lanes))
      && PermittedHeads(mine, lanes) == PermittedHeads(theirs, lanes)
      && Fold(t, mine.entries) == Fold(t, theirs.entries)
      && (r.exchanged == None ==>
            PushBackSpec(me, r.client, s, t, PermittedHeads(theirs, lanes), nowPush).exchanged == None)
  {
    hide Inv, Fold, StoreInv, Lanes, LogOf, Ingest, MissingFrom, PermittedHeads, AllMayContribute, HasRoot,
         PushBackSpec, PrefixOn, IdsAgree, VisibleLanes, Rooted, Filter;
    var lanes := VisibleLanes(s, t, me.principal, nowPull);
    ControlIsServed(s, t, me.principal, nowPull);
    LogOfInv(s, t);
    RootIsUnique(LogOf(s, t), Elems(LogOf(s, t).entries));
    PullAgrees(c, s, t, lanes);
    PushBackKeepsClient(me, Ingest(c, t, MissingFrom(LogOf(s, t), lanes, HeadSeqs(LogOf(c, t)))).logs, s, t,
                        PermittedHeads(LogOf(s, t), lanes), nowPush);
  }

  lemma PushBackKeepsClient(me: Identity, c: Logs, s: Logs, t: string, peer: Vector, now: int)
    ensures PushBackSpec(me, c, s, t, peer, now).client == c
  {
    hide PushSpec, Offer, LogOf;
  }

  // ------------------------------------------------------------------ one round, exactly

  /** What the caller offers back, told from the two logs before the round. */
  ghost predicate Offered(me: Identity, c: Log, s: Log, lanes: seq<Lane>, control: seq<Entry>, e: Entry) {
    && me.self != "" && e in c.entries
    && OwnChain(me, Fold(s.thread, control).stewards, KeyOf(e))
    && e.seqNo > SeqAt(PermittedHeads(s, lanes), KeyOf(e))
  }

  /** The server's check passes for everything offered. */
  ghost predicate OfferAllowed(
    me: Identity, c: Logs, s: Logs, t: string, lanes: seq<Lane>, control: seq<Entry>, now: int)
  {
    forall e :: Offered(me, LogOf(c, t), LogOf(s, t), lanes, control, e) ==>
      VisibleLanes(s, t, me.principal, now) != [] && PushAllowed(Fold(t, LogOf(s, t).entries), t, me.principal, e)
  }

  /** The offer is taken from what the caller held before the pull. */
  lemma OfferIs(me: Identity, c: Log, s: Log, lanes: seq<Lane>, control: seq<Entry>, mine: Log)
    requires Inv(c) && Inv(s) && Inv(mine) && c.thread == s.thread == mine.thread && me.self != ""
    requires Elems(mine.entries) == Elems(c.entries) + Elems(MissingFrom(s, lanes, HeadSeqs(c)))
    requires Fold(mine.thread, mine.entries) == Fold(s.thread, control)
    ensures forall e :: e in Offer(me, mine, PermittedHeads(s, lanes)) <==> Offered(me, c, s, lanes, control, e)
  {
    hide Inv, Fold, Offer, MissingFrom, HeadSeqs, OwnChain;
    BatchMembers(s, lanes, HeadSeqs(c));
    OfferMembers(me, mine, PermittedHeads(s, lanes));
    forall e | e in mine.entries && e !in c.entries ensures e.seqNo <= SeqAt(PermittedHeads(s, lanes), KeyOf(e)) {
      assert e in Elems(mine.entries);
      Held(s, e);
    }
    forall e | e in c.entries ensures e in mine.entries {
      assert e in Elems(mine.entries);
    }
  }

  /** What the server holds with what it is offered is an admissible set, when every predecessor
      is offered too or the server has it. */
  lemma JoinedAdmissible(c: Log, s: Log, offer: seq<Entry>)
    requires Inv(c) && Inv(s) && c.thread == s.thread && NoFork(c, s, ALL_LANES) && IdsAgree(c, s)
    requires forall e :: e in offer ==> e in c.entries
    requires forall e :: e in offer && e.seqNo > 1 && e.prev.HashOf? ==>
      e.prev.entry in s.entries || e.prev.entry in offer
    ensures ChainSet(Elems(s.entries) + Elems(offer), s.thread)
  {
    hide Inv, NoFork, IdsAgree;
    var u := Elems(s.entries) + Elems(offer);
    forall e | e in u ensures e.thread == s.thread && Validate(e) && Linked(u, e) {
      hide Validate;
      if e in s.entries {
        Held(s, e);
        FirstPrev(s, e);
      } else {
        Held(c, e);
        FirstPrev(c, e);
      }
    }
    forall e, f | e in u && f in u && SameId(e, f) ensures e == f { BothAgree(c, s, e, f); }
    forall e, f | e in u && f in u && SameSlot(e, f) ensures e == f { BothAgree(c, s, e, f); }
  }

  lemma OfferAdmissible(me: Identity, c: Log, s: Log, lanes: seq<Lane>, control: seq<Entry>, offer: seq<Entry>)
    requires Inv(c) && Inv(s) && c.thread == s.thread && NoFork(c, s, ALL_LANES) && IdsAgree(c, s)
    requires forall e :: e in offer <==> Offered(me, c, s, lanes, control, e)
    ensures ChainSet(Elems(s.entries) + Elems(offer), s.thread)
  {
    hide Inv, Fold, OwnChain, NoFork, IdsAgree, ChainSet, PermittedHeads;
    forall e | e in offer && e.seqNo > 1 && e.prev.HashOf? ensures e.prev.entry in s.entries || e.prev.entry in offer {
      OfferedPrev(me, c, s, lanes, control, e);
    }
    JoinedAdmissible(c, s, offer);
  }

  lemma BothAgree(c: Log, s: Log, e: Entry, f: Entry)
    requires Inv(c) && Inv(s) && NoFork(c, s, ALL_LANES) && IdsAgree(c, s)
    requires (e in c.entries || e in s.entries) && (f in c.entries || f in s.entries)
    requires SameId(e, f) || SameSlot(e, f)
    ensures e == f
  {
    hide Inv;
    assert SameId(f, e) == SameId(e, f) && SameSlot(f, e) == SameSlot(e, f);
    if e in c.entries && f in c.entries {
      HeldOnce(c, e, f);
    } else if e in s.entries && f in s.entries {
      HeldOnce(s, e, f);
    } else if e in c.entries {
      Held(c, e);
    } else {
      Held(c, f);
    }
  }

  /** The predecessor of an offered entry is offered too, or the server has it. */
  lemma OfferedPrev(me: Identity, c: Log, s: Log, lanes: seq<Lane>, control: seq<Entry>, e: Entry)
    requires Inv(c) && Inv(s) && NoFork(c, s, ALL_LANES)
    requires Offered(me, c, s, lanes, control, e) && e.seqNo > 1 && e.prev.HashOf?
    ensures e.prev.entry in s.entries || Offered(me, c, s, lanes, control, e.prev.entry)
  {
    hide Inv, Fold, OwnChain;
    Held(c, e);
    var p := e.prev.entry;
    Held(c, p);
    if p.seqNo <= SeqAt(PermittedHeads(s, lanes), KeyOf(p)) {
      HeldBelowHead(c, s, p);
    }
  }

  /** Where the two never disagree, an entry at or below the server's head is the server's. */
  lemma HeldBelowHead(c: Log, s: Log, p: Entry)
    requires Inv(c) && Inv(s) && NoFork(c, s, ALL_LANES) && p in c.entries
    requires KeyOf(p) in s.heads && p.seqNo <= s.heads[KeyOf(p)].seqNo
    ensures p in s.entries
  {
    hide Inv;
    Held(c, p);
    PositionHeld(s, KeyOf(p), p.seqNo);
    var f :| f in s.entries && KeyOf(f) == KeyOf(p) && f.seqNo == p.seqNo;
    assert SameSlot(p, f);
  }

  /** The push half, from the caller's log after the pull. */
  lemma PushHalf(me: Identity, c: Logs, s: Logs, c': Logs, t: string, lanes: seq<Lane>, control: seq<Entry>, now: int)
    requires StoreInv(c) && StoreInv(s) && StoreInv(c') && HasRoot(LogOf(s, t)) && LogOf(s, t).entries != []
    requires NoFork(LogOf(c, t), LogOf(s, t), ALL_LANES) && IdsAgree(LogOf(c, t), LogOf(s, t))
    requires var mine := LogOf(c', t);
      && Elems(mine.entries) ==
           Elems(LogOf(c, t).entries) + Elems(MissingFrom(LogOf(s, t), lanes, HeadSeqs(LogOf(c, t))))
      && Fold(t, mine.entries) == Fold(t, control)
    ensures var r := PushBackSpec(me, c', s, t, PermittedHeads(LogOf(s, t), lanes), now);
      && r.client == c' && StoreInv(r.server)
      && (r.exchanged.Some? <==> OfferAllowed(me, c, s, t, lanes, control, now))
      && (r.exchanged.Some? ==> forall e :: e in LogOf(r.server, t).entries <==>
            e in LogOf(s, t).entries || Offered(me, LogOf(c, t), LogOf(s, t), lanes, control, e))
  {
    hide Inv, Fold, StoreInv, LogOf, Offer, MissingFrom, HeadSeqs, PermittedHeads, PushSpec, PushAllowed, VisibleLanes,
         NoFork, IdsAgree, HasRoot, ChainSet, OwnChain;
    var cl, sl, mine, peer := LogOf(c, t), LogOf(s, t), LogOf(c', t), PermittedHeads(LogOf(s, t), lanes);
    LogOfInv(c, t);
    LogOfInv(s, t);
    LogOfInv(c', t);
    PushBackKeepsClient(me, c', s, t, peer, now);
    if me.self != "" {
      OfferIs(me, cl, sl, lanes, control, mine);
      var offer := Offer(me, mine, peer);
      OfferAdmissible(me, cl, sl, lanes, control, offer);
      if offer != [] {
        assert Offered(me, cl, sl, lanes, control, offer[0]);
        assert offer[0] in Elems(cl.entries) && offer[0] in Elems(mine.entries);
        PushOffer(s, t, me.principal, offer, now);
      }
    }
  }

  /** An admissible offer to a known thread. */
  lemma PushOffer(s: Logs, t: string, p: string, offer: seq<Entry>, now: int)
    requires StoreInv(s) && HasRoot(LogOf(s, t)) && LogOf(s, t).entries != []
    requires ChainSet(Elems(LogOf(s, t).entries) + Elems(offer), t)
    ensures var r := PushSpec(s, t, p, offer, now);
      && StoreInv(r.logs)
      && (r.accepted.Some? <==>
            && VisibleLanes(s, t, p, now) != []
            && forall e :: e in offer ==> PushAllowed(Fold(t, LogOf(s, t).entries), t, p, e))
      && (r.accepted.Some? ==> forall e :: e in LogOf(r.logs, t).entries <==> e in LogOf(s, t).entries || e in offer)
  {
    hide Inv, Fold, StoreInv, LogOf, Ordered, PushAllowed, PushChecked, VisibleLanes, HasRoot, ChainSet;
    PushKeepsInv(s, t, p, offer, now);
    if VisibleLanes(s, t, p, now) != [] {
      PushAcceptedExactly(s, t, p, offer, now);
      var r := LogOf(PushSpec(s, t, p, offer, now).logs, t);
      assert forall e :: e in r.entries <==> e in Elems(r.entries);
    }
  }

  lemma PushKeepsInv(s: Logs, t: string, p: string, batch: seq<Entry>, now: int)
    requires StoreInv(s)
    ensures StoreInv(PushSpec(s, t, p, batch, now).logs)
  {
    hide StoreInv, PushSpec;
    CallKeepsInv(s, t, PushCall(p, batch, now));
  }

  /** A round between copies that never disagree succeeds exactly when what the server sends
      is inside its authors' windows and what the caller offers passes the server's check.
      Then the caller holds the union of its log with the permitted lanes, and the server the
      union of its log with the offer. */
  lemma RoundExact(me: Identity, c: Logs, s: Logs, t: string, nowPull: int, nowPush: int, control: seq<Entry>)
    requires VisibleLanes(s, t, me.principal, nowPull) != []
    requires Joinable(c, s, t, VisibleLanes(s, t, me.principal, nowPull), control)
    requires NoFork(LogOf(c, t), LogOf(s, t), ALL_LANES) && HasRoot(LogOf(s, t))
    ensures var lanes := VisibleLanes(s, t, me.principal, nowPull);
      var r := SyncSpec(me, c, s, t, nowPull, nowPush); var cl, sl := LogOf(c, t), LogOf(s, t);
      && StoreInv(r.client) && StoreInv(r.server)
      && (r.exchanged.Some? <==>
            SentInside(cl, sl, lanes, control) && OfferAllowed(me, c, s, t, lanes, control, nowPush))
      && (r.exchanged.Some? ==>
            && (forall e :: e in LogOf(r.client, t).entries <==>
                  e in cl.entries || e in MissingFrom(sl, lanes, HeadSeqs(cl)))
            && (forall e :: e in LogOf(r.server, t).entries <==>
                  e in sl.entries || Offered(me, cl, sl, lanes, control, e)))
  {
    hide Inv, Fold, StoreInv, LogOf, Ingest, MissingFrom, HeadSeqs, PermittedHeads, PushBackSpec, VisibleLanes,
         NoFork, IdsAgree, HasRoot, Offered, OfferAllowed, SentInside, Rooted;
    var lanes := VisibleLanes(s, t, me.principal, nowPull);
    var cl, sl := LogOf(c, t), LogOf(s, t);
    LogOfInv(c, t);
    LogOfInv(s, t);
    ControlIsServed(s, t, me.principal, nowPull);
    PullAcceptedExactly(c, s, t, lanes, control);
    var batch := MissingFrom(sl, lanes, HeadSeqs(cl));
    var i := Ingest(c, t, batch);
    if i.ok {
      LogOfInv(i.logs, t);
      var mine := LogOf(i.logs, t);
      JoinedFold(cl, sl, lanes, control, mine);
      PushHalf(me, c, s, i.logs, t, lanes, control, nowPush);
      assert forall e :: e in mine.entries <==> e in Elems(mine.entries);
    }
  }

  lemma JoinedFold(c: Log, s: Log, lanes: seq<Lane>, control: seq<Entry>, mine: Log)
    requires Inv(c) && Inv(s) && Inv(mine) && c.thread == s.thread == mine.thread
    requires NoFork(c, s, lanes) && LaneControl in lanes && ControlOfBoth(control, c, s)
    requires Elems(mine.entries) == Elems(c.entries) + Elems(MissingFrom(s, lanes, HeadSeqs(c)))
    ensures Fold(mine.thread, mine.entries) == Fold(s.thread, control)
  {
    hide Inv, Fold, MissingFrom, NoFork, HeadSeqs;
    BatchMembers(s, lanes, HeadSeqs(c));
    forall e: Entry ensures e in control <==> e.lane == LaneControl && e in mine.entries {
      assert e in mine.entries <==> e in Elems(mine.entries);
      if e.lane == LaneControl && e in s.entries {
        HeldOrSent(c, s, lanes, e);
      }
    }
    FoldOfControl(mine, control);
  }

  /** Everything the caller has that the server lacks, in these lanes, is in the caller's own
      chains. */
  ghost predicate OwnNews(me: Identity, c: Log, s: Log, lanes: seq<Lane>, control: seq<Entry>) {
    forall e :: e in c.entries && e.lane in lanes && e !in s.entries ==>
      me.self != "" && OwnChain(me, Fold(s.thread, control).stewards, KeyOf(e))
  }

  /** Two-way sync: when both sides have entries the other lacks and the caller's are its own,
      a round that succeeds leaves both, the server after the push included, with the same
      entries in every permitted lane, in the same order, with the same heads and the same
      permissions. */
  lemma SyncThreadAgrees(me: Identity, c: Logs, s: Logs, t: string, nowPull: int, nowPush: int, control: seq<Entry>)
    requires VisibleLanes(s, t, me.principal, nowPull) != []
    requires Joinable(c, s, t, VisibleLanes(s, t, me.principal, nowPull), control)
    requires NoFork(LogOf(c, t), LogOf(s, t), ALL_LANES) && HasRoot(LogOf(s, t))
    requires SentInside(LogOf(c, t), LogOf(s, t), VisibleLanes(s, t, me.principal, nowPull), control)
    requires OfferAllowed(me, c, s, t, VisibleLanes(s, t, me.principal, nowPull), control, nowPush)
    requires OwnNews(me, LogOf(c, t), LogOf(s, t), VisibleLanes(s, t, me.principal, nowPull), control)
    ensures var lanes := VisibleLanes(s, t, me.principal, nowPull);
      var r := SyncSpec(me, c, s, t, nowPull, nowPush);
      var mine, theirs := LogOf(r.client, t), LogOf(r.server, t);
      && r.exchanged.Some?
      && (forall e: Entry :: e.lane in lanes ==>
            (e in mine.entries <==> e in LogOf(c, t).entries || e in LogOf(s, t).entries))
      && Filter(mine.entries, InLanes(lanes)) == Filter(theirs.entries, InLanes(lanes))
      && PermittedHeads(mine, lanes) == PermittedHeads(theirs, lanes)
      && Fold(t, mine.entries) == Fold(t, theirs.entries)
  {
    hide Inv, Fold, StoreInv, LogOf, MissingFrom, HeadSeqs, PermittedHeads, VisibleLanes, SyncSpec,
         NoFork, IdsAgree, HasRoot, OfferAllowed, SentInside, Rooted, ControlOfBoth, OwnChain;
    var lanes := VisibleLanes(s, t, me.principal, nowPull);
    var cl, sl := LogOf(c, t), LogOf(s, t);
    LogOfInv(c, t);
    LogOfInv(s, t);
    RoundExact(me, c, s, t, nowPull, nowPush, control);
    var r := SyncSpec(me, c, s, t, nowPull, nowPush);
    var mine, theirs := LogOf(r.client, t), LogOf(r.server, t);
    LogOfInv(r.client, t);
    LogOfInv(r.server, t);
    ControlIsServed(s, t, me.principal, nowPull);
    BatchMembers(sl, lanes, HeadSeqs(cl));
    forall e: Entry | e.lane in lanes
      ensures e in mine.entries <==> e in cl.entries || e in sl.entries
      ensures e in theirs.entries <==> e in cl.entries || e in sl.entries
    {
      if e in sl.entries {
        HeldOrSent(cl, sl, lanes, e);
      } else if e in cl.entries {
        NewsOffered(me, cl, sl, lanes, control, e);
      }
    }
    SameLaneSameOrder(mine, theirs, InLanes(lanes));
    SameControlSameFold(mine, theirs);
    SameHeads(mine, theirs, lanes);
  }

  /** What the server lacks lies beyond its head, so it is offered. */
  lemma NewsOffered(me: Identity, c: Log, s: Log, lanes: seq<Lane>, control: seq<Entry>, e: Entry)
    requires Inv(c) && Inv(s) && NoFork(c, s, ALL_LANES) && OwnNews(me, c, s, lanes, control)
    requires e in c.entries && e.lane in lanes && e !in s.entries
    ensures Offered(me, c, s, lanes, control, e)
  {
    hide Inv, Fold, NoFork, OwnChain;
    Held(c, e);
    if KeyOf(e) in s.heads && e.seqNo <= s.heads[KeyOf(e)].seqNo {
      HeldBelowHead(c, s, e);
    }
  }

  // ------------------------------------------------------------------ sharing a known thread

  /** What `ShareThread` offers: everything the caller and its agent keys wrote, the control
      chain of a caller who is no steward included, past the heads the caller is shown. */
  ghost predicate Shared(me: Identity, c: Log, s: Log, lanes: seq<Lane>, e: Entry) {
    && e in c.entries && (e.author == me.self || e.author in me.selfKeys)
    && e.seqNo > SeqAt(if lanes == [] then map[] else PermittedHeads(s, lanes), KeyOf(e))
  }

  lemma SharedPrev(me: Identity, c: Log, s: Log, lanes: seq<Lane>, e: Entry)
    requires Inv(c) && Inv(s) && NoFork(c, s, ALL_LANES)
    requires Shared(me, c, s, lanes, e) && e.seqNo > 1 && e.prev.HashOf?
    ensures e.prev.entry in s.entries || Shared(me, c, s, lanes, e.prev.entry)
  {
    hide Inv;
    Held(c, e);
    var p := e.prev.entry;
    Held(c, p);
    if lanes != [] && p.seqNo <= SeqAt(PermittedHeads(s, lanes), KeyOf(p)) {
      HeldBelowHead(c, s, p);
    }
  }

  lemma ShareOfferIs(me: Identity, c: Log, s: Log, lanes: seq<Lane>)
    ensures var offer := ShareOffer(me, c, if lanes == [] then map[] else PermittedHeads(s, lanes));
      forall e :: e in offer <==> Shared(me, c, s, lanes, e)
  {
    hide PermittedHeads;
    FilterMembers(c.entries, SelfPast(me, if lanes == [] then map[] else PermittedHeads(s, lanes)));
  }

  /** Sharing a thread with a peer that has it already, between copies that never disagree: it
      succeeds exactly when there is nothing to offer, or the peer shows the thread to the
      caller and its check passes for all of the offer.  Then the peer holds the union.  So a
      caller who is no steward and has written a control entry the peer is not shown to have
      cannot share. */
  lemma ShareKnownThread(me: Identity, c: Logs, s: Logs, t: string, nowPull: int, nowPush: int)
    requires StoreInv(c) && StoreInv(s) && LogOf(c, t).entries != []
    requires LogOf(s, t).entries != [] && HasRoot(LogOf(s, t))
    requires NoFork(LogOf(c, t), LogOf(s, t), ALL_LANES) && IdsAgree(LogOf(c, t), LogOf(s, t))
    ensures var lanes := VisibleLanes(s, t, me.principal, nowPull);
      var r := ShareSpec(me, c, s, t, nowPull, nowPush); var cl, sl := LogOf(c, t), LogOf(s, t);
      && r.client == c && StoreInv(r.server)
      && (r.exchanged.Some? <==> forall e :: Shared(me, cl, sl, lanes, e) ==>
            VisibleLanes(s, t, me.principal, nowPush) != []
            && PushAllowed(Fold(t, sl.entries), t, me.principal, e))
      && (r.exchanged.Some? ==> forall e :: e in LogOf(r.server, t).entries <==>
            e in sl.entries || Shared(me, cl, sl, lanes, e))
  {
    hide Inv, Fold, StoreInv, LogOf, ShareOffer, PushSpec, PushAllowed, VisibleLanes, NoFork, IdsAgree, HasRoot,
         ChainSet, PermittedHeads, Shared;
    var lanes := VisibleLanes(s, t, me.principal, nowPull);
    var cl, sl := LogOf(c, t), LogOf(s, t);
    LogOfInv(c, t);
    LogOfInv(s, t);
    var offer := ShareOffer(me, cl, if lanes == [] then map[] else PermittedHeads(sl, lanes));
    ShareOfferIs(me, cl, sl, lanes);
    forall e | e in offer ensures e in cl.entries { SharedIsHeld(me, cl, sl, lanes, e); }
    forall e | e in offer && e.seqNo > 1 && e.prev.HashOf? ensures e.prev.entry in sl.entries || e.prev.entry in offer {
      SharedPrev(me, cl, sl, lanes, e);
    }
    JoinedAdmissible(cl, sl, offer);
    if offer != [] {
      assert Shared(me, cl, sl, lanes, offer[0]);
      PushOffer(s, t, me.principal, offer, nowPush);
    }
  }

  lemma SharedIsHeld(me: Identity, c: Log, s: Log, lanes: seq<Lane>, e: Entry)
    requires Shared(me, c, s, lanes, e)
    ensures e in c.entries
  {
  }

  // ------------------------------------------------------------------ through one server

  /** Everything the caller's log had before a round that the server lacked is in the chains
      that travel back, as the caller's permissions are after the pull. */
  ghost predicate NewsIsOwn(me: Identity, c: Log, s: Log, mine: Log) {
    forall e :: e in c.entries && e !in s.entries ==>
      me.self != "" && OwnChain(me, Fold(mine.thread, mine.entries).stewards, KeyOf(e))
  }

  /** After an error-free round served all lanes, between copies that never disagree, both
      hold the same log: the union. */
  lemma RoundMerges(me: Identity, c: Logs, s: Logs, t: string, nowPull: int, nowPush: int)
    requires StoreInv(c) && StoreInv(s)
    requires VisibleLanes(s, t, me.principal, nowPull) == ALL_LANES
    requires NoFork(LogOf(c, t), LogOf(s, t), ALL_LANES)
    requires var r := SyncSpec(me, c, s, t, nowPull, nowPush);
      r.exchanged.Some? && NewsIsOwn(me, LogOf(c, t), LogOf(s, t), LogOf(r.client, t))
    ensures var r := SyncSpec(me, c, s, t, nowPull, nowPush);
      && StoreInv(r.client) && StoreInv(r.server) && LogOf(r.client, t) == LogOf(r.server, t)
      && Elems(LogOf(r.client, t).entries) == Elems(LogOf(c, t).entries) + Elems(LogOf(s, t).entries)
  {
    hide Inv, Fold, StoreInv, LogOf, MissingFrom, HeadSeqs, PermittedHeads, VisibleLanes, SyncSpec, NoFork,
         OwnChain, Offer;
    var r := SyncSpec(me, c, s, t, nowPull, nowPush);
    var cl, sl, mine, theirs := LogOf(c, t), LogOf(s, t), LogOf(r.client, t), LogOf(r.server, t);
    ErrorFreeRound(me, c, s, t, nowPull, nowPush);
    BatchMembers(sl, ALL_LANES, HeadSeqs(cl));
    OfferMembers(me, mine, PermittedHeads(sl, ALL_LANES));
    var both := Elems(cl.entries) + Elems(sl.entries);
    forall e ensures e in Elems(mine.entries) <==> e in both {
      if e in sl.entries {
        BelowHead(sl, e);
        HeldOrSent(cl, sl, ALL_LANES, e);
      }
    }
    forall e ensures e in Elems(theirs.entries) <==> e in both {
      if e in cl.entries && e !in sl.entries {
        BeyondHead(cl, sl, e);
        assert e in Elems(mine.entries);
      }
      assert e in mine.entries ==> e in Elems(mine.entries);
    }
    LogDetermined(mine, theirs);
  }

  lemma BeyondHead(c: Log, s: Log, e: Entry)
    requires Inv(c) && Inv(s) && NoFork(c, s, ALL_LANES) && e in c.entries && e !in s.entries
    ensures e.seqNo > SeqAt(PermittedHeads(s, ALL_LANES), KeyOf(e))
  {
    hide Inv, NoFork;
    Held(c, e);
    if KeyOf(e) in s.heads && e.seqNo <= s.heads[KeyOf(e)].seqNo {
      HeldBelowHead(c, s, e);
    }
  }

  lemma NoForkWithUnion(l: Log, a: Log, b: Log, u: Log)
    requires NoFork(l, a, ALL_LANES) && NoFork(l, b, ALL_LANES)
    requires Elems(u.entries) == Elems(a.entries) + Elems(b.entries)
    ensures NoFork(l, u, ALL_LANES)
  {
    forall e, f | e in l.entries && f in u.entries && e.lane in ALL_LANES && SameSlot(e, f) ensures e == f {
      assert f in Elems(u.entries);
    }
  }

  lemma NoForkInside(l: Log, u: Log)
    requires Inv(u) && Elems(l.entries) <= Elems(u.entries)
    ensures NoFork(l, u, ALL_LANES)
  {
    hide Inv;
    forall e, f | e in l.entries && f in u.entries && e.lane in ALL_LANES && SameSlot(e, f) ensures e == f {
      assert e in Elems(l.entries) && e in Elems(u.entries);
      HeldOnce(u, e, f);
    }
  }

  /** Convergence through one server: two writers that never wrote different entries at one
      position, whose news is their own, sync with the same server, first `a`, then `b`, then
      `a` again, each served all lanes and without error.  Then `a`, `b` and the server hold
      one log, the union of the three they began with. */
  lemma HubConverges(a: Identity, b: Identity, ca: Logs, cb: Logs, s: Logs, t: string,
      pull1: int, push1: int, pull2: int, push2: int, pull3: int, push3: int)
    requires StoreInv(ca) && StoreInv(cb) && StoreInv(s)
    requires NoFork(LogOf(ca, t), LogOf(s, t), ALL_LANES) && NoFork(LogOf(cb, t), LogOf(s, t), ALL_LANES)
    requires NoFork(LogOf(cb, t), LogOf(ca, t), ALL_LANES)
    requires var r1 := SyncSpec(a, ca, s, t, pull1, push1); var r2 := SyncSpec(b, cb, r1.server, t, pull2, push2);
      var r3 := SyncSpec(a, r1.client, r2.server, t, pull3, push3);
      && VisibleLanes(s, t, a.principal, pull1) == ALL_LANES && r1.exchanged.Some?
      && VisibleLanes(r1.server, t, b.principal, pull2) == ALL_LANES && r2.exchanged.Some?
      && VisibleLanes(r2.server, t, a.principal, pull3) == ALL_LANES && r3.exchanged.Some?
      && NewsIsOwn(a, LogOf(ca, t), LogOf(s, t), LogOf(r1.client, t))
      && NewsIsOwn(b, LogOf(cb, t), LogOf(r1.server, t), LogOf(r2.client, t))
    ensures var r1 := SyncSpec(a, ca, s, t, pull1, push1); var r2 := SyncSpec(b, cb, r1.server, t, pull2, push2);
      var r3 := SyncSpec(a, r1.client, r2.server, t, pull3, push3);
      && LogOf(r3.client, t) == LogOf(r2.client, t) == LogOf(r3.server, t)
      && Elems(LogOf(r3.server, t).entries) ==
           Elems(LogOf(ca, t).entries) + Elems(LogOf(cb, t).entries) + Elems(LogOf(s, t).entries)
  {
    hide Inv, Fold, StoreInv, LogOf, VisibleLanes, SyncSpec, NoFork, OwnChain;
    var r1 := SyncSpec(a, ca, s, t, pull1, push1);
    var r2 := SyncSpec(b, cb, r1.server, t, pull2, push2);
    var r3 := SyncSpec(a, r1.client, r2.server, t, pull3, push3);
    RoundMerges(a, ca, s, t, pull1, push1);
    NoForkWithUnion(LogOf(cb, t), LogOf(ca, t), LogOf(s, t), LogOf(r1.server, t));
    RoundMerges(b, cb, r1.server, t, pull2, push2);
    LogOfInv(r2.server, t);
    NoForkInside(LogOf(r1.client, t), LogOf(r2.server, t));
    forall e | e in LogOf(r1.client, t).entries ensures e in LogOf(r2.server, t).entries {
      assert e in Elems(LogOf(r1.client, t).entries) && e in Elems(LogOf(r2.server, t).entries);
    }
    RoundMerges(a, r1.client, r2.server, t, pull3, push3);
    LogOfInv(r3.server, t);
    LogDetermined(LogOf(r3.server, t), LogOf(r2.server, t));
  }
}
