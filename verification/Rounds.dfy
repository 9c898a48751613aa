/** Whole sync rounds: what an error-free `SyncThread` leaves behind. */
module Rounds {
  import opened Entries
  import opened Sequences
  import opened ThreadLogs
  import opened Authors
  import opened Convergence
  import opened Perm
  import opened PermLaws
  import opened Stores
  import opened Sync
  import opened SyncLaws

  const ALL_LANES: seq<Lane> := [LaneControl, LaneSummary, LaneContent]

  lemma BelowHead(l: Log, e: Entry)
    requires Inv(l) && e in l.entries
    ensures e.seqNo <= SeqAt(HeadSeqs(l), KeyOf(e))
    ensures e.lane in ALL_LANES && SeqAt(PermittedHeads(l, ALL_LANES), KeyOf(e)) == SeqAt(HeadSeqs(l), KeyOf(e))
  {
    hide Inv;
    Held(l, e);
  }

  lemma HeadsGrow(l: Log, m: Log, k: ChainKey)
    requires Inv(l) && Inv(m) && Elems(l.entries) <= Elems(m.entries)
    ensures SeqAt(HeadSeqs(l), k) <= SeqAt(HeadSeqs(m), k)
  {
    hide Inv;
    if k in l.heads {
      HeadsHeld(l);
      assert l.heads[k].hash.entry in Elems(m.entries);
      BelowHead(m, l.heads[k].hash.entry);
    }
  }

  /** A batch that was taken in without error is in the log, and nothing else is new. */
  lemma IngestedUnion(c: Logs, t: string, batch: seq<Entry>)
    requires StoreInv(c) && Ingest(c, t, batch).ok && forall e :: e in batch ==> e.thread == t
    ensures var r := Ingest(c, t, batch).logs;
      StoreInv(r) && Elems(LogOf(r, t).entries) == Elems(LogOf(c, t).entries) + Elems(batch)
  {
    hide Inv, Ordered, Fold, Deliver, AppendAll, StoreInv, MayContribute, Filter, LogOf;
    var o := Ordered(batch, t);
    var control, rest := Filter(o, OnControl()), Filter(o, OffControl());
    OrderedParts(batch, t);
    LogOfInv(c, t);
    AppendOneThread(c, t, control);
    AcceptedAscends(LogOf(c, t), control);
    var first := AppendAll(c, control).logs;
    AppendOneThread(first, t, rest);
    if rest != [] {
      AcceptedAscends(LogOf(first, t), rest);
    } else {
      assert Elems(rest) == {};
    }
    IngestKeepsInv(c, t, batch);
  }

  lemma OrderedParts(batch: seq<Entry>, t: string)
    ensures var o := Ordered(batch, t);
      Elems(batch) == Elems(Filter(o, OnControl())) + Elems(Filter(o, OffControl()))
    ensures forall e :: e in Ordered(batch, t) ==> e in batch
    ensures forall e :: e in Filter(Ordered(batch, t), OnControl()) ==> e in batch
    ensures forall e :: e in Filter(Ordered(batch, t), OffControl()) ==> e in batch
  {
    hide Ordered, Filter;
    var o := Ordered(batch, t);
    OrderedFacts(batch, t);
    FilterMembers(o, OnControl());
    FilterMembers(o, OffControl());
    forall e | e in o ensures e in batch {
      assert e in Elems(o) && e in Elems(batch);
    }
  }

  /** An accepted push to a known thread adds exactly the offer. */
  lemma PushedUnion(s: Logs, t: string, principal: string, offer: seq<Entry>, now: int)
    requires StoreInv(s) && LogOf(s, t).entries != [] && PushSpec(s, t, principal, offer, now).accepted.Some?
    requires forall e :: e in offer ==> e.thread == t
    ensures var r := PushSpec(s, t, principal, offer, now).logs;
      StoreInv(r) && Elems(LogOf(r, t).entries) == Elems(LogOf(s, t).entries) + Elems(offer)
  {
    hide Inv, Ordered, Fold, Deliver, AppendAll, StoreInv, PushAllowed, LogOf, VisibleLanes;
    OrderedParts(offer, t);
    OrderedFacts(offer, t);
    LogOfInv(s, t);
    AppendOneThread(s, t, Ordered(offer, t));
    AcceptedAscends(LogOf(s, t), Ordered(offer, t));
    AppendAllKeepsInv(s, Ordered(offer, t));
  }

  /** The four logs of an error-free round served these lanes, with what was pulled and what
      was offered back. */
  ghost predicate RoundFacts(me: Identity, lanes: seq<Lane>, c: Log, s: Log, c': Log, s': Log) {
    && Inv(c) && Inv(s) && Inv(c') && Inv(s')
    && c.thread == s.thread == c'.thread == s'.thread
    && Elems(c'.entries) == Elems(c.entries) + Elems(MissingFrom(s, lanes, HeadSeqs(c)))
    && Elems(s'.entries) == Elems(s.entries) +
         (if me.self == "" then {} else Elems(Offer(me, c', PermittedHeads(s, lanes))))
  }

  lemma ErrorFreeRound(me: Identity, c: Logs, s: Logs, t: string, nowPull: int, nowPush: int)
    requires StoreInv(c) && StoreInv(s)
    requires SyncSpec(me, c, s, t, nowPull, nowPush).exchanged.Some?
    ensures var r := SyncSpec(me, c, s, t, nowPull, nowPush);
      && StoreInv(r.client) && StoreInv(r.server)
      && RoundFacts(me, VisibleLanes(s, t, me.principal, nowPull),
                    LogOf(c, t), LogOf(s, t), LogOf(r.client, t), LogOf(r.server, t))
  {
    hide Inv, Ingest, Fold, StoreInv, MissingFrom, PermittedHeads, LogOf, PushBackSpec, Offer, HeadSeqs, Lanes;
    LogOfInv(c, t);
    LogOfInv(s, t);
    var sl, lanes := LogOf(s, t), VisibleLanes(s, t, me.principal, nowPull);
    var batch := MissingFrom(sl, lanes, HeadSeqs(LogOf(c, t)));
    BatchMembers(sl, lanes, HeadSeqs(LogOf(c, t)));
    forall e | e in batch ensures e.thread == t { Held(sl, e); }
    IngestedUnion(c, t, batch);
    var c1 := Ingest(c, t, batch).logs;
    LogOfInv(c1, t);
    PushBackUnion(me, c1, s, t, lanes, nowPush);
  }

  lemma PushBackUnion(me: Identity, c: Logs, s: Logs, t: string, lanes: seq<Lane>, now: int)
    requires StoreInv(c) && StoreInv(s) && LogOf(s, t).entries != []
    requires PushBackSpec(me, c, s, t, PermittedHeads(LogOf(s, t), lanes), now).exchanged.Some?
    ensures var r := PushBackSpec(me, c, s, t, PermittedHeads(LogOf(s, t), lanes), now);
      && r.client == c && StoreInv(r.server) && Inv(LogOf(r.server, t)) && LogOf(r.server, t).thread == t
      && Elems(LogOf(r.server, t).entries) == Elems(LogOf(s, t).entries) +
           (if me.self == "" then {} else Elems(Offer(me, LogOf(c, t), PermittedHeads(LogOf(s, t), lanes))))
  {
    hide Inv, StoreInv, PermittedHeads, PushSpec, LogOf;
    var peer := PermittedHeads(LogOf(s, t), lanes);
    var l := LogOf(c, t);
    LogOfInv(c, t);
    LogOfInv(s, t);
    var offer := Offer(me, l, peer);
    OfferMembers(me, l, peer);
    forall e | e in offer ensures e.thread == t { Held(l, e); }
    if me.self != "" && l.entries != [] && offer != [] {
      PushedUnion(s, t, me.principal, offer, now);
    } else if me.self != "" {
      assert offer == [];
      assert Elems(offer) == {};
    }
    LogOfInv(PushBackSpec(me, c, s, t, peer, now).server, t);
  }

  lemma OfferMembers(me: Identity, l: Log, peer: Vector)
    ensures forall e :: e in Offer(me, l, peer) <==>
      e in l.entries && OwnChain(me, Fold(l.thread, l.entries).stewards, KeyOf(e)) && e.seqNo > SeqAt(peer, KeyOf(e))
  {
    FilterMembers(l.entries, OwnPast(me, Fold(l.thread, l.entries).stewards, peer));
  }

  // ------------------------------------------------------------------ quiescence

  /** Nothing is left to pull. */
  lemma NothingMissing(me: Identity, lanes: seq<Lane>, c: Log, s: Log, c': Log, s': Log)
    requires RoundFacts(me, lanes, c, s, c', s')
    ensures MissingFrom(s', lanes, HeadSeqs(c')) == []
  {
    hide Inv, Fold, MissingFrom, Offer, HeadSeqs, PermittedHeads, OwnChain;
    var batch, peer := MissingFrom(s, lanes, HeadSeqs(c)), PermittedHeads(s, lanes);
    BatchMembers(s, lanes, HeadSeqs(c));
    OfferMembers(me, c', peer);
    forall e | e in s'.entries && e.lane in lanes ensures e.seqNo <= SeqAt(HeadSeqs(c'), KeyOf(e)) {
      assert e in Elems(s'.entries);
      HeadsGrow(c, c', KeyOf(e));
      if e in s.entries {
        BelowHead(s, e);
        assert e in batch ==> e in Elems(c'.entries);
      } else {
        assert e in Elems(Offer(me, c', peer));
      }
      if e in c'.entries { BelowHead(c', e); }
    }
    NoneMissing(s', lanes, HeadSeqs(c'));
  }

  lemma SeqAtHead(l: Log, k: ChainKey)
    ensures SeqAt(HeadSeqs(l), k) == if k in l.heads then l.heads[k].seqNo else 0
    ensures SeqAt(PermittedHeads(l, ALL_LANES), k) == if k.lane in ALL_LANES then SeqAt(HeadSeqs(l), k) else 0
  {
  }

  lemma PermittedAt(l: Log, lanes: seq<Lane>, k: ChainKey)
    ensures SeqAt(PermittedHeads(l, lanes), k) == if k.lane in lanes then SeqAt(HeadSeqs(l), k) else 0
  {
  }

  lemma NoneMissing(s: Log, lanes: seq<Lane>, have: Vector)
    requires forall e :: e in s.entries && e.lane in lanes ==> e.seqNo <= SeqAt(have, KeyOf(e))
    ensures MissingFrom(s, lanes, have) == []
  {
    FilterNone(s.entries, PermittedPast(lanes, have));
  }

  /** Own chains in the lanes that are not served. */
  function Elsewhere(me: Identity, stewards: set<string>, lanes: seq<Lane>): Entry -> bool {
    (e: Entry) => OwnChain(me, stewards, KeyOf(e)) && e.lane !in lanes
  }

  /** What a caller offers in every round: with its heads in the unserved lanes unknown to it,
      all of its own entries there. */
  function Reoffered(me: Identity, l: Log, lanes: seq<Lane>): seq<Entry> {
    if me.self == "" then [] else Filter(l.entries, Elsewhere(me, Fold(l.thread, l.entries).stewards, lanes))
  }

  /** After the round the offer is what is reoffered, and the server has all of it. */
  lemma OfferAgain(me: Identity, lanes: seq<Lane>, c: Log, s: Log, c': Log, s': Log)
    requires RoundFacts(me, lanes, c, s, c', s') && me.self != ""
    ensures Offer(me, c', PermittedHeads(s', lanes)) == Reoffered(me, c', lanes)
    ensures forall e :: e in Reoffered(me, c', lanes) ==> e in s'.entries
  {
    hide Inv, Fold, MissingFrom, Offer, HeadSeqs, PermittedHeads, OwnChain;
    var peer := PermittedHeads(s, lanes);
    OfferMembers(me, c', peer);
    var stewards := Fold(c'.thread, c'.entries).stewards;
    forall e | e in c'.entries && OwnChain(me, stewards, KeyOf(e))
      ensures e.seqNo > SeqAt(PermittedHeads(s', lanes), KeyOf(e)) <==> e.lane !in lanes
      ensures e.lane !in lanes ==> e in s'.entries
    {
      Held(c', e);
      BelowHead(c', e);
      PermittedAt(s, lanes, KeyOf(e));
      PermittedAt(s', lanes, KeyOf(e));
      HeadsGrow(s, s', KeyOf(e));
      if e in Offer(me, c', peer) {
        assert e in Elems(s'.entries);
        BelowHead(s', e);
      }
    }
    OfferIsFilter(me, c', PermittedHeads(s', lanes), lanes);
    FilterMembers(c'.entries, Elsewhere(me, stewards, lanes));
  }

  lemma OfferIsFilter(me: Identity, l: Log, peer: Vector, lanes: seq<Lane>)
    requires me.self != ""
    requires forall e :: e in l.entries && OwnChain(me, Fold(l.thread, l.entries).stewards, KeyOf(e)) ==>
      (e.seqNo > SeqAt(peer, KeyOf(e)) <==> e.lane !in lanes)
    ensures Offer(me, l, peer) == Reoffered(me, l, lanes)
  {
    hide OwnChain, Fold;
    var stewards := Fold(l.thread, l.entries).stewards;
    FilterSame(l.entries, OwnPast(me, stewards, peer), Elsewhere(me, stewards, lanes));
  }

  lemma NoneOffered(me: Identity, l: Log, peer: Vector)
    requires forall e :: e in l.entries && OwnChain(me, Fold(l.thread, l.entries).stewards, KeyOf(e)) ==>
      e.seqNo <= SeqAt(peer, KeyOf(e))
    ensures Offer(me, l, peer) == []
  {
    FilterNone(l.entries, OwnPast(me, Fold(l.thread, l.entries).stewards, peer));
  }

  /** Redelivering what a log holds changes nothing. */
  lemma {:induction false} AppendHeld(s: Logs, t: string, es: seq<Entry>)
    requires StoreInv(s) && forall e :: e in es ==> e in LogOf(s, t).entries
    ensures AppendAll(s, es) == Stored(s, None)
    decreases |es|
  {
    hide Inv, Append, StoreInv;
    if es != [] {
      LogOfInv(s, t);
      var e := es[0];
      Held(LogOf(s, t), e);
      AppendExact(LogOf(s, t), e);
      assert t in s && s[t := s[t]] == s;
      AppendHeld(s, t, es[1..]);
    }
  }

  /** A push of entries the server has is checked like any other, and changes nothing. */
  lemma PushHeld(s: Logs, t: string, p: string, batch: seq<Entry>, now: int)
    requires StoreInv(s) && LogOf(s, t).entries != [] && forall e :: e in batch ==> e in LogOf(s, t).entries
    ensures PushSpec(s, t, p, batch, now) == Pushed(s,
      if VisibleLanes(s, t, p, now) != []
         && (forall e :: e in batch ==> PushAllowed(Fold(t, LogOf(s, t).entries), t, p, e))
      then Some(|batch|) else None)
  {
    hide Inv, StoreInv, Ordered, Fold, AppendAll, PushAllowed, LogOf, VisibleLanes;
    var o := Ordered(batch, t);
    OrderedFacts(batch, t);
    forall e ensures e in o <==> e in batch {
      assert e in Elems(o) <==> e in Elems(batch);
    }
    AppendHeld(s, t, o);
  }

  /** A second round served the same lanes, exactly: it pulls nothing, offers again the caller's
      own entries in the lanes not served, and changes neither store.  It is accepted when the
      server's check still passes for them. */
  lemma SecondRoundExact(
    me: Identity, c: Logs, s: Logs, t: string, nowPull: int, nowPush: int, nowPull': int, nowPush': int)
    requires StoreInv(c) && StoreInv(s)
    requires var r := SyncSpec(me, c, s, t, nowPull, nowPush);
      && r.exchanged.Some?
      && VisibleLanes(r.server, t, me.principal, nowPull') == VisibleLanes(s, t, me.principal, nowPull)
    ensures var r := SyncSpec(me, c, s, t, nowPull, nowPush);
      var again := Reoffered(me, LogOf(r.client, t), VisibleLanes(s, t, me.principal, nowPull));
      var st := Fold(t, LogOf(r.server, t).entries);
      SyncSpec(me, r.client, r.server, t, nowPull', nowPush') == Round(r.client, r.server,
        if again == [] || (VisibleLanes(r.server, t, me.principal, nowPush') != []
                           && forall e :: e in again ==> PushAllowed(st, t, me.principal, e))
        then Some(|again|) else None)
  {
    hide Inv, Fold, StoreInv, PermittedHeads, LogOf, PushSpec, Offer, HeadSeqs, VisibleLanes, RoundFacts, MissingFrom,
         Reoffered, PushAllowed;
    var r, lanes := SyncSpec(me, c, s, t, nowPull, nowPush), VisibleLanes(s, t, me.principal, nowPull);
    ErrorFreeRound(me, c, s, t, nowPull, nowPush);
    var c', s' := LogOf(r.client, t), LogOf(r.server, t);
    NothingMissing(me, lanes, LogOf(c, t), LogOf(s, t), c', s');
    IngestNothing(r.client, t);
    ServedIsHeld(r.server, t, me.principal, nowPull');
    if me.self == "" || c'.entries == [] {
      NothingReoffered(me, c', lanes);
    } else {
      OfferAgain(me, lanes, LogOf(c, t), LogOf(s, t), c', s');
      PushHeld(r.server, t, me.principal, Reoffered(me, c', lanes), nowPush');
    }
  }

  lemma ServedIsHeld(s: Logs, t: string, p: string, now: int)
    requires VisibleLanes(s, t, p, now) != []
    ensures LogOf(s, t).entries != []
  {
    hide Fold, LogOf, Lanes;
  }

  lemma NothingReoffered(me: Identity, l: Log, lanes: seq<Lane>)
    requires me.self == "" || l.entries == []
    ensures Reoffered(me, l, lanes) == []
  {
  }

  /** Quiescence: after an error-free round with every lane served, a second round against
      the unchanged peer exchanges nothing and changes neither store. */
  lemma SecondRoundIsQuiet(
    me: Identity, c: Logs, s: Logs, t: string, nowPull: int, nowPush: int, nowPull': int, nowPush': int)
    requires StoreInv(c) && StoreInv(s)
    requires VisibleLanes(s, t, me.principal, nowPull) == ALL_LANES
    requires var r := SyncSpec(me, c, s, t, nowPull, nowPush);
      r.exchanged.Some? && VisibleLanes(r.server, t, me.principal, nowPull') == ALL_LANES
    ensures var r := SyncSpec(me, c, s, t, nowPull, nowPush);
      SyncSpec(me, r.client, r.server, t, nowPull', nowPush') == Round(r.client, r.server, Some(0))
  {
    hide Inv, Fold, StoreInv, LogOf, VisibleLanes, RoundFacts, SyncSpec, PushAllowed, OwnChain;
    var r := SyncSpec(me, c, s, t, nowPull, nowPush);
    SecondRoundExact(me, c, s, t, nowPull, nowPush, nowPull', nowPush');
    ErrorFreeRound(me, c, s, t, nowPull, nowPush);
    var l := LogOf(r.client, t);
    LogOfInv(r.client, t);
    forall e | e in l.entries ensures e.lane in ALL_LANES { BelowHead(l, e); }
    FilterNone(l.entries, Elsewhere(me, Fold(l.thread, l.entries).stewards, ALL_LANES));
  }

  lemma IngestNothing(c: Logs, t: string)
    ensures Ingest(c, t, []) == Ingested(c, true)
  {
    assert Ordered([], t) == [];
  }

  // ------------------------------------------------------------------ own chains arrive

  /** Before the round both sides held the chain to the same position, with different hashes. */
  predicate ForkedAtHead(c: Log, s: Log, k: ChainKey) {
    && k in c.heads && k in s.heads
    && c.heads[k].seqNo == s.heads[k].seqNo && c.heads[k].hash != s.heads[k].hash
  }

  lemma PulledHead(me: Identity, c: Log, s: Log, c': Log, s': Log, k: ChainKey)
    requires RoundFacts(me, ALL_LANES, c, s, c', s') && k.lane in ALL_LANES
    ensures SeqAt(HeadSeqs(c), k) < SeqAt(HeadSeqs(s), k) ==> k in c'.heads && k in s.heads && c'.heads[k] == s.heads[k]
    ensures SeqAt(HeadSeqs(c), k) >= SeqAt(HeadSeqs(s), k) ==> SameAt(c.heads, c'.heads, k)
  {
    hide Inv, Fold, MissingFrom, Offer, HeadSeqs, PermittedHeads, OwnChain;
    BatchMembers(s, ALL_LANES, HeadSeqs(c));
    SeqAtHead(c, k);
    SeqAtHead(s, k);
    SeqAtHead(c', k);
    HeadsHeld(s);
    HeadsHeld(c);
    HeadsHeld(c');
    if SeqAt(HeadSeqs(c), k) < SeqAt(HeadSeqs(s), k) {
      var h := s.heads[k].hash.entry;
      assert h in Elems(c'.entries);
      BelowHead(c', h);
      var g := c'.heads[k].hash.entry;
      assert g in Elems(c'.entries);
      if g in c.entries { BelowHead(c, g); } else { BelowHead(s, g); }
      HeldOnce(c', g, h);
    } else {
      var batch := MissingFrom(s, ALL_LANES, HeadSeqs(c));
      forall e | e in Elems(batch) && KeyOf(e) == k ensures e.seqNo <= SeqAt(HeadSeqs(c), k) {
        BelowHead(s, e);
      }
      SameHead(c, c', k, Elems(batch));
    }
  }

  /** Entries that stay below the head do not move it. */
  lemma SameHead(l: Log, m: Log, k: ChainKey, extra: set<Entry>)
    requires Inv(l) && Inv(m) && Elems(m.entries) == Elems(l.entries) + extra
    requires forall e :: e in extra && KeyOf(e) == k ==> e.seqNo <= SeqAt(HeadSeqs(l), k)
    ensures SameAt(l.heads, m.heads, k)
  {
    hide Inv;
    HeadsHeld(l);
    HeadsHeld(m);
    if k in l.heads {
      var h := l.heads[k].hash.entry;
      assert h in Elems(m.entries);
      BelowHead(m, h);
      var g := m.heads[k].hash.entry;
      assert g in Elems(m.entries);
      if g in l.entries { BelowHead(l, g); }
      HeldOnce(m, g, h);
    } else if k in m.heads {
      var g := m.heads[k].hash.entry;
      assert g in Elems(m.entries);
      if g in l.entries { BelowHead(l, g); }
    }
  }

  lemma OfferedHead(me: Identity, c: Log, s: Log, c': Log, s': Log, k: ChainKey)
    requires RoundFacts(me, ALL_LANES, c, s, c', s') && k.lane in ALL_LANES && me.self != ""
    requires OwnChain(me, Fold(c'.thread, c'.entries).stewards, k)
    ensures SeqAt(HeadSeqs(c'), k) > SeqAt(HeadSeqs(s), k) ==>
      k in c'.heads && k in s'.heads && s'.heads[k] == c'.heads[k]
    ensures SeqAt(HeadSeqs(c'), k) <= SeqAt(HeadSeqs(s), k) ==> SameAt(s.heads, s'.heads, k)
  {
    hide Inv, Fold, MissingFrom, Offer, HeadSeqs, PermittedHeads, OwnChain;
    var peer := PermittedHeads(s, ALL_LANES);
    OfferMembers(me, c', peer);
    SeqAtHead(s, k);
    SeqAtHead(c', k);
    SeqAtHead(s', k);
    HeadsHeld(s);
    HeadsHeld(c');
    HeadsHeld(s');
    if SeqAt(HeadSeqs(c'), k) > SeqAt(HeadSeqs(s), k) {
      var h := c'.heads[k].hash.entry;
      assert h in Offer(me, c', peer) && h in Elems(s'.entries);
      BelowHead(s', h);
      var g := s'.heads[k].hash.entry;
      assert g in Elems(s'.entries);
      if g in s.entries { BelowHead(s, g); } else { BelowHead(c', g); }
      HeldOnce(s', g, h);
    } else {
      forall e | e in Elems(Offer(me, c', peer)) && KeyOf(e) == k ensures e.seqNo <= SeqAt(HeadSeqs(s), k) {
        BelowHead(c', e);
      }
      SameHead(s, s', k, Elems(Offer(me, c', peer)));
    }
  }

  /** After an error-free round with every lane served, the peer's head of every chain of the
      caller or of one of its agent keys (the control chain only if its author is a steward
      after the pull) is at the caller's position; it holds that chain entry for entry exactly
      when the two were not already forked at equal heads, the one divergence that a round does
      not report. */
  lemma OwnChainsArrive(me: Identity, c: Logs, s: Logs, t: string, nowPull: int, nowPush: int, k: ChainKey)
    requires StoreInv(c) && StoreInv(s) && me.self != ""
    requires VisibleLanes(s, t, me.principal, nowPull) == ALL_LANES
    requires var r := SyncSpec(me, c, s, t, nowPull, nowPush);
      && r.exchanged.Some?
      && k in LogOf(r.client, t).heads
      && (k.author == me.self || k.author in me.selfKeys)
      && (k.lane == LaneControl ==> k.author in Fold(t, LogOf(r.client, t).entries).stewards)
    ensures var r := SyncSpec(me, c, s, t, nowPull, nowPush);
      var mine, theirs := LogOf(r.client, t), LogOf(r.server, t);
      && k in theirs.heads && theirs.heads[k].seqNo == mine.heads[k].seqNo
      && (Chain(theirs, k) == Chain(mine, k) <==> !ForkedAtHead(LogOf(c, t), LogOf(s, t), k))
  {
    hide Inv, Fold, StoreInv, PermittedHeads, LogOf, Offer, HeadSeqs, VisibleLanes, MissingFrom, SyncSpec, Chain,
         OwnChain;
    ErrorFreeRound(me, c, s, t, nowPull, nowPush);
    var r := SyncSpec(me, c, s, t, nowPull, nowPush);
    var cl, sl, mine, theirs := LogOf(c, t), LogOf(s, t), LogOf(r.client, t), LogOf(r.server, t);
    LogOfInv(r.client, t);
    HeadsHeld(mine);
    BelowHead(mine, mine.heads[k].hash.entry);
    SeqAtHead(cl, k);
    SeqAtHead(sl, k);
    SeqAtHead(mine, k);
    SeqAtHead(theirs, k);
    OwnChainIs(me, Fold(t, mine.entries).stewards, k);
    PulledHead(me, cl, sl, mine, theirs, k);
    OfferedHead(me, cl, sl, mine, theirs, k);
    HeadsDetermineHistory(theirs, mine, k);
  }

  lemma OwnChainIs(me: Identity, stewards: set<string>, k: ChainKey)
    ensures OwnChain(me, stewards, k) <==>
      (k.author == me.self || k.author in me.selfKeys) && (k.lane == LaneControl ==> k.author in stewards)
  {
  }

  /** And nothing else arrives: whatever is new on the peer after an error-free round is by the
      caller or one of its agent keys, and in the control lane by a steward. */
  lemma NothingElseArrives(me: Identity, c: Logs, s: Logs, t: string, nowPull: int, nowPush: int, e: Entry)
    requires StoreInv(c) && StoreInv(s)
    requires var r := SyncSpec(me, c, s, t, nowPull, nowPush);
      r.exchanged.Some? && e in LogOf(r.server, t).entries && e !in LogOf(s, t).entries
    ensures var r := SyncSpec(me, c, s, t, nowPull, nowPush);
      && me.self != "" && e in LogOf(r.client, t).entries
      && (e.author == me.self || e.author in me.selfKeys)
      && (e.lane == LaneControl ==> e.author in Fold(t, LogOf(r.client, t).entries).stewards)
  {
    hide Inv, Fold, StoreInv, PermittedHeads, LogOf, Offer, HeadSeqs, VisibleLanes, MissingFrom, SyncSpec, OwnChain;
    ErrorFreeRound(me, c, s, t, nowPull, nowPush);
    var r := SyncSpec(me, c, s, t, nowPull, nowPush);
    var mine := LogOf(r.client, t);
    LogOfInv(r.client, t);
    OfferMembers(me, mine, PermittedHeads(LogOf(s, t), VisibleLanes(s, t, me.principal, nowPull)));
    assert e in Elems(LogOf(r.server, t).entries) && e !in Elems(LogOf(s, t).entries);
    OwnChainIs(me, Fold(t, mine.entries).stewards, KeyOf(e));
  }

  // ------------------------------------------------------------------ what is counted

  lemma {:induction false} ElemsSize(es: seq<Entry>)
    requires NoDuplicates(es)
    ensures |Elems(es)| == |es|
    decreases |es|
  {
    if es != [] {
      var front, last := es[..|es| - 1], es[|es| - 1];
      ElemsSize(front);
      assert Elems(es) == Elems(front) + {last};
      assert last !in Elems(front);
    }
  }

  lemma Added(l: Log, m: Log, batch: seq<Entry>)
    requires Inv(l) && Inv(m) && NoDuplicates(batch) && Elems(m.entries) == Elems(l.entries) + Elems(batch)
    requires forall e :: e in batch ==> e !in l.entries
    ensures |m.entries| == |l.entries| + |batch|
  {
    hide Inv;
    LogInOrder(l);
    LogInOrder(m);
    InOrderDistinct(l.entries);
    InOrderDistinct(m.entries);
    ElemsSize(l.entries);
    ElemsSize(m.entries);
    ElemsSize(batch);
    assert Elems(l.entries) !! Elems(batch);
  }

  /** The count of an error-free round served all lanes is what the two logs grew by. */
  lemma RoundCounts(me: Identity, c: Logs, s: Logs, t: string, nowPull: int, nowPush: int)
    requires StoreInv(c) && StoreInv(s)
    requires VisibleLanes(s, t, me.principal, nowPull) == ALL_LANES
    requires SyncSpec(me, c, s, t, nowPull, nowPush).exchanged.Some?
    ensures var r := SyncSpec(me, c, s, t, nowPull, nowPush);
      r.exchanged.value == (|LogOf(r.client, t).entries| - |LogOf(c, t).entries|)
                         + (|LogOf(r.server, t).entries| - |LogOf(s, t).entries|)
  {
    hide Inv, Fold, StoreInv, PermittedHeads, LogOf, Offer, HeadSeqs, VisibleLanes, MissingFrom, Ingest, PushSpec;
    ErrorFreeRound(me, c, s, t, nowPull, nowPush);
    var r := SyncSpec(me, c, s, t, nowPull, nowPush);
    var cl, sl, mine, theirs := LogOf(c, t), LogOf(s, t), LogOf(r.client, t), LogOf(r.server, t);
    var batch, peer := MissingFrom(sl, ALL_LANES, HeadSeqs(cl)), PermittedHeads(sl, ALL_LANES);
    LogOfInv(c, t);
    LogOfInv(s, t);
    PulledIsNew(cl, sl);
    Added(cl, mine, batch);
    var offer := if me.self == "" then [] else Offer(me, mine, peer);
    assert Elems([]) == {};
    OfferedIsNew(me, mine, sl);
    Added(sl, theirs, offer);
    CountIs(me, c, s, t, nowPull, nowPush);
  }

  lemma PulledIsNew(c: Log, s: Log)
    requires Inv(c) && Inv(s)
    ensures var batch := MissingFrom(s, ALL_LANES, HeadSeqs(c));
      NoDuplicates(batch) && forall e :: e in batch ==> e !in c.entries
  {
    hide Inv, HeadSeqs;
    LogInOrder(s);
    InOrderDistinct(s.entries);
    FilterNoDuplicates(s.entries, PermittedPast(ALL_LANES, HeadSeqs(c)));
    BatchMembers(s, ALL_LANES, HeadSeqs(c));
    forall e | e in c.entries ensures e.seqNo <= SeqAt(HeadSeqs(c), KeyOf(e)) { BelowHead(c, e); }
  }

  lemma OfferedIsNew(me: Identity, l: Log, s: Log)
    requires Inv(l) && Inv(s)
    ensures var offer := Offer(me, l, PermittedHeads(s, ALL_LANES));
      NoDuplicates(offer) && forall e :: e in offer ==> e !in s.entries
  {
    hide Inv, Fold, HeadSeqs, PermittedHeads, OwnChain;
    var peer := PermittedHeads(s, ALL_LANES);
    LogInOrder(l);
    InOrderDistinct(l.entries);
    FilterNoDuplicates(l.entries, OwnPast(me, Fold(l.thread, l.entries).stewards, peer));
    OfferMembers(me, l, peer);
    forall e | e in s.entries ensures e.seqNo <= SeqAt(peer, KeyOf(e)) { BelowHead(s, e); }
  }

  lemma CountIs(me: Identity, c: Logs, s: Logs, t: string, nowPull: int, nowPush: int)
    requires VisibleLanes(s, t, me.principal, nowPull) == ALL_LANES
    requires SyncSpec(me, c, s, t, nowPull, nowPush).exchanged.Some?
    ensures var r := SyncSpec(me, c, s, t, nowPull, nowPush);
      var offer := if me.self == "" then []
                   else Offer(me, LogOf(r.client, t), PermittedHeads(LogOf(s, t), ALL_LANES));
      r.exchanged.value == |MissingFrom(LogOf(s, t), ALL_LANES, HeadSeqs(LogOf(c, t)))| + |offer|
  {
    hide Fold, PermittedHeads, LogOf, HeadSeqs, VisibleLanes, MissingFrom, Ingest, Offer, PushSpec;
    var i := Ingest(c, t, MissingFrom(LogOf(s, t), ALL_LANES, HeadSeqs(LogOf(c, t))));
    var peer := PermittedHeads(LogOf(s, t), ALL_LANES);
    EmptyOffersNothing(me, LogOf(i.logs, t), peer);
    PushCounts(s, t, me.principal, Offer(me, LogOf(i.logs, t), peer), nowPush);
  }

  lemma EmptyOffersNothing(me: Identity, l: Log, peer: Vector)
    ensures l.entries == [] ==> Offer(me, l, peer) == []
  {
    hide Fold, OwnPast;
  }

  lemma PushCounts(s: Logs, t: string, p: string, batch: seq<Entry>, now: int)
    ensures PushSpec(s, t, p, batch, now).accepted.Some? ==> PushSpec(s, t, p, batch, now).accepted.value == |batch|
  {
    hide Fold, LogOf, VisibleLanes, Ordered, AppendAll, PushAllowed;
    OrderedFacts(batch, t);
  }

  // ------------------------------------------------------------------ a silent fork

  const FORKER := "ed25519:A"

  const FORK_ROOT := GenesisEntry(FORKER, "", false, "T", None)

  function FirstMessage(id: string): Entry {
    Entry(0, id, "T", KindMessage, LaneContent, FORKER, "", 1, 2, GenesisPrev, None, OtherBody(id), Some(FORKER), "")
  }

  /** A thread whose founder has written one message. */
  function OneMessageLog(id: string): Log {
    Insert(Insert(EmptyLog("T"), FORK_ROOT), FirstMessage(id))
  }

  lemma OneMessageLogInv(id: string)
    requires id != "T"
    ensures var l := OneMessageLog(id);
      && Inv(l) && l.thread == "T" && Elems(l.entries) == {FORK_ROOT, FirstMessage(id)}
      && l.heads == map[KeyOf(FORK_ROOT) := ChainHead(1, HashOf(FORK_ROOT)),
                        KeyOf(FirstMessage(id)) := ChainHead(1, HashOf(FirstMessage(id)))]
  {
    hide Inv, InsertAt, Position;
    var l0, l1 := EmptyLog("T"), Insert(EmptyLog("T"), FORK_ROOT);
    EmptyLogInv("T");
    AppendExact(l0, FORK_ROOT);
    assert Append(l0, FORK_ROOT) == Admitted(l1);
    AppendExact(l1, FirstMessage(id));
    assert Append(l1, FirstMessage(id)) == Admitted(OneMessageLog(id));
    assert Elems(l0.entries) == {};
  }

  lemma FounderSeesAll(id: string)
    requires id != "T"
    ensures VisibleLanes(map["T" := OneMessageLog(id)], "T", FORKER, 0) == ALL_LANES
  {
    hide Inv;
    OneMessageLogInv(id);
    var l := OneMessageLog(id);
    assert FORK_ROOT in Elems(l.entries) && FirstMessage(id) in Elems(l.entries);
    FoldOfOneMessage(l, id);
  }

  lemma FoldOfOneMessage(l: Log, id: string)
    requires Inv(l) && Elems(l.entries) == {FORK_ROOT, FirstMessage(id)}
    ensures FORKER in Fold("T", l.entries).stewards && FORKER !in Fold("T", l.entries).delegations
  {
    hide Inv;
    FoldReadsControlOnly("T", l.entries);
    FilterMembers(l.entries, OnControl());
    var f := Filter(l.entries, OnControl());
    assert FORK_ROOT in Elems(l.entries);
    assert f == [FORK_ROOT] by { OnlyRoot(l, f, id); }
    assert f[..0] == [] && Fold("T", []) == INITIAL;
    assert FORKER in NamedStewards(FORK_ROOT);
  }

  lemma OnlyRoot(l: Log, f: seq<Entry>, id: string)
    requires Inv(l) && Elems(l.entries) == {FORK_ROOT, FirstMessage(id)} && f == Filter(l.entries, OnControl())
    ensures f == [FORK_ROOT]
  {
    hide ChainSet, HeadsOf, IndexOf, ClockOf;
    FilterMembers(l.entries, OnControl());
    FilterInOrder(l.entries, OnControl());
    forall e ensures e in f <==> e == FORK_ROOT {
      assert e in l.entries <==> e in Elems(l.entries);
    }
    assert Elems(f) == {FORK_ROOT} == Elems([FORK_ROOT]);
    InOrderUnique(f, [FORK_ROOT]);
  }

  /** The case that `OwnChainsArrive` excludes does happen: two copies whose founder wrote a
      different first message on each sync without error, exchange nothing, and stay apart. */
  lemma EqualForkIsSilent()
    ensures var c, s := map["T" := OneMessageLog("X")], map["T" := OneMessageLog("Y")];
      var me := Identity(FORKER, {}, FORKER);
      && StoreInv(c) && StoreInv(s)
      && SyncSpec(me, c, s, "T", 0, 0) == Round(c, s, Some(0))
      && ForkedAtHead(LogOf(c, "T"), LogOf(s, "T"), KeyOf(FirstMessage("X")))
      && Chain(LogOf(c, "T"), KeyOf(FirstMessage("X"))) != Chain(LogOf(s, "T"), KeyOf(FirstMessage("X")))
  {
    hide Inv, Fold, Ingest, VisibleLanes, OneMessageLog, Chain, Offer, MissingFrom;
    var c, s := map["T" := OneMessageLog("X")], map["T" := OneMessageLog("Y")];
    var me := Identity(FORKER, {}, FORKER);
    OneMessageLogInv("X");
    OneMessageLogInv("Y");
    FounderSeesAll("Y");
    var cl, sl := OneMessageLog("X"), OneMessageLog("Y");
    forall e | e in sl.entries ensures e.seqNo <= SeqAt(HeadSeqs(cl), KeyOf(e)) { assert e in Elems(sl.entries); }
    NoneMissing(sl, ALL_LANES, HeadSeqs(cl));
    IngestNothing(c, "T");
    forall e | e in cl.entries ensures e.seqNo <= SeqAt(PermittedHeads(sl, ALL_LANES), KeyOf(e)) {
      assert e in Elems(cl.entries);
    }
    NoneOffered(me, cl, PermittedHeads(sl, ALL_LANES));
    assert FirstMessage("X").body.text != FirstMessage("Y").body.text;
    HeadsDetermineHistory(cl, sl, KeyOf(FirstMessage("X")));
  }
}
