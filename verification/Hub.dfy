/** Any number of writers syncing through one server. */
module Hub {
  import opened Entries
  import opened ThreadLogs
  import opened Stores
  import opened Sync
  import opened SyncLaws
  import opened Rounds
  import opened TwoWay

  /** Everyone's copy of the thread. */
  datatype State = State(writers: map<string, Logs>, server: Logs)

  /** One writer syncs with the server. */
  datatype Turn = Turn(who: string, nowPull: int, nowPush: int)

  function Play(ids: map<string, Identity>, t: string, h: State, n: Turn): State {
    if n.who !in h.writers || n.who !in ids then h
    else
      var r := SyncSpec(ids[n.who], h.writers[n.who], h.server, t, n.nowPull, n.nowPush);
      State(h.writers[n.who := r.client], r.server)
  }

  function PlayAll(ids: map<string, Identity>, t: string, h: State, turns: seq<Turn>): State {
    if turns == [] then h else Play(ids, t, PlayAll(ids, t, h, turns[..|turns| - 1]), turns[|turns| - 1])
  }

  /** The writer is known and served all lanes, the round is free of error, and what the
      writer has that the server lacks is its own. */
  ghost predicate GoodTurn(ids: map<string, Identity>, t: string, h: State, n: Turn) {
    && n.who in h.writers && n.who in ids
    && VisibleLanes(h.server, t, ids[n.who].principal, n.nowPull) == ALL_LANES
    && var r := SyncSpec(ids[n.who], h.writers[n.who], h.server, t, n.nowPull, n.nowPush);
       r.exchanged.Some? && NewsIsOwn(ids[n.who], LogOf(h.writers[n.who], t), LogOf(h.server, t), LogOf(r.client, t))
  }

  ghost predicate GoodTurns(ids: map<string, Identity>, t: string, h: State, turns: seq<Turn>) {
    forall i :: 0 <= i < |turns| ==> GoodTurn(ids, t, PlayAll(ids, t, h, turns[..i]), turns[i])
  }

  ghost predicate Valid(h: State) {
    StoreInv(h.server) && forall w :: w in h.writers ==> StoreInv(h.writers[w])
  }

  /** All entries of the thread that anyone has. */
  ghost function Everything(h: State, t: string): set<Entry> {
    Elems(LogOf(h.server, t).entries) + set w, e | w in h.writers && e in LogOf(h.writers[w], t).entries :: e
  }

  ghost predicate InServer(h: State, t: string, w: string) {
    w in h.writers ==> Elems(LogOf(h.writers[w], t).entries) <= Elems(LogOf(h.server, t).entries)
  }

  lemma HeldSomewhere(h: State, t: string, w: string)
    requires w in h.writers
    ensures Elems(LogOf(h.writers[w], t).entries) <= Everything(h, t)
  {
    hide LogOf;
  }

  lemma NeverForked(h: State, t: string, w: string)
    requires w in h.writers && OnePerSlot(Everything(h, t))
    ensures NoFork(LogOf(h.writers[w], t), LogOf(h.server, t), ALL_LANES)
  {
    hide LogOf, Everything;
    var c, s := LogOf(h.writers[w], t), LogOf(h.server, t);
    HeldSomewhere(h, t, w);
    assert Elems(s.entries) <= Everything(h, t) by { ServerIsPart(h, t); }
    forall e, f | e in c.entries && f in s.entries && e.lane in ALL_LANES && SameSlot(e, f) ensures e == f {
      assert e in Elems(c.entries) && f in Elems(s.entries);
    }
  }

  lemma ServerIsPart(h: State, t: string)
    ensures Elems(LogOf(h.server, t).entries) <= Everything(h, t)
  {
    hide LogOf;
  }

  /** One turn: the writer and the server then hold one log, the union of theirs; everyone else
      is untouched and nothing is lost or made up. */
  lemma TurnStep(ids: map<string, Identity>, t: string, h: State, n: Turn)
    requires Valid(h) && OnePerSlot(Everything(h, t)) && GoodTurn(ids, t, h, n)
    ensures var v := Play(ids, t, h, n);
      && Valid(v) && v.writers.Keys == h.writers.Keys
      && (forall w :: w in h.writers && w != n.who ==> v.writers[w] == h.writers[w])
      && LogOf(v.writers[n.who], t) == LogOf(v.server, t)
      && Elems(LogOf(v.server, t).entries) ==
           Elems(LogOf(h.writers[n.who], t).entries) + Elems(LogOf(h.server, t).entries)
  {
    hide LogOf, SyncSpec, VisibleLanes, StoreInv, NewsIsOwn, NoFork, OnePerSlot, Everything;
    NeverForked(h, t, n.who);
    RoundMerges(ids[n.who], h.writers[n.who], h.server, t, n.nowPull, n.nowPush);
  }

  lemma TurnKeepsAll(t: string, h: State, v: State, who: string)
    requires who in h.writers && v.writers.Keys == h.writers.Keys
    requires forall w :: w in h.writers && w != who ==> v.writers[w] == h.writers[w]
    requires LogOf(v.writers[who], t) == LogOf(v.server, t)
    requires Elems(LogOf(v.server, t).entries) ==
      Elems(LogOf(h.writers[who], t).entries) + Elems(LogOf(h.server, t).entries)
    ensures Everything(v, t) == Everything(h, t)
    ensures InServer(v, t, who) && forall w :: InServer(h, t, w) ==> InServer(v, t, w)
  {
    hide LogOf;
    forall e ensures e in Everything(v, t) <==> e in Everything(h, t) {
      if e in Everything(v, t) {
        if e in Elems(LogOf(v.server, t).entries) {
          HeldSomewhere(h, t, who);
        } else {
          var w :| w in v.writers && e in LogOf(v.writers[w], t).entries;
          assert w == who ==> e in Elems(LogOf(v.server, t).entries);
        }
      }
      if e in Everything(h, t) && e !in Elems(LogOf(h.server, t).entries) {
        var w :| w in h.writers && e in LogOf(h.writers[w], t).entries;
        assert w == who ==> e in Elems(LogOf(h.writers[who], t).entries);
        assert w != who ==> e in LogOf(v.writers[w], t).entries;
      }
    }
  }

  lemma PlayOne(ids: map<string, Identity>, t: string, h: State, turns: seq<Turn>, k: nat)
    requires 0 < k <= |turns|
    ensures PlayAll(ids, t, h, turns[..k]) == Play(ids, t, PlayAll(ids, t, h, turns[..k - 1]), turns[k - 1])
  {
    hide Play;
    assert turns[..k][..k - 1] == turns[..k - 1] && turns[..k][k - 1] == turns[k - 1];
  }

  /** After `k` turns: nothing was lost or made up, and whoever had a turn is in the server. */
  lemma {:induction false} AfterTurns(ids: map<string, Identity>, t: string, h: State, turns: seq<Turn>, k: nat)
    requires Valid(h) && OnePerSlot(Everything(h, t)) && GoodTurns(ids, t, h, turns) && k <= |turns|
    ensures var v := PlayAll(ids, t, h, turns[..k]);
      && Valid(v) && v.writers.Keys == h.writers.Keys && Everything(v, t) == Everything(h, t)
      && (forall i :: 0 <= i < k ==> InServer(v, t, turns[i].who))
      && (k > 0 ==> GoodTurn(ids, t, PlayAll(ids, t, h, turns[..k - 1]), turns[k - 1]))
    decreases k
  {
    hide Play, GoodTurn, Valid, OnePerSlot, Everything, InServer;
    if k > 0 {
      AfterTurns(ids, t, h, turns, k - 1);
      PlayOne(ids, t, h, turns, k);
      var u := PlayAll(ids, t, h, turns[..k - 1]);
      TurnStep(ids, t, u, turns[k - 1]);
      GoodTurnKnown(ids, t, u, turns[k - 1]);
      TurnKeepsAll(t, u, Play(ids, t, u, turns[k - 1]), turns[k - 1].who);
    }
  }

  lemma GoodTurnKnown(ids: map<string, Identity>, t: string, h: State, n: Turn)
    requires GoodTurn(ids, t, h, n)
    ensures n.who in h.writers
  {
  }

  /** Every writer has a turn among those numbered from `lo` up to `hi`. */
  ghost predicate AllHadTurn(h: State, turns: seq<Turn>, lo: nat, hi: nat) {
    forall w :: w in h.writers ==> exists i: nat :: lo <= i < hi && i < |turns| && turns[i].who == w
  }

  lemma AllInServer(h: State, t: string)
    requires forall w :: w in h.writers ==> InServer(h, t, w)
    ensures Elems(LogOf(h.server, t).entries) == Everything(h, t)
  {
    hide LogOf;
    forall w, e | w in h.writers && e in LogOf(h.writers[w], t).entries ensures e in Elems(LogOf(h.server, t).entries) {
      assert InServer(h, t, w) && e in Elems(LogOf(h.writers[w], t).entries);
    }
  }

  /** Once everyone has had a turn, the server has everything. */
  lemma ServerComplete(ids: map<string, Identity>, t: string, h: State, turns: seq<Turn>, n: nat, k: nat)
    requires Valid(h) && OnePerSlot(Everything(h, t)) && GoodTurns(ids, t, h, turns) && n <= k <= |turns|
    requires AllHadTurn(h, turns, 0, n)
    ensures Elems(LogOf(PlayAll(ids, t, h, turns[..k]).server, t).entries) == Everything(h, t)
  {
    hide Play, GoodTurn, Valid, OnePerSlot, Everything, InServer, PlayAll;
    AfterTurns(ids, t, h, turns, k);
    var v := PlayAll(ids, t, h, turns[..k]);
    forall w | w in v.writers ensures InServer(v, t, w) {
      var i: nat :| i < n && i < |turns| && turns[i].who == w;
      assert InServer(v, t, turns[i].who);
    }
    AllInServer(v, t);
  }

  ghost predicate Settled(h: State, t: string, w: string) {
    w in h.writers && LogOf(h.writers[w], t) == LogOf(h.server, t)
  }

  lemma StaysSettled(t: string, u: State, v: State, who: string)
    requires who in u.writers && v.writers.Keys == u.writers.Keys
    requires forall w :: w in u.writers && w != who ==> v.writers[w] == u.writers[w]
    requires LogOf(v.writers[who], t) == LogOf(v.server, t) == LogOf(u.server, t)
    ensures Settled(v, t, who) && forall w :: Settled(u, t, w) ==> Settled(v, t, w)
  {
    hide LogOf;
  }

  /** From then on, a turn settles its writer for good. */
  lemma {:induction false} TurnsSettle(
    ids: map<string, Identity>, t: string, h: State, turns: seq<Turn>, n: nat, k: nat)
    requires Valid(h) && OnePerSlot(Everything(h, t)) && GoodTurns(ids, t, h, turns) && n <= k <= |turns|
    requires AllHadTurn(h, turns, 0, n)
    ensures forall i :: n <= i < k ==> Settled(PlayAll(ids, t, h, turns[..k]), t, turns[i].who)
    decreases k
  {
    hide Play, GoodTurn, Valid, OnePerSlot, Everything, AllHadTurn, InServer, PlayAll, Settled;
    if k > n {
      var x := turns[k - 1];
      var u := PlayAll(ids, t, h, turns[..k - 1]);
      var v := Play(ids, t, u, x);
      PlayOne(ids, t, h, turns, k);
      TurnsSettle(ids, t, h, turns, n, k - 1);
      AfterTurns(ids, t, h, turns, k - 1);
      AfterTurns(ids, t, h, turns, k);
      GoodTurnKnown(ids, t, u, x);
      TurnStep(ids, t, u, x);
      ServerComplete(ids, t, h, turns, n, k - 1);
      ServerComplete(ids, t, h, turns, n, k);
      SameServerLog(t, u, v);
      StaysSettled(t, u, v, x.who);
    }
  }

  lemma SameServerLog(t: string, u: State, v: State)
    requires Valid(u) && Valid(v)
    requires Elems(LogOf(u.server, t).entries) == Elems(LogOf(v.server, t).entries)
    ensures LogOf(u.server, t) == LogOf(v.server, t)
  {
    hide LogOf, Inv, StoreInv;
    LogOfInv(u.server, t);
    LogOfInv(v.server, t);
    LogDetermined(LogOf(u.server, t), LogOf(v.server, t));
  }

  /** Convergence through one server, for any number of writers and any sequence of error-free
      rounds served all lanes: if nobody ever wrote two different entries at one chain position,
      then once every writer has had a turn, and another after that, all of them and the server
      hold one log, and it holds everything that anyone began with. */
  lemma EveryoneConverges(ids: map<string, Identity>, t: string, h: State, turns: seq<Turn>, n: nat)
    requires Valid(h) && OnePerSlot(Everything(h, t)) && GoodTurns(ids, t, h, turns) && n <= |turns|
    requires AllHadTurn(h, turns, 0, n) && AllHadTurn(h, turns, n, |turns|)
    ensures var v := PlayAll(ids, t, h, turns);
      && v.writers.Keys == h.writers.Keys
      && (forall w :: w in v.writers ==> LogOf(v.writers[w], t) == LogOf(v.server, t))
      && Elems(LogOf(v.server, t).entries) == Everything(h, t)
  {
    hide Valid, OnePerSlot, Everything, GoodTurns, InServer, PlayAll;
    assert turns[..|turns|] == turns;
    AfterTurns(ids, t, h, turns, |turns|);
    ServerComplete(ids, t, h, turns, n, |turns|);
    TurnsSettle(ids, t, h, turns, n, |turns|);
    var v := PlayAll(ids, t, h, turns);
    forall w | w in v.writers ensures LogOf(v.writers[w], t) == LogOf(v.server, t) {
      var i: nat :| n <= i < |turns| && turns[i].who == w;
      assert Settled(v, t, turns[i].who);
    }
  }
}
