/** Who is served what, and what is let in, told from the entries of the server's log. */
module Served {
  import opened Entries
  import opened ThreadLogs
  import opened Perm
  import opened PermLaws
  import opened PermWindows
  import opened Requests
  import opened Scopes
  import opened Stores
  import opened Sync
  import opened SyncLaws
  import opened ServerRuns
  import opened Confinement

  /** The entries of a log are what the laws of the fold ask for. */
  lemma LogIsAuthored(l: Log)
    requires Inv(l)
    ensures Clocked(l.entries) && Authored(l.entries)
  {
    hide Inv, Clocked;
    LogIsClocked(l);
    forall i | 0 <= i < |l.entries| ensures l.entries[i].author != "" {
      Held(l, l.entries[i]);
    }
  }

  /** The grant in force for `h`, not run out at `now`. */
  ghost predicate GrantInForce(t: string, es: seq<Entry>, i: nat, h: string, now: int) {
    && LastWin(t, es, i, h) && Stamps(t, es, i, h)
    && (es[i].body.ttlSeconds <= 0 || now <= EndOf(es[i]))
  }

  /** What a holder of these scopes is sent: the control lane; summaries with read or summary;
      content with read. */
  predicate SentTo(scopes: seq<string>, e: Entry) {
    || e.lane == LaneControl
    || (e.lane == LaneSummary && ("read" in scopes || "summary" in scopes))
    || (e.lane == LaneContent && "read" in scopes)
  }

  lemma LanesByScopes(ss: ScopeSet, lane: Lane)
    requires ss != {} && LaneValid(lane)
    ensures lane in LanesOf(ss) <==>
      || lane == LaneControl
      || (lane == LaneSummary && ("read" in ss || "summary" in ss))
      || (lane == LaneContent && "read" in ss)
  {
  }

  lemma NoScopesNoLanes(ss: ScopeSet)
    ensures LanesOf(ss) == [] <==> ss == {}
  {
  }

  /** Pull, told from the entries, for a caller judged as `h`.  A steward is sent every entry
      past its heads.  With a grant in force, a caller is sent the control entries past its
      heads, and of the other lanes what the grant names.  Without a winning grant, or when its
      time limit has passed, the thread is not found. */
  lemma ServedExactly(s: Logs, t: string, p: string, h: string, now: int, have: Vector)
    requires StoreInv(s) && LogOf(s, t).entries != [] && JudgedAs(t, LogOf(s, t).entries, p, h)
    ensures var es, st := LogOf(s, t).entries, Fold(t, LogOf(s, t).entries);
      var lanes := VisibleLanes(s, t, p, now);
      && (h in st.stewards ==>
            && lanes != []
            && forall e :: e in MissingFrom(LogOf(s, t), lanes, have) <==> e in es && e.seqNo > SeqAt(have, KeyOf(e)))
      && (h !in st.stewards ==>
            && ((forall i: nat :: !LastWin(t, es, i, h)) ==> lanes == [])
            && (forall i: nat :: LastWin(t, es, i, h) && Stamps(t, es, i, h) ==>
                  (lanes != [] <==> GrantInForce(t, es, i, h, now)))
            && (forall i: nat :: GrantInForce(t, es, i, h, now) ==>
                  forall e :: e in MissingFrom(LogOf(s, t), lanes, have) <==>
                    e in es && e.seqNo > SeqAt(have, KeyOf(e)) && SentTo(es[i].body.scopes, e)))
  {
    hide Inv, Fold, StoreInv, LogOf, LastWin, JudgedAs, EffectiveScopes, LanesOf, Before, Relevant, Authorised,
         MissingFrom, GrantedScopes, Clocked;
    var l := LogOf(s, t);
    var es, st, lanes := l.entries, Fold(t, l.entries), VisibleLanes(s, t, p, now);
    LogOfInv(s, t);
    LogIsAuthored(l);
    ScopesOverTime(t, es, p, h, now);
    BatchMembers(l, lanes, have);
    var held := EffectiveScopes(st, p, now);
    NoScopesNoLanes(held);
    forall e | e in es ensures LaneValid(e.lane) { Held(l, e); }
    if held != {} {
      forall e | e in es
        ensures e.lane in lanes <==>
          || e.lane == LaneControl
          || (e.lane == LaneSummary && ("read" in held || "summary" in held))
          || (e.lane == LaneContent && "read" in held)
      {
        LanesByScopes(held, e.lane);
      }
    }
    forall i: nat | LastWin(t, es, i, h) && Stamps(t, es, i, h)
      ensures GrantedScopes(es[i]) != {}
      ensures forall x :: x in GrantedScopes(es[i]) <==>
        x in es[i].body.scopes && (x == "contribute" || x == "read" || x == "summary" || x == "search")
    {
      GrantGivesNamed(es[i], h);
    }
  }

  // ------------------------------------------------------------------ what a push may bring

  /** The check on a pushed entry, told from the entries: it names the thread; its author is the
      caller or a key the caller last bound; and in the control lane the author is a steward, in
      the other two the person it is judged as is one or the clock is in that person's window. */
  lemma PushCheckExact(l: Log, q: string, e: Entry, h: string)
    requires Inv(l) && q != "" && JudgedAs(l.thread, l.entries, e.author, h)
    ensures var t, es := l.thread, l.entries; var st := Fold(t, es);
      PushAllowed(st, t, q, e) <==>
        && e.thread == t
        && (e.author == q || exists i: nat :: BoundBy(t, es, i, e.author) && es[i].author == q)
        && (e.lane == LaneControl || e.lane == LaneSummary || e.lane == LaneContent)
        && (e.lane == LaneControl ==> e.author in st.stewards)
        && (e.lane != LaneControl ==>
              || h in st.stewards
              || exists i: nat ::
                   && FirstContribute(t, es, i, h) && es[i].lamport <= e.lamport
                   && (DeniedBelow(t, es, h, es[i].lamport) || !DeniedBelow(t, es, h, e.lamport + 1)))
  {
    hide Inv, Fold, BoundBy, JudgedAs, FirstContribute, DeniedBelow, MayContribute, ActsFor, Clocked, Authored;
    LogIsAuthored(l);
    ActsForExact(l.thread, l.entries, e.author, q);
    MayContributeExact(l.thread, l.entries, e.author, h, e.lamport);
  }

  // ------------------------------------------------------------------ whose request is stored

  /** The last thread entry says the thread may be found. */
  ghost predicate ToldDiscoverable(t: string, es: seq<Entry>) {
    exists i: nat :: LastTold(t, es, i) && es[i].body.discoverable
  }

  lemma DiscoverableExact(t: string, es: seq<Entry>)
    ensures Fold(t, es).discoverable <==> ToldDiscoverable(t, es)
  {
    hide Fold, LastTold;
    ThreadClosedForm(t, es);
  }

  /** A submitted entry is stored exactly when the thread is known, and told to be discoverable
      or visible to the caller then; it is an access request in the control lane; its author is
      the caller or a key the caller last bound; and the log admits it.  Otherwise the store
      stays as it was. */
  lemma RequestStoredExactly(s: Logs, t: string, p: string, e: Entry, now: int)
    requires StoreInv(s) && e.thread == t && p != "" && e !in LogOf(s, t).entries
    ensures var es, r := LogOf(s, t).entries, Do(s, t, RequestCall(p, e, now));
      && (e in LogOf(r, t).entries <==>
            && es != [] && (ToldDiscoverable(t, es) || VisibleLanes(s, t, p, now) != [])
            && e.kind == KindAccessRequest && e.lane == LaneControl
            && (e.author == p || exists i: nat :: BoundBy(t, es, i, e.author) && es[i].author == p)
            && ChainSet(Elems(es) + {e}, t))
      && (e !in LogOf(r, t).entries ==> r == s)
  {
    hide Inv, Fold, StoreInv, LogOf, Append, Lanes, BoundBy, ActsFor, LastTold, ToldDiscoverable, ChainSet, Authored,
         Clocked;
    var l := LogOf(s, t);
    LogOfInv(s, t);
    LogIsAuthored(l);
    DiscoverableExact(t, l.entries);
    ActsForExact(t, l.entries, e.author, p);
    AppendExact(l, e);
    AppendOneThread(s, t, [e]);
    OneDelivery(l, e);
    assert Append(l, e).Admitted? ==> e in Elems(Append(l, e).log.entries);
    AppendOne(s, e);
  }

  lemma AppendOne(s: Logs, e: Entry)
    ensures Append(LogOf(s, e.thread), e).Refused? ==> AppendAll(s, [e]).logs == s
  {
    hide Append, LogOf;
  }

  /** A stranger's request to a hidden thread changes nothing: the last thread entry does not
      make it discoverable, and whoever the caller is judged as is no steward and holds no
      grant, or one that has run out. */
  lemma HiddenFromStrangers(s: Logs, t: string, p: string, h: string, e: Entry, now: int)
    requires StoreInv(s) && e.thread == t && LogOf(s, t).entries != []
    requires JudgedAs(t, LogOf(s, t).entries, p, h) && h !in Fold(t, LogOf(s, t).entries).stewards
    requires !ToldDiscoverable(t, LogOf(s, t).entries)
    requires forall i: nat :: LastWin(t, LogOf(s, t).entries, i, h) ==>
      Stamps(t, LogOf(s, t).entries, i, h) && !GrantInForce(t, LogOf(s, t).entries, i, h, now)
    ensures Do(s, t, RequestCall(p, e, now)) == s && VisibleLanes(s, t, p, now) == []
  {
    hide Inv, Fold, StoreInv, LogOf, Lanes, LastWin, Stamps, GrantInForce, ActsFor, LastTold, ToldDiscoverable,
         JudgedAs, AppendAll, MissingFrom;
    DiscoverableExact(t, LogOf(s, t).entries);
    ServedExactly(s, t, p, h, now, map[]);
  }

  /** A built request is stored exactly when the thread is known, discoverable or visible, and
      its author holds no control chain in it yet. */
  lemma BuiltRequestStored(
    s: Logs, t: string, pid: string, scopes: seq<string>, reason: string, id: string, ts: Option<int>, now: int)
    requires StoreInv(s) && IsPrincipal(pid) && id !in LogOf(s, t).byId
    ensures var e := BuildAccessRequest(pid, t, scopes, reason, id, ts); var es := LogOf(s, t).entries;
      e in LogOf(Do(s, t, RequestCall(pid, e, now)), t).entries <==>
        && es != [] && (ToldDiscoverable(t, es) || VisibleLanes(s, t, pid, now) != [])
        && ChainKey(t, pid, LaneControl) !in LogOf(s, t).heads
  {
    hide Inv, Fold, StoreInv, LogOf, Lanes, BoundBy, LastTold, ToldDiscoverable, ChainSet, Append, Do;
    var e, l := BuildAccessRequest(pid, t, scopes, reason, id, ts), LogOf(s, t);
    LogOfInv(s, t);
    NewId(l, e);
    assert e !in l.entries;
    BuiltRequestAdmitted(l, pid, scopes, reason, id, ts);
    AppendExact(l, e);
    RequestStoredExactly(s, t, pid, e, now);
  }
}
