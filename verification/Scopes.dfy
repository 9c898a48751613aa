/** What the fold says anyone may do, told from the entries: who is judged as whom, which
    scopes a grant gives and until when, whose decisions count, and what a thread is called. */
module Scopes {
  import opened Entries
  import opened Sequences
  import opened Perm
  import opened PermLaws
  import opened PermWindows
  import opened Requests
  import opened Stewards

  // ------------------------------------------------------------------ what is read

  function OfThread(t: string): Entry -> bool {
    (e: Entry) => e.lane == LaneControl && e.thread == t
  }

  /** The fold reads the control entries that name the thread, and no others. */
  lemma {:induction false} FoldReadsItsThread(t: string, es: seq<Entry>)
    ensures Fold(t, es) == Fold(t, Filter(es, OfThread(t)))
    decreases |es|
  {
    hide Apply;
    if es != [] {
      var front, last := es[..|es| - 1], es[|es| - 1];
      FoldReadsItsThread(t, front);
      FoldLast(t, es);
      assert OfThread(t)(last) <==> Relevant(t, last);
      if last.lane == LaneControl && last.thread == t {
        FoldSnoc(t, Filter(front, OfThread(t)), last);
      } else {
        assert Filter(front, OfThread(t)) + [] == Filter(front, OfThread(t));
      }
    }
  }

  // ------------------------------------------------------------------ the thread's title

  predicate TellsThread(t: string, es: seq<Entry>, i: nat) {
    i < |es| && es[i].lane == LaneControl && es[i].thread == t && es[i].kind == KindThread && es[i].body.ThreadBody?
  }

  /** Entry `i` is the last thread entry. */
  ghost predicate LastTold(t: string, es: seq<Entry>, i: nat) {
    TellsThread(t, es, i) && forall j: nat :: i < j < |es| ==> !TellsThread(t, es, j)
  }

  ghost predicate ToldAs(t: string, es: seq<Entry>, title: string, discoverable: bool) {
    && (forall i: nat :: LastTold(t, es, i) ==> title == es[i].body.title && discoverable == es[i].body.discoverable)
    && ((forall i: nat :: !LastTold(t, es, i)) ==> title == "" && !discoverable)
  }

  lemma StepOnThread(t: string, es: seq<Entry>)
    requires es != []
    ensures var n := |es| - 1; var was, st := Before(t, es, n), Fold(t, es);
      if TellsThread(t, es, n) then st.title == es[n].body.title && st.discoverable == es[n].body.discoverable
      else st.title == was.title && st.discoverable == was.discoverable
  {
    hide Apply;
    FoldLast(t, es);
    ApplyTells(Before(t, es, |es| - 1), es[|es| - 1]);
  }

  lemma ApplyTells(st: Perms, e: Entry)
    ensures var r := Apply(st, e);
      if e.kind == KindThread && e.body.ThreadBody?
      then r.title == e.body.title && r.discoverable == e.body.discoverable
      else r.title == st.title && r.discoverable == st.discoverable
  {
    hide ApplyMembership, ApplyDelegation, ApplyRequest, ApplyGrant, ApplyDeny, NamedStewards;
  }

  lemma ToldPrefix(t: string, es: seq<Entry>, i: nat)
    requires es != []
    ensures var n := |es| - 1;
      && (i < n ==> (LastTold(t, es, i) <==> LastTold(t, es[..n], i) && !TellsThread(t, es, n)) && es[..n][i] == es[i])
      && (i == n ==> (LastTold(t, es, i) <==> TellsThread(t, es, n)))
      && (i >= n ==> !LastTold(t, es[..n], i))
      && (i > n ==> !LastTold(t, es, i))
  {
    var n := |es| - 1;
    forall j: nat | j < n ensures TellsThread(t, es[..n], j) == TellsThread(t, es, j) {
      assert es[..n][j] == es[j];
    }
  }

  /** Title and visibility are those of the last thread entry. */
  lemma {:induction false} ThreadClosedForm(t: string, es: seq<Entry>)
    ensures ToldAs(t, es, Fold(t, es).title, Fold(t, es).discoverable)
    decreases |es|
  {
    if es != [] {
      hide Fold, LastTold, TellsThread;
      var n := |es| - 1;
      var front := es[..n];
      ThreadClosedForm(t, front);
      StepOnThread(t, es);
      assert Before(t, es, n) == Fold(t, front);
      forall i: nat
        ensures i < n ==> (LastTold(t, es, i) <==> LastTold(t, front, i) && !TellsThread(t, es, n)) && front[i] == es[i]
        ensures i == n ==> (LastTold(t, es, i) <==> TellsThread(t, es, n))
        ensures i >= n ==> !LastTold(t, front, i)
        ensures i > n ==> !LastTold(t, es, i)
      {
        ToldPrefix(t, es, i);
      }
      if TellsThread(t, es, n) {
        assert LastTold(t, es, n);
      }
    }
  }

  // ------------------------------------------------------------------ expiry

  lemma GrantExpiry(st: Perms, e: Entry, p: string)
    requires e.kind == KindGrant
    ensures var r := ApplyGrant(st, e).expiry;
      if !GrantTakesEffect(st, e, p) then SameAt(st.expiry, r, p)
      else if e.body.ttlSeconds <= 0 then p !in r
      else if e.ts.Some? then p in r && r[p] == e.ts.value + e.body.ttlSeconds
      else SameAt(st.expiry, r, p)
  {
    hide Authorised, GrantedScopes, ClockAt, Answered;
  }

  lemma DenyExpiry(st: Perms, e: Entry, p: string)
    requires e.kind == KindDeny || e.kind == KindRevoke
    ensures var r := ApplyDeny(st, e).expiry;
      if Authorised(st, e) && Denies(e, p) then p !in r else SameAt(st.expiry, r, p)
  {
    hide Authorised, ClockAt, Answered;
  }

  lemma MembershipExpiry(st: Perms, e: Entry, p: string)
    requires e.kind == KindMembership
    ensures var r := ApplyMembership(st, e).expiry;
      if RemovalTakesEffect(st, e, p) then p !in r else SameAt(st.expiry, r, p)
  {
    hide Authorised, ApplyMembership;
    MembershipSpared(st, e);
  }

  lemma MembershipSpared(st: Perms, e: Entry)
    ensures ApplyMembership(st, e).expiry ==
      if Authorised(st, e) && e.body.MembershipBody? && e.body.member != "" && e.body.role == "removed"
         && !(e.body.member in st.stewards && |st.stewards| == 1)
      then st.expiry - {e.body.member} else st.expiry
  {
    hide Authorised;
  }

  /** What one entry does to the expiry of `p`; entries about others do nothing to it. */
  lemma ApplyExpiry(st: Perms, e: Entry, p: string)
    ensures var r := Apply(st, e).expiry;
      if GrantTakesEffect(st, e, p) then
        if e.body.ttlSeconds <= 0 then p !in r
        else if e.ts.Some? then p in r && r[p] == e.ts.value + e.body.ttlSeconds
        else SameAt(st.expiry, r, p)
      else if (Authorised(st, e) && Denies(e, p)) || RemovalTakesEffect(st, e, p) then p !in r
      else SameAt(st.expiry, r, p)
  {
    hide ApplyThread, ApplyMembership, ApplyDelegation, ApplyRequest, ApplyGrant, ApplyDeny, Authorised;
    if e.kind == KindGrant {
      GrantExpiry(st, e, p);
    } else if e.kind == KindDeny || e.kind == KindRevoke {
      DenyExpiry(st, e, p);
    } else if e.kind == KindMembership {
      MembershipExpiry(st, e, p);
    }
  }

  /** Entry `i` is a grant to `p` that takes effect when it is folded. */
  predicate EffectiveGrant(t: string, es: seq<Entry>, i: nat, p: string) {
    i < |es| && Relevant(t, es[i]) && GrantTakesEffect(Before(t, es, i), es[i], p)
  }

  /** It settles the expiry of `p`: it has no time limit, or one counted from its timestamp. */
  predicate Stamps(t: string, es: seq<Entry>, i: nat, p: string) {
    EffectiveGrant(t, es, i, p) && (es[i].body.ttlSeconds <= 0 || es[i].ts.Some?)
  }

  predicate Resets(t: string, es: seq<Entry>, i: nat, p: string) {
    Stamps(t, es, i, p) || DenialOf(t, es, i, p) || RemovalOf(t, es, i, p)
  }

  /** Entry `i` is the grant whose time limit is in force for `p`. */
  ghost predicate Limits(t: string, es: seq<Entry>, i: nat, p: string) {
    && Stamps(t, es, i, p) && es[i].body.ttlSeconds > 0
    && forall j: nat :: i < j < |es| ==> !Resets(t, es, j, p)
  }

  function EndOf(e: Entry): int
    requires e.body.GrantBody? && e.ts.Some?
  {
    e.ts.value + e.body.ttlSeconds
  }

  ghost predicate ExpiryIs(t: string, es: seq<Entry>, p: string, expiry: map<string, int>) {
    && (p in expiry <==> exists i: nat :: Limits(t, es, i, p))
    && (forall i: nat :: Limits(t, es, i, p) ==> p in expiry && expiry[p] == EndOf(es[i]))
  }

  lemma ResetsPrefix(t: string, es: seq<Entry>, n: nat, i: nat, p: string)
    requires i < n <= |es|
    ensures EffectiveGrant(t, es[..n], i, p) == EffectiveGrant(t, es, i, p)
    ensures Stamps(t, es[..n], i, p) == Stamps(t, es, i, p) && Resets(t, es[..n], i, p) == Resets(t, es, i, p)
    ensures es[..n][i] == es[i]
  {
    hide Authorised, CreatesGrant, Denies;
    DecisivePrefix(t, es, n, i);
  }

  lemma LimitsPrefix(t: string, es: seq<Entry>, i: nat, p: string)
    requires i < |es| - 1
    ensures var n := |es| - 1; Limits(t, es, i, p) <==> Limits(t, es[..n], i, p) && !Resets(t, es, n, p)
  {
    hide EffectiveGrant, Resets;
    var n := |es| - 1;
    ResetsPrefix(t, es, n, i, p);
    forall j: nat | i < j < n ensures Resets(t, es[..n], j, p) == Resets(t, es, j, p) {
      ResetsPrefix(t, es, n, j, p);
    }
  }

  lemma LimitsInRange(t: string, es: seq<Entry>, p: string)
    ensures forall i: nat :: Limits(t, es, i, p) ==> i < |es| && es[i].body.GrantBody? && es[i].ts.Some?
    ensures es != [] ==> var n := |es| - 1;
      (Limits(t, es, n, p) <==> Stamps(t, es, n, p) && es[n].body.ttlSeconds > 0)
  {
    hide Authorised, Resets;
  }

  lemma StepOnExpiry(t: string, es: seq<Entry>, p: string)
    requires es != []
    ensures var n := |es| - 1; var was, r := Before(t, es, n).expiry, Fold(t, es).expiry;
      if Stamps(t, es, n, p) then
        if es[n].body.ttlSeconds <= 0 then p !in r else p in r && r[p] == EndOf(es[n])
      else if Resets(t, es, n, p) then p !in r
      else SameAt(was, r, p)
  {
    hide Apply, Authorised, CreatesGrant;
    var n := |es| - 1;
    GrantExcludes(Before(t, es, n), es[n], p);
    ApplyExpiry(Before(t, es, n), es[n], p);
    FoldLast(t, es);
  }

  lemma GrantExcludes(st: Perms, e: Entry, p: string)
    ensures GrantTakesEffect(st, e, p) ==> !Denies(e, p) && !RemovalTakesEffect(st, e, p) && e.body.GrantBody?
  {
    hide Authorised;
  }

  /** Which limits stand after the last entry. */
  lemma LimitsStep(t: string, es: seq<Entry>, p: string)
    requires es != []
    ensures var n := |es| - 1;
      && (forall i: nat :: Limits(t, es, i, p) <==>
            if i == n then Stamps(t, es, n, p) && es[n].body.ttlSeconds > 0
            else Limits(t, es[..n], i, p) && !Resets(t, es, n, p))
      && (forall i: nat :: Limits(t, es[..n], i, p) ==> i < n)
  {
    hide Resets, Authorised, Before, Relevant;
    var n := |es| - 1;
    LimitsInRange(t, es, p);
    LimitsInRange(t, es[..n], p);
    forall i: nat
      ensures Limits(t, es, i, p) <==>
        if i == n then Stamps(t, es, n, p) && es[n].body.ttlSeconds > 0
        else Limits(t, es[..n], i, p) && !Resets(t, es, n, p)
    {
      if i < n {
        LimitsPrefix(t, es, i, p);
      }
    }
  }

  lemma ExpiryStep(t: string, es: seq<Entry>, p: string)
    requires es != [] && ExpiryIs(t, es[..|es| - 1], p, Before(t, es, |es| - 1).expiry)
    ensures ExpiryIs(t, es, p, Fold(t, es).expiry)
  {
    hide Fold, Before, Limits, Stamps, Resets;
    var n := |es| - 1;
    StepOnExpiry(t, es, p);
    LimitsStep(t, es, p);
    LimitsInRange(t, es, p);
    assert Stamps(t, es, n, p) ==> Resets(t, es, n, p) by { StampsReset(t, es, n, p); }
    if Resets(t, es, n, p) {
      assert forall i: nat :: Limits(t, es, i, p) ==> i == n;
    } else {
      assert forall i: nat :: Limits(t, es, i, p) <==> Limits(t, es[..n], i, p);
    }
  }

  /** Expiry in closed form: `p` has one exactly when a grant with a time limit and a timestamp
      took effect, and nothing after it settled the matter again. */
  lemma {:induction false} ExpiryClosedForm(t: string, es: seq<Entry>, p: string)
    ensures ExpiryIs(t, es, p, Fold(t, es).expiry)
    decreases |es|
  {
    if es == [] {
      LimitsInRange(t, es, p);
    } else {
      hide ExpiryIs, Fold;
      ExpiryClosedForm(t, es[..|es| - 1], p);
      ExpiryStep(t, es, p);
    }
  }

  lemma StampsReset(t: string, es: seq<Entry>, i: nat, p: string)
    ensures Stamps(t, es, i, p) ==> Resets(t, es, i, p)
  {
  }

  // ------------------------------------------------------------------ agents are judged as their person

  ghost predicate Authored(es: seq<Entry>) {
    forall i :: 0 <= i < |es| ==> es[i].author != ""
  }

  /** `p` counts as `h`: the author of the binding in force when `p` is an agent key, else `p`
      itself.  One hop only: what `h` is bound to does not matter. */
  ghost predicate JudgedAs(t: string, es: seq<Entry>, p: string, h: string) {
    || (exists i: nat :: BoundBy(t, es, i, p) && es[i].author == h)
    || (h == p && forall i: nat :: !BoundBy(t, es, i, p))
  }

  lemma JudgedPerson(t: string, es: seq<Entry>, p: string, h: string)
    requires Authored(es) && JudgedAs(t, es, p, h)
    ensures h == if p in Fold(t, es).delegations then Fold(t, es).delegations[p] else p
  {
    hide Fold, BoundBy;
    DelegationsClosedForm(t, es, p);
  }

  /** Agency from the entries: a key acts for itself and for the person who last bound it. */
  lemma ActsForExact(t: string, es: seq<Entry>, a: string, q: string)
    requires Authored(es) && q != ""
    ensures ActsFor(Fold(t, es), a, q) <==> a == q || exists i: nat :: BoundBy(t, es, i, a) && es[i].author == q
  {
    hide Fold, BoundBy;
    DelegationsClosedForm(t, es, a);
  }

  /** Contribution from the entries, for a person and for every key bound to it: stewards
      always, others from the first effective contribute grant to the person on, if no denial
      of the person is at or above it, below the latest one. */
  lemma MayContributeExact(t: string, es: seq<Entry>, p: string, h: string, l: u64)
    requires Clocked(es) && Authored(es) && JudgedAs(t, es, p, h)
    ensures MayContribute(Fold(t, es), p, l) <==>
      || h in Fold(t, es).stewards
      || exists i: nat ::
           && FirstContribute(t, es, i, h) && es[i].lamport <= l
           && (DeniedBelow(t, es, h, es[i].lamport) || !DeniedBelow(t, es, h, l + 1))
  {
    hide Fold, InWindow, FirstContribute, DeniedBelow, JudgedAs, Clocked;
    JudgedPerson(t, es, p, h);
    InWindowExact(t, es, h, l);
  }

  // ------------------------------------------------------------------ scopes over time

  /** After the grant that is in force, nothing touches the expiry of `p` again. */
  lemma LastWinSettles(t: string, es: seq<Entry>, p: string, i: nat)
    requires Clocked(es) && LastWin(t, es, i, p)
    ensures EffectiveGrant(t, es, i, p)
    ensures forall j: nat :: i < j < |es| ==> !Resets(t, es, j, p) && !EffectiveGrant(t, es, j, p)
  {
    hide Fold, Authorised, GrantedScopes, Relevant;
    WinTookEffect(t, es, i, p);
    forall j: nat | i < j < |es| ensures !Resets(t, es, j, p) && !EffectiveGrant(t, es, j, p) {
      assert !RemovalOf(t, es, j, p) && !Wins(t, es, j, p);
      assert es[i].lamport <= es[j].lamport && !DenialOf(t, es, j, p);
      if EffectiveGrant(t, es, j, p) {
        forall k: nat | DenialOf(t, es, k, p) ensures es[k].lamport < es[j].lamport {
        }
      }
    }
  }

  lemma WinTookEffect(t: string, es: seq<Entry>, i: nat, p: string)
    requires Clocked(es) && Wins(t, es, i, p)
    ensures EffectiveGrant(t, es, i, p)
  {
    hide Fold, Authorised, GrantedScopes, Relevant;
    forall j: nat | DenialOf(t, es[..i], j, p) ensures es[..i][j].lamport < es[i].lamport {
      DecisivePrefix(t, es, i, j);
      assert DenialOf(t, es, j, p);
    }
    assert DeniedBelow(t, es[..i], p, es[i].lamport);
    DeniedAtMeaning(t, es[..i], p, es[i].lamport);
  }

  lemma SettledExpiry(t: string, es: seq<Entry>, p: string, i: nat)
    requires Clocked(es) && LastWin(t, es, i, p) && Stamps(t, es, i, p)
    ensures forall j: nat :: Limits(t, es, j, p) <==> j == i && es[i].body.ttlSeconds > 0
  {
    hide LastWin, Authorised, Before, Relevant, DenialOf, RemovalOf, Clocked;
    LastWinSettles(t, es, p, i);
    LimitsInRange(t, es, p);
    forall j: nat ensures Limits(t, es, j, p) <==> j == i && es[i].body.ttlSeconds > 0 {
      if j < i {
        assert Resets(t, es, i, p);
      } else if j > i && j < |es| {
        assert !Resets(t, es, j, p);
      }
    }
  }

  lemma {:induction false} SomeLastWin(t: string, es: seq<Entry>, p: string, i: nat)
    requires Wins(t, es, i, p)
    ensures exists j: nat :: LastWin(t, es, j, p)
    decreases |es| - i
  {
    hide Wins;
    WinsInRange(t, es, i, p);
    if j: nat :| i < j < |es| && Wins(t, es, j, p) {
      SomeLastWin(t, es, p, j);
    } else {
      assert LastWin(t, es, i, p);
    }
  }

  /** Scopes over time, in closed form.  Whoever is judged as a steward holds all four; without
      a winning grant to the person nothing is held; with one, its valid scopes, until its time
      limit counted from its timestamp has passed. */
  lemma ScopesOverTime(t: string, es: seq<Entry>, p: string, h: string, now: int)
    requires Clocked(es) && Authored(es) && JudgedAs(t, es, p, h)
    ensures var st := Fold(t, es); var held := EffectiveScopes(st, p, now);
      && (h in st.stewards ==> held == {"contribute", "read", "summary", "search"})
      && (h !in st.stewards && (forall i: nat :: !LastWin(t, es, i, h)) ==> held == {})
      && (h !in st.stewards ==> forall i: nat :: LastWin(t, es, i, h) && Stamps(t, es, i, h) ==>
            held == if es[i].body.ttlSeconds <= 0 || now <= EndOf(es[i]) then GrantedScopes(es[i]) else {})
  {
    hide Fold, LastWin, Limits, JudgedAs, GrantedScopes, Authorised, Before, Relevant;
    var st := Fold(t, es);
    JudgedPerson(t, es, p, h);
    GrantsClosedForm(t, es, h);
    ExpiryClosedForm(t, es, h);
    if i: nat :| Wins(t, es, i, h) {
      SomeLastWin(t, es, h, i);
    }
    if h in st.grants && h !in st.stewards {
      forall i: nat | LastWin(t, es, i, h) && Stamps(t, es, i, h)
        ensures EffectiveScopes(st, p, now) ==
          if es[i].body.ttlSeconds <= 0 || now <= EndOf(es[i]) then GrantedScopes(es[i]) else {}
      {
        SettledExpiry(t, es, h, i);
      }
    }
  }

  /** A grant with a time limit but no readable timestamp keeps the limit that was in force:
      that of the last earlier grant that settled one, unless a denial or removal came between. */
  lemma UnstampedGrantKeeps(t: string, es: seq<Entry>, p: string, h: string, now: int, i: nat)
    requires Clocked(es) && Authored(es) && JudgedAs(t, es, p, h)
    requires h !in Fold(t, es).stewards && LastWin(t, es, i, h) && !Stamps(t, es, i, h)
    ensures forall j: nat :: Limits(t, es, j, h) ==> j < i
    ensures EffectiveScopes(Fold(t, es), p, now) ==
      if exists j: nat :: Limits(t, es, j, h) && now > EndOf(es[j]) then {} else GrantedScopes(es[i])
  {
    hide Fold, LastWin, Limits, JudgedAs, GrantedScopes, Clocked;
    JudgedPerson(t, es, p, h);
    GrantsClosedForm(t, es, h);
    ExpiryClosedForm(t, es, h);
    LastWinSettles(t, es, h, i);
    LimitsInRange(t, es, h);
    forall j: nat | Limits(t, es, j, h) ensures j < i {
      LimitsStamp(t, es, j, h);
    }
  }

  lemma LimitsStamp(t: string, es: seq<Entry>, j: nat, p: string)
    requires Limits(t, es, j, p)
    ensures Stamps(t, es, j, p) && Resets(t, es, j, p) && j < |es|
  {
    hide Authorised, Before, Relevant, DenialOf, RemovalOf;
  }

  // ------------------------------------------------------------------ whose decisions count

  /** Only persons decide: an entry is decisive exactly when it is a control entry of the
      thread whose author was by then appointed steward and not removed, signed for itself,
      by a key that was nobody's agent. */
  lemma DecisiveExact(t: string, es: seq<Entry>, i: nat)
    requires i < |es| && Authored(es)
    ensures Decisive(t, es, i) <==>
      && es[i].lane == LaneControl && es[i].thread == t && es[i].onBehalfOf == ""
      && (exists j: nat :: StandsSince(t, es[..i], j, es[i].author))
      && (forall j: nat :: !BoundBy(t, es[..i], j, es[i].author))
  {
    hide Fold, StandsSince, BoundBy;
    StewardsClosedForm(t, es[..i], es[i].author);
    DelegationsClosedForm(t, es[..i], es[i].author);
  }

  /** A decisive grant gives what it names of the four scopes, and creates a grant exactly when
      it names one of them. */
  lemma GrantGivesNamed(e: Entry, p: string)
    requires e.kind == KindGrant && e.body.GrantBody? && e.body.principal == p && p != ""
    ensures forall x :: x in GrantedScopes(e) <==>
      x in e.body.scopes && (x == "contribute" || x == "read" || x == "summary" || x == "search")
    ensures CreatesGrant(e, p) <==>
      || "contribute" in e.body.scopes || "read" in e.body.scopes
      || "summary" in e.body.scopes || "search" in e.body.scopes
  {
    if CreatesGrant(e, p) {
      var x :| x in GrantedScopes(e);
    } else {
      assert forall x :: x !in GrantedScopes(e);
    }
  }
}
