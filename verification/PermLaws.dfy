/** Laws of the permission fold over whole control lanes. */
module PermLaws {
  import opened Entries
  import opened Sequences
  import opened Perm

  /** Clocks as `Validate` and the total order give them. */
  ghost predicate Clocked(es: seq<Entry>) {
    && (forall i :: 0 <= i < |es| ==> es[i].lamport >= 1)
    && (forall i, j :: 0 <= i < j < |es| ==> es[i].lamport <= es[j].lamport)
  }

  /** The fold of everything before entry `i`. */
  function Before(t: string, es: seq<Entry>, i: nat): Perms
    requires i <= |es|
  {
    Fold(t, es[..i])
  }

  lemma FoldSnoc(t: string, es: seq<Entry>, e: Entry)
    ensures Fold(t, es + [e]) == FoldStep(t, Fold(t, es), e)
  {
    assert (es + [e])[..|es|] == es;
  }

  lemma FoldLast(t: string, es: seq<Entry>)
    requires es != []
    ensures Fold(t, es) == FoldStep(t, Before(t, es, |es| - 1), es[|es| - 1])
  {
  }

  // ------------------------------------------------------------------ partial replicas

  function OnControl(): Entry -> bool {
    (e: Entry) => e.lane == LaneControl
  }

  /** The fold reads nothing but the control lane. */
  lemma {:induction false} FoldReadsControlOnly(t: string, es: seq<Entry>)
    ensures Fold(t, es) == Fold(t, Filter(es, OnControl()))
    decreases |es|
  {
    if es != [] {
      var front, last := es[..|es| - 1], es[|es| - 1];
      FoldReadsControlOnly(t, front);
      if last.lane == LaneControl {
        FoldSnoc(t, Filter(front, OnControl()), last);
      } else {
        assert Filter(front, OnControl()) + [] == Filter(front, OnControl());
      }
    }
  }

  /** Replicas with the same control lane agree on every permission. */
  lemma PartialReplicasAgree(t: string, es: seq<Entry>, fs: seq<Entry>, p: string, q: string, now: int, lamport: u64)
    requires Filter(es, OnControl()) == Filter(fs, OnControl())
    ensures var a, b := Fold(t, es), Fold(t, fs);
      && a == b
      && Lanes(a, p, now) == Lanes(b, p, now)
      && MayContribute(a, p, lamport) == MayContribute(b, p, lamport)
      && ActsFor(a, p, q) == ActsFor(b, p, q)
  {
    FoldReadsControlOnly(t, es);
    FoldReadsControlOnly(t, fs);
  }

  // ------------------------------------------------------------------ stewards

  /** A thread that has a steward always has one. */
  lemma {:induction false} StewardsNeverRunOut(t: string, es: seq<Entry>, fs: seq<Entry>)
    requires Fold(t, es).stewards != {}
    ensures Fold(t, es + fs).stewards != {}
    decreases |fs|
  {
    hide Fold, Apply;
    if fs == [] {
      assert es + fs == es;
    } else {
      var front, last := fs[..|fs| - 1], fs[|fs| - 1];
      StewardsNeverRunOut(t, es, front);
      assert es + fs == (es + front) + [last];
      FoldSnoc(t, es + front, last);
      StewardsStay(Fold(t, es + front), last);
    }
  }

  lemma StewardsStay(st: Perms, e: Entry)
    requires st.stewards != {}
    ensures Apply(st, e).stewards != {}
  {
    hide ApplyMembership, ApplyDelegation, ApplyRequest, ApplyGrant, ApplyDeny, NamedStewards;
    RemovalLeavesOne(st, e);
  }

  lemma RemovalLeavesOne(st: Perms, e: Entry)
    requires st.stewards != {}
    ensures ApplyMembership(st, e).stewards != {}
  {
    if e.body.MembershipBody? && e.body.member in st.stewards && |st.stewards| != 1 {
      assert |st.stewards - {e.body.member}| == |st.stewards| - 1;
    }
  }

  // ------------------------------------------------------------------ what counts, where

  /** Entry `i` is a decision by someone who was then a steward, signed in person. */
  predicate Decisive(t: string, es: seq<Entry>, i: nat) {
    i < |es| && Relevant(t, es[i]) && Authorised(Before(t, es, i), es[i])
  }

  predicate CreatesGrant(e: Entry, p: string) {
    e.kind == KindGrant && e.body.GrantBody? && e.body.principal == p && p != "" && GrantedScopes(e) != {}
  }

  predicate Denies(e: Entry, p: string) {
    (e.kind == KindDeny || e.kind == KindRevoke) && e.body.GrantBody? && e.body.principal == p && p != ""
  }

  predicate DenialOf(t: string, es: seq<Entry>, i: nat, p: string) {
    Decisive(t, es, i) && Denies(es[i], p)
  }

  predicate RemovalOf(t: string, es: seq<Entry>, i: nat, p: string) {
    && Decisive(t, es, i)
    && es[i].kind == KindMembership && es[i].body.MembershipBody?
    && es[i].body.member == p && p != "" && es[i].body.role == "removed"
    && !(p in Before(t, es, i).stewards && |Before(t, es, i).stewards| == 1)
  }

  /** Every decisive deny or revoke of `p` is older than clock `n`. */
  ghost predicate DeniedBelow(t: string, es: seq<Entry>, p: string, n: nat) {
    forall j: nat :: DenialOf(t, es, j, p) ==> es[j].lamport < n
  }

  lemma DecisivePrefix(t: string, es: seq<Entry>, n: nat, i: nat)
    requires i < n <= |es|
    ensures es[..n][i] == es[i] && Before(t, es[..n], i) == Before(t, es, i)
    ensures Decisive(t, es[..n], i) == Decisive(t, es, i)
  {
    assert es[..n][..i] == es[..i];
  }

  lemma DenialsPrefix(t: string, es: seq<Entry>, p: string, n: nat)
    requires es != []
    ensures DeniedBelow(t, es, p, n) <==>
      DeniedBelow(t, es[..|es| - 1], p, n) && (DenialOf(t, es, |es| - 1, p) ==> es[|es| - 1].lamport < n)
  {
    var front := es[..|es| - 1];
    forall j: nat | j < |es| - 1
      ensures DenialOf(t, front, j, p) == DenialOf(t, es, j, p) && front[j] == es[j]
    {
      DecisivePrefix(t, es, |es| - 1, j);
    }
    if DeniedBelow(t, es, p, n) {
      forall j: nat | DenialOf(t, front, j, p) ensures front[j].lamport < n {
        assert DenialOf(t, es, j, p);
      }
    }
    if DeniedBelow(t, front, p, n) && (DenialOf(t, es, |es| - 1, p) ==> es[|es| - 1].lamport < n) {
      forall j: nat | DenialOf(t, es, j, p) ensures es[j].lamport < n {
        assert j < |es| - 1 ==> DenialOf(t, front, j, p);
      }
    }
  }

  lemma DenyDeniedAt(st: Perms, e: Entry, p: string)
    requires e.kind == KindDeny || e.kind == KindRevoke
    ensures ClockAt(ApplyDeny(st, e).deniedAt, p) ==
      if Authorised(st, e) && Denies(e, p) && e.lamport > ClockAt(st.deniedAt, p)
      then e.lamport else ClockAt(st.deniedAt, p)
  {
    hide Authorised, Answered;
  }

  lemma ApplyDeniedAt(st: Perms, e: Entry, p: string)
    ensures ClockAt(Apply(st, e).deniedAt, p) ==
      if Authorised(st, e) && Denies(e, p) && e.lamport > ClockAt(st.deniedAt, p)
      then e.lamport else ClockAt(st.deniedAt, p)
  {
    hide ApplyThread, ApplyMembership, ApplyDelegation, ApplyRequest, ApplyGrant, ApplyDeny, Authorised, ClockAt;
    if e.kind == KindDeny || e.kind == KindRevoke {
      DenyDeniedAt(st, e, p);
    }
  }

  /** `deniedAt` is the clock of the latest decisive deny: below `n` exactly when all are. */
  lemma {:induction false} DeniedAtMeaning(t: string, es: seq<Entry>, p: string, n: nat)
    requires n >= 1
    ensures ClockAt(Fold(t, es).deniedAt, p) < n <==> DeniedBelow(t, es, p, n)
    decreases |es|
  {
    if es == [] {
    } else {
      DeniedAtMeaning(t, es[..|es| - 1], p, n);
      DenialsPrefix(t, es, p, n);
      FoldLast(t, es);
      ApplyDeniedAt(Before(t, es, |es| - 1), es[|es| - 1], p);
    }
  }

  // ------------------------------------------------------------------ deny beats grant

  predicate GrantTakesEffect(st: Perms, e: Entry, p: string) {
    Authorised(st, e) && CreatesGrant(e, p) && e.lamport > ClockAt(st.deniedAt, p)
  }

  predicate RemovalTakesEffect(st: Perms, e: Entry, p: string) {
    && Authorised(st, e)
    && e.kind == KindMembership && e.body.MembershipBody?
    && e.body.member == p && p != "" && e.body.role == "removed"
    && !(p in st.stewards && |st.stewards| == 1)
  }

  lemma MembershipGrants(st: Perms, e: Entry, p: string)
    ensures e.kind == KindMembership ==>
      if RemovalTakesEffect(st, e, p) then p !in ApplyMembership(st, e).grants
      else SameAt(st.grants, ApplyMembership(st, e).grants, p)
  {
    hide Authorised;
  }

  lemma GrantGrants(st: Perms, e: Entry, p: string)
    ensures e.kind == KindGrant ==> var r := ApplyGrant(st, e).grants;
      if GrantTakesEffect(st, e, p) then p in r && r[p] == GrantedScopes(e) else SameAt(st.grants, r, p)
  {
    hide Authorised, GrantedScopes, Answered;
  }

  lemma DenyGrants(st: Perms, e: Entry, p: string)
    ensures e.kind == KindDeny || e.kind == KindRevoke ==>
      if Authorised(st, e) && Denies(e, p) then p !in ApplyDeny(st, e).grants
      else SameAt(st.grants, ApplyDeny(st, e).grants, p)
  {
    hide Authorised, Answered;
  }

  /** The four things one entry can do to the scopes of `p`. */
  lemma ApplyGrants(st: Perms, e: Entry, p: string)
    ensures var r := Apply(st, e).grants;
      if GrantTakesEffect(st, e, p) then p in r && r[p] == GrantedScopes(e)
      else if (Authorised(st, e) && Denies(e, p)) || RemovalTakesEffect(st, e, p) then p !in r
      else SameAt(st.grants, r, p)
  {
    hide ApplyThread, ApplyMembership, ApplyDelegation, ApplyRequest, ApplyGrant, ApplyDeny, Authorised;
    MembershipGrants(st, e, p);
    GrantGrants(st, e, p);
    DenyGrants(st, e, p);
  }

  predicate GrantOf(t: string, es: seq<Entry>, i: nat, p: string) {
    Decisive(t, es, i) && CreatesGrant(es[i], p)
  }

  /** Entry `i` is a grant to `p` that nothing overrides: its clock is above every decisive
      deny of `p`, earlier or later, and `p` is not removed after it. */
  ghost predicate Wins(t: string, es: seq<Entry>, i: nat, p: string) {
    && GrantOf(t, es, i, p)
    && DeniedBelow(t, es, p, es[i].lamport)
    && (forall j: nat :: i < j < |es| ==> !RemovalOf(t, es, j, p))
  }

  ghost predicate LastWin(t: string, es: seq<Entry>, i: nat, p: string) {
    Wins(t, es, i, p) && forall j: nat :: i < j < |es| ==> !Wins(t, es, j, p)
  }

  /** How one more entry changes which earlier grants win. */
  lemma WinsPrefix(t: string, es: seq<Entry>, i: nat, p: string)
    requires Clocked(es) && i < |es| - 1
    ensures var n := |es| - 1;
      Wins(t, es, i, p) <==> Wins(t, es[..n], i, p) && !DenialOf(t, es, n, p) && !RemovalOf(t, es, n, p)
  {
    var n := |es| - 1;
    var front := es[..n];
    DecisivePrefix(t, es, n, i);
    DenialsPrefix(t, es, p, es[i].lamport);
    forall j: nat | i < j < n ensures RemovalOf(t, front, j, p) == RemovalOf(t, es, j, p) {
      DecisivePrefix(t, es, n, j);
    }
    if Wins(t, es, i, p) {
      forall j: nat | i < j < |front| ensures !RemovalOf(t, front, j, p) {
        assert RemovalOf(t, front, j, p) == RemovalOf(t, es, j, p);
      }
    }
    if Wins(t, front, i, p) && !DenialOf(t, es, n, p) && !RemovalOf(t, es, n, p) {
      forall j: nat | i < j < |es| ensures !RemovalOf(t, es, j, p) {
        assert j < n ==> RemovalOf(t, front, j, p) == RemovalOf(t, es, j, p);
      }
    }
  }

  lemma WinsLast(t: string, es: seq<Entry>, p: string)
    requires Clocked(es) && es != []
    ensures var n := |es| - 1;
      Wins(t, es, n, p) <==> Relevant(t, es[n]) && GrantTakesEffect(Before(t, es, n), es[n], p)
  {
    var n := |es| - 1;
    DenialsPrefix(t, es, p, es[n].lamport);
    DeniedAtMeaning(t, es[..n], p, es[n].lamport);
  }

  ghost predicate HoldsLastWin(t: string, es: seq<Entry>, p: string, grants: map<string, ScopeSet>) {
    && (p in grants <==> exists i: nat :: Wins(t, es, i, p))
    && (forall i: nat :: LastWin(t, es, i, p) ==> p in grants && grants[p] == GrantedScopes(es[i]))
  }

  lemma WinsAllPrefix(t: string, es: seq<Entry>, p: string)
    requires Clocked(es) && es != []
    ensures forall i: nat :: i < |es| - 1 ==> (Wins(t, es, i, p) <==>
      Wins(t, es[..|es| - 1], i, p) && !DenialOf(t, es, |es| - 1, p) && !RemovalOf(t, es, |es| - 1, p))
  {
    hide Wins, DenialOf, RemovalOf;
    forall i: nat | i < |es| - 1
      ensures Wins(t, es, i, p) <==>
        Wins(t, es[..|es| - 1], i, p) && !DenialOf(t, es, |es| - 1, p) && !RemovalOf(t, es, |es| - 1, p)
    {
      WinsPrefix(t, es, i, p);
    }
  }

  lemma WinsInRange(t: string, es: seq<Entry>, i: nat, p: string)
    requires Wins(t, es, i, p)
    ensures i < |es|
  {
    hide Authorised, DeniedBelow, Before;
  }

  lemma GrantsStep(t: string, es: seq<Entry>, p: string)
    requires Clocked(es) && es != []
    requires HoldsLastWin(t, es[..|es| - 1], p, Before(t, es, |es| - 1).grants)
    ensures HoldsLastWin(t, es, p, Fold(t, es).grants)
  {
    hide Clocked, Fold, Before, Wins, DenialOf, RemovalOf, GrantedScopes, Relevant;
    var n := |es| - 1;
    var front, was := es[..n], Before(t, es, n).grants;
    WinsAllPrefix(t, es, p);
    StepOnGrants(t, es, p);
    forall i: nat | Wins(t, es, i, p) ensures i <= n { WinsInRange(t, es, i, p); }
    forall i: nat | Wins(t, front, i, p) ensures i < n { WinsInRange(t, front, i, p); }
    if Wins(t, es, n, p) || DenialOf(t, es, n, p) || RemovalOf(t, es, n, p) {
    } else {
      assert forall i: nat :: Wins(t, es, i, p) <==> Wins(t, front, i, p);
      forall i: nat | LastWin(t, es, i, p) ensures LastWin(t, front, i, p) && front[i] == es[i] {
      }
    }
  }

  lemma StepOnGrants(t: string, es: seq<Entry>, p: string)
    requires Clocked(es) && es != []
    ensures var n := |es| - 1; var r := Fold(t, es).grants;
      if Wins(t, es, n, p) then p in r && r[p] == GrantedScopes(es[n])
      else if DenialOf(t, es, n, p) || RemovalOf(t, es, n, p) then p !in r
      else SameAt(Before(t, es, n).grants, r, p)
  {
    hide Apply;
    var n := |es| - 1;
    WinsLast(t, es, p);
    ApplyGrants(Before(t, es, n), es[n], p);
    FoldLast(t, es);
  }

  /** Deny beats grant, in closed form: `p` ends with scopes exactly when some grant to `p`
      wins, and then with the scopes of the last one that does. */
  lemma {:induction false} GrantsClosedForm(t: string, es: seq<Entry>, p: string)
    requires Clocked(es)
    ensures HoldsLastWin(t, es, p, Fold(t, es).grants)
    decreases |es|
  {
    if es == [] {
      hide Wins;
      forall i: nat | Wins(t, es, i, p) ensures i < 0 { WinsInRange(t, es, i, p); }
    } else {
      hide Wins, HoldsLastWin, Fold;
      GrantsClosedForm(t, es[..|es| - 1], p);
      GrantsStep(t, es, p);
    }
  }
}
