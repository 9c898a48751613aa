/** Stewards, the root of all authority, in closed form. */
module Stewards {
  import opened Entries
  import opened Perm
  import opened PermLaws
  import opened PermWindows

  /** The entry makes `p` a steward: a thread entry that names `p`, whoever wrote it; a thread
      entry that leaves nobody steward but its author; or an authorised appointment. */
  predicate Appoints(st: Perms, e: Entry, p: string) {
    match e.kind
    case KindThread =>
      || (e.body.ThreadBody? && p in e.body.stewards)
      || (st.stewards == {} && (e.body.ThreadBody? ==> e.body.stewards == []) && p == e.author)
    case KindMembership =>
      && Authorised(st, e) && e.body.MembershipBody?
      && e.body.member == p && p != "" && e.body.role == "steward"
    case _ => false
  }

  predicate AppointmentOf(t: string, es: seq<Entry>, i: nat, p: string) {
    i < |es| && Relevant(t, es[i]) && Appoints(Before(t, es, i), es[i], p)
  }

  /** Entry `i` appoints `p`, and no removal of `p` takes effect after it. */
  ghost predicate StandsSince(t: string, es: seq<Entry>, i: nat, p: string) {
    AppointmentOf(t, es, i, p) && forall j: nat :: i < j < |es| ==> !RemovalOf(t, es, j, p)
  }

  lemma ThreadStewards(st: Perms, e: Entry, p: string)
    requires e.kind == KindThread
    ensures p in ApplyThread(st, e).stewards <==> p in st.stewards || Appoints(st, e, p)
  {
    var all := st.stewards + NamedStewards(e);
    assert p in all <==> p in st.stewards || p in NamedStewards(e);
    if e.body.ThreadBody? && e.body.stewards != [] {
      assert e.body.stewards[0] in NamedStewards(e);
    }
  }

  lemma MembershipStewards(st: Perms, e: Entry, p: string)
    requires e.kind == KindMembership
    ensures p in ApplyMembership(st, e).stewards <==>
      Appoints(st, e, p) || (p in st.stewards && !RemovalTakesEffect(st, e, p))
  {
    hide Authorised, ApplyMembership;
    MembershipSet(st, e);
  }

  lemma MembershipSet(st: Perms, e: Entry)
    ensures ApplyMembership(st, e).stewards ==
      if !Authorised(st, e) || !e.body.MembershipBody? || e.body.member == "" then st.stewards
      else if e.body.role == "steward" then st.stewards + {e.body.member}
      else if e.body.role == "removed" && !(e.body.member in st.stewards && |st.stewards| == 1)
      then st.stewards - {e.body.member}
      else st.stewards
  {
    hide Authorised;
  }

  /** What one entry does to the stewardship of `p`. */
  lemma ApplyStewards(st: Perms, e: Entry, p: string)
    ensures p in Apply(st, e).stewards <==>
      Appoints(st, e, p) || (p in st.stewards && !RemovalTakesEffect(st, e, p))
  {
    hide Authorised, NamedStewards, ApplyThread, ApplyMembership, ApplyDelegation, ApplyRequest, ApplyGrant, ApplyDeny;
    if e.kind == KindThread {
      ThreadStewards(st, e, p);
    } else if e.kind == KindMembership {
      MembershipStewards(st, e, p);
    }
  }

  lemma AppointmentPrefix(t: string, es: seq<Entry>, n: nat, i: nat, p: string)
    requires i < n <= |es|
    ensures AppointmentOf(t, es[..n], i, p) == AppointmentOf(t, es, i, p)
    ensures RemovalOf(t, es[..n], i, p) == RemovalOf(t, es, i, p)
  {
    hide Appoints, Authorised;
    DecisivePrefix(t, es, n, i);
  }

  lemma StandsPrefix(t: string, es: seq<Entry>, i: nat, p: string)
    requires i < |es| - 1
    ensures var n := |es| - 1;
      StandsSince(t, es, i, p) <==> StandsSince(t, es[..n], i, p) && !RemovalOf(t, es, n, p)
  {
    hide AppointmentOf, RemovalOf;
    var n := |es| - 1;
    var front := es[..n];
    AppointmentPrefix(t, es, n, i, p);
    forall j: nat | i < j < n ensures RemovalOf(t, front, j, p) == RemovalOf(t, es, j, p) {
      AppointmentPrefix(t, es, n, j, p);
    }
  }

  lemma StandsLast(t: string, es: seq<Entry>, p: string)
    ensures forall i: nat :: StandsSince(t, es, i, p) ==> i < |es|
    ensures es != [] ==> (StandsSince(t, es, |es| - 1, p) <==> AppointmentOf(t, es, |es| - 1, p))
  {
    hide Appoints, RemovalOf;
  }

  lemma StepOnStewards(t: string, es: seq<Entry>, p: string)
    requires es != []
    ensures var n := |es| - 1;
      p in Fold(t, es).stewards <==>
        AppointmentOf(t, es, n, p) || (p in Before(t, es, n).stewards && !RemovalOf(t, es, n, p))
  {
    hide Apply, Appoints, Authorised;
    var n := |es| - 1;
    ApplyStewards(Before(t, es, n), es[n], p);
    FoldLast(t, es);
  }

  /** Stewards in closed form: `p` is a steward exactly when some entry appointed `p` and no
      removal of `p` took effect after it; what is authorised, and whether a removal takes
      effect, is judged by the fold of what precedes. */
  lemma {:induction false} StewardsClosedForm(t: string, es: seq<Entry>, p: string)
    ensures p in Fold(t, es).stewards <==> exists i: nat :: StandsSince(t, es, i, p)
    decreases |es|
  {
    StandsLast(t, es, p);
    if es == [] {
    } else {
      hide Fold, Before, StandsSince, AppointmentOf, RemovalOf;
      var n := |es| - 1;
      var front := es[..n];
      StewardsClosedForm(t, front, p);
      StepOnStewards(t, es, p);
      StandsLast(t, front, p);
      assert Before(t, es, n) == Fold(t, front) by { BeforeLast(t, es); }
      forall i: nat | i < n
        ensures StandsSince(t, es, i, p) <==> StandsSince(t, front, i, p) && !RemovalOf(t, es, n, p)
      {
        StandsPrefix(t, es, i, p);
      }
      if AppointmentOf(t, es, n, p) {
        assert StandsSince(t, es, n, p);
      }
    }
  }

  lemma BeforeLast(t: string, es: seq<Entry>)
    requires es != []
    ensures Before(t, es, |es| - 1) == Fold(t, es[..|es| - 1])
  {
  }

  // ------------------------------------------------------------------ who can change anything

  /** A thread entry that says what holds already. */
  predicate RepeatsThread(st: Perms, e: Entry) {
    && st.stewards != {} && NamedStewards(e) <= st.stewards
    && (e.body.ThreadBody? ==> e.body.title == st.title && e.body.discoverable == st.discoverable)
  }

  /** A delegation entry that binds or frees nobody. */
  predicate IdleDelegation(st: Perms, e: Entry) {
    || e.onBehalfOf != "" || !e.body.DelegationBody? || e.body.agent == ""
    || (e.body.revoked && (e.body.agent !in st.delegations || st.delegations[e.body.agent] != e.author))
    || (!e.body.revoked && e.body.agent in st.delegations && st.delegations[e.body.agent] == e.author)
  }

  lemma RepeatedThread(st: Perms, e: Entry)
    requires e.kind == KindThread
    ensures Core(ApplyThread(st, e)) == Core(st) <==> RepeatsThread(st, e)
  {
    hide NamedStewards;
    var r := ApplyThread(st, e);
    assert r.stewards == st.stewards <==> st.stewards != {} && NamedStewards(e) <= st.stewards by {
      NamesRepeat(st.stewards, NamedStewards(e), e.author);
    }
  }

  lemma NamesRepeat(a: set<string>, b: set<string>, x: string)
    ensures (if a + b == {} then {x} else a + b) == a <==> a != {} && b <= a
  {
    if a + b == {} {
      assert x in {x} && x !in a;
    }
  }

  lemma IdleExactly(st: Perms, e: Entry)
    ensures Core(ApplyDelegation(st, e)) == Core(st) <==> IdleDelegation(st, e)
  {
    if e.onBehalfOf == "" && e.body.DelegationBody? && e.body.agent != "" {
      var r := ApplyDelegation(st, e);
      assert r.delegations == st.delegations <==> IdleDelegation(st, e) by {
        var a := e.body.agent;
        if e.body.revoked && a in st.delegations && st.delegations[a] == e.author {
          assert a !in r.delegations;
        }
      }
    }
  }

  /** What an entry not signed in person by a steward changes, exactly: nothing, unless it is a
      thread entry that says something new or a delegation that binds or frees a key. */
  lemma UnauthorisedChanges(st: Perms, e: Entry)
    requires !Authorised(st, e)
    ensures Core(Apply(st, e)) == Core(st) <==>
      (e.kind == KindThread ==> RepeatsThread(st, e)) && (e.kind == KindDelegation ==> IdleDelegation(st, e))
  {
    hide ApplyThread, ApplyDelegation, RepeatsThread, IdleDelegation, Authorised;
    match e.kind
    case KindThread => RepeatedThread(st, e);
    case KindDelegation => IdleExactly(st, e);
    case KindAccessRequest => hide ApplyMembership, ApplyGrant, ApplyDeny;
    case KindMembership => hide ApplyRequest, ApplyGrant, ApplyDeny;
    case KindGrant => hide ApplyRequest, ApplyMembership, ApplyDeny;
    case _ => hide ApplyRequest, ApplyMembership, ApplyGrant;
  }
}
