/** The contribute window, inert entries, and decisions that take effect at once. */
module PermWindows {
  import opened Entries
  import opened Sequences
  import opened Perm
  import opened PermLaws
  import opened ThreadLogs
  import opened Authors

  /** The entries of a log are what the laws of the fold ask for. */
  lemma LogIsClocked(l: Log)
    requires Inv(l)
    ensures Clocked(l.entries)
  {
    hide HeadsOf, IndexOf, ClockOf, AllLinked, OnePerId, OnePerSlot;
    forall i | 0 <= i < |l.entries| ensures l.entries[i].lamport >= 1 {
      assert l.entries[i] in Elems(l.entries);
    }
    forall i, j | 0 <= i < j < |l.entries| ensures l.entries[i].lamport <= l.entries[j].lamport {
      assert Less(l.entries[i], l.entries[j]);
    }
  }

  // ------------------------------------------------------------------ the contribute window

  /** Entry `i` gives `p` contribute: a decisive grant of it, newer than every deny so far. */
  ghost predicate GivesContribute(t: string, es: seq<Entry>, i: nat, p: string) {
    && GrantOf(t, es, i, p)
    && CONTRIBUTE in GrantedScopes(es[i])
    && DeniedBelow(t, es[..i], p, es[i].lamport)
  }

  lemma GivesPrefix(t: string, es: seq<Entry>, n: nat, i: nat, p: string)
    requires i < n <= |es|
    ensures GivesContribute(t, es[..n], i, p) <==> GivesContribute(t, es, i, p)
    ensures es[..n][i] == es[i]
  {
    DecisivePrefix(t, es, n, i);
    assert es[..n][..i] == es[..i];
  }

  lemma GrantContribAt(st: Perms, e: Entry, p: string)
    requires e.kind == KindGrant
    ensures var r := ApplyGrant(st, e).contribAt;
      if GrantTakesEffect(st, e, p) && CONTRIBUTE in GrantedScopes(e)
         && (p !in st.contribAt || e.lamport < st.contribAt[p])
      then p in r && r[p] == e.lamport
      else SameAt(st.contribAt, r, p)
  {
    hide Authorised, GrantedScopes, Answered;
  }

  lemma ApplyContribAt(st: Perms, e: Entry, p: string)
    ensures var r := Apply(st, e).contribAt;
      if GrantTakesEffect(st, e, p) && CONTRIBUTE in GrantedScopes(e)
         && (p !in st.contribAt || e.lamport < st.contribAt[p])
      then p in r && r[p] == e.lamport
      else SameAt(st.contribAt, r, p)
  {
    hide ApplyThread, ApplyMembership, ApplyDelegation, ApplyRequest, ApplyGrant, ApplyDeny, Authorised, GrantedScopes;
    if e.kind == KindGrant {
      GrantContribAt(st, e, p);
    }
  }

  ghost predicate EarliestContribute(t: string, es: seq<Entry>, p: string, at: map<string, u64>) {
    && (forall i: nat :: i < |es| && GivesContribute(t, es, i, p) ==> p in at && at[p] <= es[i].lamport)
    && (p in at ==> exists i: nat :: i < |es| && GivesContribute(t, es, i, p) && es[i].lamport == at[p])
  }

  /** `contribAt` is the clock of the earliest grant that gave contribute. */
  lemma {:induction false} ContribAtMeaning(t: string, es: seq<Entry>, p: string)
    requires Clocked(es)
    ensures EarliestContribute(t, es, p, Fold(t, es).contribAt)
    decreases |es|
  {
    if es != [] {
      ContribAtMeaning(t, es[..|es| - 1], p);
      ContribAtStep(t, es, p);
    }
  }

  lemma GivesLast(t: string, es: seq<Entry>, p: string)
    requires Clocked(es) && es != []
    ensures var n := |es| - 1;
      GivesContribute(t, es, n, p) <==>
        Relevant(t, es[n]) && GrantTakesEffect(Before(t, es, n), es[n], p) && CONTRIBUTE in GrantedScopes(es[n])
  {
    var n := |es| - 1;
    DeniedAtMeaning(t, es[..n], p, es[n].lamport);
  }

  lemma ContribAtStep(t: string, es: seq<Entry>, p: string)
    requires Clocked(es) && es != []
    requires EarliestContribute(t, es[..|es| - 1], p, Before(t, es, |es| - 1).contribAt)
    ensures EarliestContribute(t, es, p, Fold(t, es).contribAt)
  {
    hide Apply, GivesContribute, Authorised, CreatesGrant, Fold, Relevant, GrantedScopes;
    var n := |es| - 1;
    var was, at := Before(t, es, n).contribAt, Fold(t, es).contribAt;
    GivesAllPrefix(t, es, p);
    StepOnContribAt(t, es, p);
    if p in at {
      if p in was && at[p] == was[p] {
        var i: nat :| i < n && GivesContribute(t, es[..n], i, p) && es[..n][i].lamport == was[p];
        assert GivesContribute(t, es, i, p) && es[i].lamport == at[p];
      } else {
        assert GivesContribute(t, es, n, p) && es[n].lamport == at[p];
      }
    }
  }

  lemma GivesAllPrefix(t: string, es: seq<Entry>, p: string)
    requires es != []
    ensures var n := |es| - 1;
      forall i: nat :: i < n ==>
        (GivesContribute(t, es[..n], i, p) <==> GivesContribute(t, es, i, p)) && es[..n][i] == es[i]
  {
    hide GivesContribute;
    var n := |es| - 1;
    forall i: nat | i < n
      ensures (GivesContribute(t, es[..n], i, p) <==> GivesContribute(t, es, i, p)) && es[..n][i] == es[i]
    {
      GivesPrefix(t, es, n, i, p);
    }
  }

  lemma StepOnContribAt(t: string, es: seq<Entry>, p: string)
    requires Clocked(es) && es != []
    ensures var n := |es| - 1; var was, at := Before(t, es, n).contribAt, Fold(t, es).contribAt;
      if GivesContribute(t, es, n, p) && (p !in was || es[n].lamport < was[p]) then p in at && at[p] == es[n].lamport
      else SameAt(was, at, p)
  {
    hide Apply, GivesContribute, GrantTakesEffect;
    var n := |es| - 1;
    GivesLast(t, es, p);
    ApplyContribAt(Before(t, es, n), es[n], p);
    FoldLast(t, es);
  }

  /** The first grant of contribute to `p` that took effect is entry `i`. */
  ghost predicate FirstContribute(t: string, es: seq<Entry>, i: nat, p: string) {
    && i < |es| && GivesContribute(t, es, i, p)
    && forall j: nat :: j < |es| && GivesContribute(t, es, j, p) ==> es[i].lamport <= es[j].lamport
  }

  /** The window of `p`, exactly: clock `l` is inside when it is not before the first
      effective contribute grant `a`, and the latest decisive deny is either older than `a` or
      newer than `l`. */
  lemma InWindowExact(t: string, es: seq<Entry>, p: string, l: u64)
    requires Clocked(es)
    ensures InWindow(Fold(t, es), p, l) <==>
      exists i: nat ::
        && FirstContribute(t, es, i, p) && es[i].lamport <= l
        && (DeniedBelow(t, es, p, es[i].lamport) || !DeniedBelow(t, es, p, l + 1))
  {
    hide Fold, GivesContribute, DeniedBelow;
    var st := Fold(t, es);
    ContribAtMeaning(t, es, p);
    DeniedAtMeaning(t, es, p, l + 1);
    if p in st.contribAt {
      var i: nat :| i < |es| && GivesContribute(t, es, i, p) && es[i].lamport == st.contribAt[p];
      assert FirstContribute(t, es, i, p);
      DeniedAtMeaning(t, es, p, es[i].lamport);
      forall j: nat | FirstContribute(t, es, j, p) ensures es[j].lamport == es[i].lamport {
      }
    }
  }

  /** So someone who is neither steward nor agent may contribute exactly inside that window. */
  lemma ContributeWindowExact(t: string, es: seq<Entry>, p: string, l: u64)
    requires Clocked(es)
    requires p !in Fold(t, es).delegations && p !in Fold(t, es).stewards
    ensures MayContribute(Fold(t, es), p, l) <==>
      exists i: nat ::
        && FirstContribute(t, es, i, p) && es[i].lamport <= l
        && (DeniedBelow(t, es, p, es[i].lamport) || !DeniedBelow(t, es, p, l + 1))
  {
    hide Fold, InWindow, FirstContribute, DeniedBelow;
    InWindowExact(t, es, p, l);
  }

  lemma ApplyKeepsWindow(st: Perms, e: Entry, p: string, l: u64)
    requires InWindow(st, p, l) && e.lamport > l
    ensures InWindow(Apply(st, e), p, l)
  {
    hide Apply, Authorised, GrantedScopes, Denies, CreatesGrant;
    ApplyContribAt(st, e, p);
    ApplyDeniedAt(st, e, p);
    DeniedAtKeys(st, e, p);
  }

  lemma DeniedAtKeys(st: Perms, e: Entry, p: string)
    ensures p in st.deniedAt ==> p in Apply(st, e).deniedAt
    ensures p in Apply(st, e).deniedAt ==>
      SameAt(st.deniedAt, Apply(st, e).deniedAt, p) || Apply(st, e).deniedAt[p] == e.lamport
  {
    hide ApplyThread, ApplyMembership, ApplyDelegation, ApplyRequest, ApplyGrant, Authorised, Answered;
  }

  /** A collaborator's history stays ingestible: a clock inside the window stays inside under
      any later entries with larger clocks, unless `p` becomes someone's agent. */
  lemma {:induction false} WindowIsStable(t: string, es: seq<Entry>, later: seq<Entry>, p: string, l: u64)
    requires InWindow(Fold(t, es), p, l)
    requires forall e :: e in later ==> e.lamport > l
    ensures InWindow(Fold(t, es + later), p, l)
    ensures p !in Fold(t, es + later).delegations ==> MayContribute(Fold(t, es + later), p, l)
    decreases |later|
  {
    hide Apply, InWindow;
    if later == [] {
      assert es + later == es;
    } else {
      var front, last := later[..|later| - 1], later[|later| - 1];
      WindowIsStable(t, es, front, p, l);
      assert es + later == (es + front) + [last];
      FoldSnoc(t, es + front, last);
      ApplyKeepsWindow(Fold(t, es + front), last, p, l);
    }
  }

  /** The window ends at the LATEST deny: a later effective deny or revoke moves its end, so
      clocks that an earlier one had shut out come back in. */
  lemma LaterDenyMovesTheEnd(st: Perms, e: Entry, p: string, l: u64)
    requires Authorised(st, e) && Denies(e, p)
    requires p in st.contribAt && st.contribAt[p] <= l < e.lamport
    ensures InWindow(Apply(st, e), p, l) <==>
      e.lamport > ClockAt(st.deniedAt, p) || l < st.deniedAt[p] || st.deniedAt[p] < st.contribAt[p]
  {
  }

  /** A grant after a revoke gives the scopes back but does not reopen the window. */
  lemma RegrantKeepsWindowShut(st: Perms, e: Entry, p: string, l: u64)
    requires GrantTakesEffect(st, e, p)
    requires p in st.contribAt && p in st.deniedAt && st.contribAt[p] <= st.deniedAt[p] <= l
    ensures p in Apply(st, e).grants && !InWindow(Apply(st, e), p, l)
  {
    hide Apply, Authorised, Denies, GrantedScopes;
    ApplyGrants(st, e, p);
    ApplyContribAt(st, e, p);
    GrantLeavesDenials(st, e);
  }

  lemma GrantLeavesDenials(st: Perms, e: Entry)
    requires e.kind == KindGrant
    ensures Apply(st, e).deniedAt == st.deniedAt
  {
    hide ApplyGrant;
  }

  /** No decisive denial of `p` has a clock in `[a, l]`. */
  ghost predicate NotDeniedWithin(t: string, es: seq<Entry>, p: string, a: u64, l: u64) {
    forall j: nat :: DenialOf(t, es, j, p) && a <= es[j].lamport ==> l < es[j].lamport
  }

  /** All decisive denials of `p` at or above `a` have one clock. */
  ghost predicate DeniedOnce(t: string, es: seq<Entry>, p: string, a: u64) {
    forall j: nat, k: nat ::
      DenialOf(t, es, j, p) && DenialOf(t, es, k, p) && a <= es[j].lamport && a <= es[k].lamport ==>
        es[j].lamport == es[k].lamport
  }

  /** The window by the clocks of the denials: from the first contribute grant on, and, if
      any denial is at or above it, below the latest. */
  lemma WindowByDenials(t: string, es: seq<Entry>, i: nat, p: string, l: u64)
    requires Clocked(es) && FirstContribute(t, es, i, p)
    requires p !in Fold(t, es).delegations && p !in Fold(t, es).stewards
    ensures MayContribute(Fold(t, es), p, l) <==>
      es[i].lamport <= l && (DeniedBelow(t, es, p, es[i].lamport) || !DeniedBelow(t, es, p, l + 1))
  {
    hide Fold, GivesContribute, DeniedBelow, MayContribute;
    ContributeWindowExact(t, es, p, l);
    assert forall j: nat :: FirstContribute(t, es, j, p) ==> es[j].lamport == es[i].lamport;
  }

  /** With one grant: the ingestible clocks are those from the first effective contribute
      grant on with no decisive denial between, exactly when all decisive denials at or above
      it have the same clock. */
  lemma WindowOfFirstGrant(t: string, es: seq<Entry>, i: nat, p: string)
    requires Clocked(es) && FirstContribute(t, es, i, p)
    requires p !in Fold(t, es).delegations && p !in Fold(t, es).stewards
    ensures var a := es[i].lamport;
      DeniedOnce(t, es, p, a) <==>
      (forall l: u64 :: MayContribute(Fold(t, es), p, l) <==> a <= l && NotDeniedWithin(t, es, p, a, l))
  {
    hide Fold, GivesContribute, Before, Authorised, Relevant, Denies, MayContribute, Clocked;
    var st, a := Fold(t, es), es[i].lamport;
    if DeniedOnce(t, es, p, a) {
      forall l: u64 ensures MayContribute(st, p, l) <==> a <= l && NotDeniedWithin(t, es, p, a, l) {
        WindowByDenials(t, es, i, p, l);
      }
    } else {
      TwoDenials(t, es, p, a);
      var j: nat, k: nat :| DenialOf(t, es, j, p) && DenialOf(t, es, k, p) && a <= es[j].lamport < es[k].lamport;
      var l := es[j].lamport;
      WindowByDenials(t, es, i, p, l);
      assert !NotDeniedWithin(t, es, p, a, l);
    }
  }

  lemma TwoDenials(t: string, es: seq<Entry>, p: string, a: u64)
    requires !DeniedOnce(t, es, p, a)
    ensures exists j: nat, k: nat ::
      DenialOf(t, es, j, p) && DenialOf(t, es, k, p) && a <= es[j].lamport < es[k].lamport
  {
    hide Before, Authorised, Relevant, Denies;
    var j: nat, k: nat :|
      && DenialOf(t, es, j, p) && DenialOf(t, es, k, p) && a <= es[j].lamport && a <= es[k].lamport
      && es[j].lamport != es[k].lamport;
    if es[k].lamport < es[j].lamport {
      assert a <= es[k].lamport < es[j].lamport;
    }
  }

  /** Clock `l` is in the `[grant, revoke)` window of some grant of contribute to `p` that took
      effect. */
  ghost predicate InSomeWindow(t: string, es: seq<Entry>, p: string, l: u64) {
    exists k: nat ::
      k < |es| && GivesContribute(t, es, k, p) && es[k].lamport <= l && NotDeniedWithin(t, es, p, es[k].lamport, l)
  }

  /** No grant of contribute to `p` takes effect above a decisive denial at or above `a`. */
  ghost predicate NoRegrant(t: string, es: seq<Entry>, p: string, a: u64) {
    forall k: nat, j: nat ::
      k < |es| && GivesContribute(t, es, k, p) && DenialOf(t, es, j, p) && a <= es[j].lamport ==>
        es[k].lamport <= es[j].lamport
  }

  /** When the contribute window is "from a grant up to its revoke": for someone who is neither
      steward nor agent and whose first effective contribute grant has clock `a`, the
      ingestible clocks are those in the window of some effective grant, exactly when all
      decisive denials at or above `a` have one clock and no grant took effect above it.  So it
      fails after a second revoke, and it fails after a grant that follows a revoke. */
  lemma WindowIsGrantToRevoke(t: string, es: seq<Entry>, i: nat, p: string)
    requires Clocked(es) && FirstContribute(t, es, i, p)
    requires p !in Fold(t, es).delegations && p !in Fold(t, es).stewards
    ensures var a := es[i].lamport;
      DeniedOnce(t, es, p, a) && NoRegrant(t, es, p, a) <==>
      (forall l: u64 :: MayContribute(Fold(t, es), p, l) <==> InSomeWindow(t, es, p, l))
  {
    hide Fold, GivesContribute, Before, Authorised, Relevant, Denies, MayContribute, Clocked;
    var st, a := Fold(t, es), es[i].lamport;
    if !DeniedOnce(t, es, p, a) {
      TwoDenials(t, es, p, a);
      var j: nat, k: nat :| DenialOf(t, es, j, p) && DenialOf(t, es, k, p) && a <= es[j].lamport < es[k].lamport;
      WindowByDenials(t, es, i, p, es[j].lamport);
      assert MayContribute(st, p, es[j].lamport) && !InSomeWindow(t, es, p, es[j].lamport);
    } else if !NoRegrant(t, es, p, a) {
      var k: nat, j: nat :|
        && k < |es| && GivesContribute(t, es, k, p) && DenialOf(t, es, j, p)
        && a <= es[j].lamport < es[k].lamport;
      var l := es[k].lamport;
      WindowByDenials(t, es, i, p, l);
      assert NotDeniedWithin(t, es, p, l, l);
      assert !MayContribute(st, p, l) && InSomeWindow(t, es, p, l);
    } else {
      forall l: u64 ensures MayContribute(st, p, l) <==> InSomeWindow(t, es, p, l) {
        WindowByDenials(t, es, i, p, l);
        assert a <= l && NotDeniedWithin(t, es, p, a, l) ==> InSomeWindow(t, es, p, l);
      }
    }
  }

  // ------------------------------------------------------------------ inert entries

  /** Everything that decides access: the state without the pending requests. */
  function Core(st: Perms): Perms {
    st.(requests := map[])
  }

  predicate StewardKind(k: Kind) {
    k == KindMembership || k == KindGrant || k == KindDeny || k == KindRevoke
  }

  /** Entries with no authority in `es`: access requests, and steward decisions by a key
      that is a steward at no point of the fold. */
  ghost predicate Inert(t: string, es: seq<Entry>, e: Entry) {
    || e.kind == KindAccessRequest
    || (StewardKind(e.kind) && forall k: nat :: k <= |es| ==> e.author !in Before(t, es, k).stewards)
  }

  lemma MembershipOnCore(st: Perms, e: Entry)
    ensures Core(ApplyMembership(Core(st), e)) == Core(ApplyMembership(st, e))
  {
    if e.body.MembershipBody? {
      assert Authorised(Core(st), e) == Authorised(st, e);
      hide Authorised;
      assert Core(st).stewards == st.stewards && Core(st).grants == st.grants && Core(st).expiry == st.expiry;
    }
  }

  lemma GrantOnCore(st: Perms, e: Entry)
    ensures Core(ApplyGrant(Core(st), e)) == Core(ApplyGrant(st, e))
  {
    assert Authorised(Core(st), e) == Authorised(st, e);
    hide Authorised, GrantedScopes, ClockAt, Answered;
  }

  lemma DenyOnCore(st: Perms, e: Entry)
    ensures Core(ApplyDeny(Core(st), e)) == Core(ApplyDeny(st, e))
  {
    assert Authorised(Core(st), e) == Authorised(st, e);
    hide Authorised, ClockAt, Answered;
  }

  lemma ThreadOnCore(st: Perms, e: Entry)
    ensures Core(ApplyThread(Core(st), e)) == Core(ApplyThread(st, e))
  {
    hide NamedStewards;
  }

  lemma DelegationOnCore(st: Perms, e: Entry)
    ensures Core(ApplyDelegation(Core(st), e)) == Core(ApplyDelegation(st, e))
  {
  }

  lemma RequestOnCore(st: Perms, e: Entry)
    ensures Core(ApplyRequest(Core(st), e)) == Core(ApplyRequest(st, e)) == Core(Core(st)) == Core(st)
  {
  }

  lemma ApplyCore(st: Perms, e: Entry)
    ensures Core(Apply(Core(st), e)) == Core(Apply(st, e))
  {
    hide Core, ApplyThread, ApplyMembership, ApplyDelegation, ApplyRequest, ApplyGrant, ApplyDeny;
    ThreadOnCore(st, e);
    MembershipOnCore(st, e);
    DelegationOnCore(st, e);
    RequestOnCore(st, e);
    GrantOnCore(st, e);
    DenyOnCore(st, e);
  }

  /** The core after an entry depends on the core before it alone. */
  lemma ApplyOnCore(a: Perms, b: Perms, e: Entry)
    requires Core(a) == Core(b)
    ensures Core(Apply(a, e)) == Core(Apply(b, e))
  {
    hide Apply, Core;
    ApplyCore(a, e);
    ApplyCore(b, e);
  }

  lemma ApplyInert(st: Perms, e: Entry)
    requires e.kind == KindAccessRequest || (StewardKind(e.kind) && e.author !in st.stewards)
    ensures Core(Apply(st, e)) == Core(st)
  {
    match e.kind
    case KindMembership => hide ApplyGrant, ApplyDeny, ApplyRequest;
    case KindAccessRequest => hide ApplyMembership, ApplyGrant, ApplyDeny;
    case KindGrant => hide ApplyMembership, ApplyDeny, ApplyRequest;
    case KindDeny => hide ApplyMembership, ApplyGrant, ApplyRequest;
    case KindRevoke => hide ApplyMembership, ApplyGrant, ApplyRequest;
  }

  lemma FilterIsPrefix(fs: seq<Entry>, keep: Entry -> bool)
    requires fs != []
    ensures var es, front := Filter(fs, keep), Filter(fs[..|fs| - 1], keep);
      |front| <= |es| && es[..|front|] == front
  {
  }

  lemma InertPrefix(t: string, es: seq<Entry>, n: nat, e: Entry)
    requires n <= |es| && Inert(t, es, e)
    ensures Inert(t, es[..n], e) && (StewardKind(e.kind) ==> e.author !in Fold(t, es[..n]).stewards)
  {
    forall k: nat | k <= n ensures Before(t, es[..n], k) == Before(t, es, k) {
      assert es[..n][..k] == es[..k];
    }
    if StewardKind(e.kind) {
      assert e.author !in Before(t, es, n).stewards;
    }
  }

  /** Entries without authority never change anyone's access, wherever they land in the
      order: `fs` is `es` with any inert entries put in at any positions. */
  lemma {:induction false} InertEntriesChangeNothing(t: string, es: seq<Entry>, fs: seq<Entry>, keep: Entry -> bool)
    requires Filter(fs, keep) == es
    requires forall e :: e in fs && !keep(e) ==> Inert(t, es, e)
    ensures Core(Fold(t, fs)) == Core(Fold(t, es))
    decreases |fs|
  {
    hide Apply, Inert, Core;
    if fs != [] {
      var n := |fs| - 1;
      var front, last := fs[..n], fs[n];
      var kept := Filter(front, keep);
      FilterIsPrefix(fs, keep);
      forall e | e in front && !keep(e) ensures Inert(t, kept, e) {
        InertPrefix(t, es, |kept|, e);
      }
      InertEntriesChangeNothing(t, kept, front, keep);
      InertLast(t, es, kept, front, last, keep);
      FoldLast(t, fs);
    }
  }

  lemma InertLast(t: string, es: seq<Entry>, kept: seq<Entry>, front: seq<Entry>, last: Entry, keep: Entry -> bool)
    requires es == if keep(last) then kept + [last] else kept
    requires Core(Fold(t, front)) == Core(Fold(t, kept))
    requires !keep(last) ==> Inert(t, es, last)
    ensures Core(FoldStep(t, Fold(t, front), last)) == Core(Fold(t, es))
  {
    hide Apply;
    if keep(last) {
      FoldSnoc(t, kept, last);
      ApplyOnCore(Fold(t, front), Fold(t, kept), last);
    } else {
      assert es[..|es|] == es;
      assert StewardKind(last.kind) ==> last.author !in Before(t, es, |es|).stewards;
      if Relevant(t, last) {
        ApplyInert(Fold(t, front), last);
      }
    }
  }

  /** What a core decides, for every principal, time and clock. */
  lemma CoreDecides(a: Perms, b: Perms, p: string, q: string, now: int, l: u64)
    requires Core(a) == Core(b)
    ensures Lanes(a, p, now) == Lanes(b, p, now)
    ensures MayContribute(a, p, l) == MayContribute(b, p, l)
    ensures ActsFor(a, p, q) == ActsFor(b, p, q)
  {
    assert a == Core(b).(requests := a.requests);
  }

  function Except(e: Entry): Entry -> bool {
    (x: Entry) => x != e
  }

  lemma {:induction false} FilterInserted(es: seq<Entry>, i: nat, e: Entry)
    requires i <= |es| && e !in es
    ensures Filter(InsertAt(es, i, e), Except(e)) == es
  {
    hide Filter;
    var a, b := es[..i], es[i..];
    assert InsertAt(es, i, e) == (a + [e]) + b;
    FilterConcat(a + [e], b, Except(e));
    FilterConcat(a, [e], Except(e));
    FilterAll(a, Except(e));
    FilterAll(b, Except(e));
    FilterNone([e], Except(e));
  }

  lemma NewId(l: Log, e: Entry)
    requires Inv(l) && e.id !in l.byId
    ensures forall x :: x in l.entries ==> x.id != e.id
  {
    hide ChainSet, HeadsOf, ClockOf, InOrder;
    assert forall x :: x in l.entries ==> x in Elems(l.entries);
  }

  /** An access request may land anywhere in the order (it carries clock 1): admitting it
      changes nobody's access. */
  lemma AdmittedRequestIsInert(l: Log, e: Entry, t: string)
    requires Inv(l) && Append(l, e).Admitted? && e.kind == KindAccessRequest
    ensures Core(Fold(t, Append(l, e).log.entries)) == Core(Fold(t, l.entries))
  {
    hide Fold, Core, Inv, InsertAt, Position, ChainError, Validate;
    if e.id !in l.byId {
      NewId(l, e);
      FilterInserted(l.entries, Position(l.entries, e), e);
      InertEntriesChangeNothing(t, l.entries, Append(l, e).log.entries, Except(e));
    }
  }

  // ------------------------------------------------------------------ fresh decisions

  /** No recorded deny or request is newer than the log's clock. */
  ghost predicate ClocksBelow(st: Perms, n: u64) {
    && (forall p :: p in st.deniedAt ==> st.deniedAt[p] <= n)
    && (forall p :: p in st.requests ==> st.requests[p].lamport <= n)
  }

  lemma GrantClocksBelow(st: Perms, e: Entry, n: u64)
    requires ClocksBelow(st, n)
    ensures ClocksBelow(ApplyGrant(st, e), n)
  {
    hide GrantedScopes, Authorised;
  }

  lemma DenyClocksBelow(st: Perms, e: Entry, n: u64)
    requires ClocksBelow(st, n) && e.lamport <= n
    ensures ClocksBelow(ApplyDeny(st, e), n)
  {
    hide Authorised;
  }

  lemma RequestClocksBelow(st: Perms, e: Entry, n: u64)
    requires ClocksBelow(st, n) && e.lamport <= n
    ensures ClocksBelow(ApplyRequest(st, e), n)
  {
  }

  lemma ApplyClocksBelow(st: Perms, e: Entry, n: u64)
    requires ClocksBelow(st, n) && e.lamport <= n
    ensures ClocksBelow(Apply(st, e), n)
  {
    hide ApplyThread, ApplyMembership, ApplyDelegation, ApplyRequest, ApplyGrant, ApplyDeny;
    GrantClocksBelow(st, e, n);
    DenyClocksBelow(st, e, n);
    RequestClocksBelow(st, e, n);
  }

  lemma {:induction false} FoldClocksBelow(t: string, es: seq<Entry>, n: u64)
    requires forall e :: e in es ==> e.lamport <= n
    ensures ClocksBelow(Fold(t, es), n)
    decreases |es|
  {
    hide Apply, ClocksBelow;
    if es == [] {
      assert ClocksBelow(INITIAL, n) by { InitialClocks(n); }
    } else {
      var front, last := es[..|es| - 1], es[|es| - 1];
      FoldClocksBelow(t, front, n);
      ApplyClocksBelow(Fold(t, front), last, n);
      FoldLast(t, es);
    }
  }

  lemma InitialClocks(n: u64)
    ensures ClocksBelow(INITIAL, n)
  {
  }

  /** A person who is now a steward of the thread, with the log they write into. */
  ghost predicate StewardOf(l: Log, pid: string) {
    Inv(l) && pid in Fold(l.thread, l.entries).stewards && pid !in Fold(l.thread, l.entries).delegations
  }

  ghost predicate DecisionDraft(d: Draft, kind: Kind, p: string) {
    && d.kind == kind && d.lane == LaneControl && d.onBehalfOf == ""
    && d.body.Some? && d.body.value.GrantBody? && d.body.value.principal == p && p != ""
  }

  lemma FreshFold(l: Log, pid: string, d: Draft, id: string, ts: Option<int>)
    requires StewardOf(l, pid) && AuthorAppend(l, pid, d, id, ts).Written? && d.lane == LaneControl
    ensures var w := AuthorAppend(l, pid, d, id, ts); var st := Fold(l.thread, l.entries);
      && Fold(l.thread, w.log.entries) == Apply(st, w.entry)
      && (forall p :: p in st.deniedAt ==> st.deniedAt[p] < w.entry.lamport)
      && (forall p :: p in st.requests ==> st.requests[p].lamport < w.entry.lamport)
      && w.entry.author == pid && w.entry.kind == d.kind && w.entry.onBehalfOf == d.onBehalfOf
      && w.entry.body == d.body.value && w.entry.ts == ts && w.entry.lamport >= 1
  {
    hide Apply, AuthorAppend, Fold;
    AuthorAppendsLast(l, pid, d, id, ts);
    AuthorAppendExact(l, pid, d, id, ts);
    var w := AuthorAppend(l, pid, d, id, ts);
    FoldSnoc(l.thread, l.entries, w.entry);
    var n: u64 := l.lamport;
    forall e | e in l.entries ensures e.lamport <= n {
      assert e in Elems(l.entries);
    }
    FoldClocksBelow(l.thread, l.entries, n);
    FreshClock(l, pid, d, id, ts);
  }

  lemma FreshClock(l: Log, pid: string, d: Draft, id: string, ts: Option<int>)
    requires AuthorAppend(l, pid, d, id, ts).Written? && l.lamport < MAX_U64
    ensures AuthorAppend(l, pid, d, id, ts).entry.lamport == l.lamport + 1
  {
    hide Append;
  }

  lemma GrantFields(st: Perms, e: Entry, p: string)
    requires Authorised(st, e) && CreatesGrant(e, p) && e.lamport > ClockAt(st.deniedAt, p)
    requires p in st.requests ==> st.requests[p].lamport <= e.lamport
    ensures var r := Apply(st, e);
      && p in r.grants && r.grants[p] == GrantedScopes(e) && p !in r.requests
      && (e.body.ttlSeconds <= 0 ==> p !in r.expiry)
      && (e.body.ttlSeconds > 0 && e.ts.Some? ==> p in r.expiry && r.expiry[p] == e.ts.value + e.body.ttlSeconds)
  {
    hide Authorised, GrantedScopes, ClockAt;
  }

  lemma DenyFields(st: Perms, e: Entry, p: string)
    requires Authorised(st, e) && Denies(e, p) && e.lamport > ClockAt(st.deniedAt, p)
    requires p in st.requests ==> st.requests[p].lamport <= e.lamport
    ensures var r := Apply(st, e);
      && p !in r.grants && p !in r.expiry && p !in r.requests
      && p in r.deniedAt && r.deniedAt[p] == e.lamport
  {
    hide Authorised, ClockAt;
  }

  /** A grant a steward writes takes effect at once, whatever was denied before: exactly the
      valid scopes it names, its own expiry, and no pending request left. */
  lemma FreshGrantTakesEffect(l: Log, pid: string, d: Draft, id: string, ts: Option<int>, p: string)
    requires StewardOf(l, pid) && AuthorAppend(l, pid, d, id, ts).Written? && DecisionDraft(d, KindGrant, p)
    requires exists s :: s in d.body.value.scopes && ValidScope(s)
    ensures var st := Fold(l.thread, AuthorAppend(l, pid, d, id, ts).log.entries);
      && p in st.grants && st.grants[p] == (set s | s in d.body.value.scopes && ValidScope(s))
      && p !in st.requests
      && (d.body.value.ttlSeconds <= 0 ==> p !in st.expiry)
      && (d.body.value.ttlSeconds > 0 && ts.Some? ==>
            p in st.expiry && st.expiry[p] == ts.value + d.body.value.ttlSeconds)
  {
    hide AuthorAppend, Fold, Apply, Inv;
    FreshFold(l, pid, d, id, ts);
    var w := AuthorAppend(l, pid, d, id, ts);
    var s :| s in d.body.value.scopes && ValidScope(s);
    assert s in GrantedScopes(w.entry);
    GrantFields(Fold(l.thread, l.entries), w.entry, p);
  }

  /** A deny or revoke a steward writes takes effect at once. */
  lemma FreshDenyTakesEffect(l: Log, pid: string, d: Draft, id: string, ts: Option<int>, p: string)
    requires StewardOf(l, pid) && AuthorAppend(l, pid, d, id, ts).Written?
    requires DecisionDraft(d, KindDeny, p) || DecisionDraft(d, KindRevoke, p)
    ensures var w := AuthorAppend(l, pid, d, id, ts); var st := Fold(l.thread, w.log.entries);
      && p !in st.grants && p !in st.expiry && p !in st.requests
      && p in st.deniedAt && st.deniedAt[p] == w.entry.lamport
  {
    hide AuthorAppend, Fold, Apply, Inv;
    FreshFold(l, pid, d, id, ts);
    DenyFields(Fold(l.thread, l.entries), AuthorAppend(l, pid, d, id, ts).entry, p);
  }

  /** In terms of access: right after the grant, anyone who is neither steward nor agent holds
      exactly the valid scopes it names, until it expires. */
  lemma FreshGrantIsEffective(l: Log, pid: string, d: Draft, id: string, ts: Option<int>, p: string, now: int)
    requires StewardOf(l, pid) && AuthorAppend(l, pid, d, id, ts).Written? && DecisionDraft(d, KindGrant, p)
    requires exists s :: s in d.body.value.scopes && ValidScope(s)
    requires ts.Some? && (d.body.value.ttlSeconds > 0 ==> now <= ts.value + d.body.value.ttlSeconds)
    requires var st := Fold(l.thread, AuthorAppend(l, pid, d, id, ts).log.entries);
      p !in st.stewards && p !in st.delegations
    ensures EffectiveScopes(Fold(l.thread, AuthorAppend(l, pid, d, id, ts).log.entries), p, now)
         == set s | s in d.body.value.scopes && ValidScope(s)
  {
    hide AuthorAppend, Fold, StewardOf;
    FreshGrantTakesEffect(l, pid, d, id, ts, p);
  }
}
