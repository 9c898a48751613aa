/** Access requests and delegations in closed form: when a request is admitted and stays
    pending, and whose agent a key is. */
module Requests {
  import opened Entries
  import opened Sequences
  import opened ThreadLogs
  import opened Perm
  import opened PermLaws
  import opened PermWindows

  /** `BuildAccessRequest`: the first entry of the outsider's own control chain, at clock 1. */
  function BuildAccessRequest(
    pid: string, thread: string, scopes: seq<string>, reason: string, id: string, ts: Option<int>): Entry
  {
    Entry(ENVELOPE_VERSION, id, thread, KindAccessRequest, LaneControl, pid, "", 1, 1, GenesisPrev, ts,
          AccessRequestBody(scopes, reason), Some(pid), "")
  }

  /** A built request is admitted exactly by logs that hold no control entry of its author. */
  lemma BuiltRequestAdmitted(
    l: Log, pid: string, scopes: seq<string>, reason: string, id: string, ts: Option<int>)
    requires Inv(l) && IsPrincipal(pid) && id !in l.byId
    ensures Append(l, BuildAccessRequest(pid, l.thread, scopes, reason, id, ts)).Admitted?
       <==> ChainKey(l.thread, pid, LaneControl) !in l.heads
  {
    hide ChainSet, IndexOf, ClockOf, InOrder, Insert;
    HeadsHeld(l);
  }

  function RequesterOf(e: Entry): string {
    if e.onBehalfOf != "" then e.onBehalfOf else e.author
  }

  /** Entry `i` asks for `p`. */
  predicate AsksFor(t: string, es: seq<Entry>, i: nat, p: string) {
    && i < |es| && Relevant(t, es[i])
    && es[i].kind == KindAccessRequest && es[i].body.AccessRequestBody? && RequesterOf(es[i]) == p
  }

  /** Entry `i` decides about `p`: a grant that takes effect, or a decisive deny. */
  predicate Answers(t: string, es: seq<Entry>, i: nat, p: string) {
    && i < |es| && Relevant(t, es[i])
    && (GrantTakesEffect(Before(t, es, i), es[i], p) || DenialOf(t, es, i, p))
  }

  /** Entry `i` asks for `p` and nothing after it asks again or answers. */
  ghost predicate Unanswered(t: string, es: seq<Entry>, i: nat, p: string) {
    AsksFor(t, es, i, p) && forall j: nat :: i < j < |es| ==> !AsksFor(t, es, j, p) && !Answers(t, es, j, p)
  }

  function RecordOf(e: Entry): Request
    requires e.body.AccessRequestBody?
  {
    Request(e.id, RequesterOf(e), e.body.scopes, e.body.reason, e.ts, e.lamport)
  }

  lemma GrantRequests(st: Perms, e: Entry, p: string)
    requires e.kind == KindGrant
    requires p in st.requests ==> st.requests[p].lamport <= e.lamport
    ensures if GrantTakesEffect(st, e, p) then p !in ApplyGrant(st, e).requests
            else SameAt(st.requests, ApplyGrant(st, e).requests, p)
  {
    hide Authorised, GrantedScopes;
  }

  lemma DenyRequests(st: Perms, e: Entry, p: string)
    requires e.kind == KindDeny || e.kind == KindRevoke
    requires p in st.requests ==> st.requests[p].lamport <= e.lamport
    ensures if Authorised(st, e) && Denies(e, p) then p !in ApplyDeny(st, e).requests
            else SameAt(st.requests, ApplyDeny(st, e).requests, p)
  {
    hide Authorised;
  }

  /** What one entry does to the pending request of `p`. */
  lemma ApplyRequests(st: Perms, e: Entry, p: string)
    requires p in st.requests ==> st.requests[p].lamport <= e.lamport
    ensures var r := Apply(st, e).requests;
      if e.kind == KindAccessRequest && e.body.AccessRequestBody? && RequesterOf(e) == p
      then p in r && r[p] == RecordOf(e)
      else if GrantTakesEffect(st, e, p) || (Authorised(st, e) && Denies(e, p)) then p !in r
      else SameAt(st.requests, r, p)
  {
    hide ApplyThread, ApplyMembership, ApplyDelegation, ApplyGrant, ApplyDeny, Authorised;
    if e.kind == KindGrant {
      GrantRequests(st, e, p);
    } else if e.kind == KindDeny || e.kind == KindRevoke {
      DenyRequests(st, e, p);
    }
  }

  ghost predicate PendingAs(t: string, es: seq<Entry>, p: string, requests: map<string, Request>) {
    && (p in requests <==> exists i: nat :: Unanswered(t, es, i, p))
    && (forall i: nat :: Unanswered(t, es, i, p) ==> p in requests && requests[p] == RecordOf(es[i]))
  }

  lemma AsksPrefix(t: string, es: seq<Entry>, n: nat, i: nat, p: string)
    requires i < n <= |es|
    ensures AsksFor(t, es[..n], i, p) == AsksFor(t, es, i, p)
    ensures Answers(t, es[..n], i, p) == Answers(t, es, i, p)
  {
    DecisivePrefix(t, es, n, i);
  }

  lemma UnansweredPrefix(t: string, es: seq<Entry>, i: nat, p: string)
    requires i < |es| - 1
    ensures var n := |es| - 1;
      Unanswered(t, es, i, p) <==> Unanswered(t, es[..n], i, p) && !AsksFor(t, es, n, p) && !Answers(t, es, n, p)
  {
    hide AsksFor, Answers;
    var n := |es| - 1;
    var front := es[..n];
    AsksPrefix(t, es, n, i, p);
    forall j: nat | i < j < n
      ensures AsksFor(t, front, j, p) == AsksFor(t, es, j, p) && Answers(t, front, j, p) == Answers(t, es, j, p)
    {
      AsksPrefix(t, es, n, j, p);
    }
  }

  lemma UnansweredLast(t: string, es: seq<Entry>, p: string)
    requires es != []
    ensures forall i: nat :: Unanswered(t, es, i, p) ==> i < |es|
    ensures Unanswered(t, es, |es| - 1, p) <==> AsksFor(t, es, |es| - 1, p)
  {
    hide Answers;
  }

  /** Pending requests in closed form: `p` has a pending request exactly when some entry asks
      for `p` and nothing later in the order asks again or answers it.  A request lands at
      clock 1, so any decision about `p` made before it was filed answers it too. */
  lemma {:induction false} RequestsClosedForm(t: string, es: seq<Entry>, p: string)
    requires Clocked(es)
    ensures PendingAs(t, es, p, Fold(t, es).requests)
    decreases |es|
  {
    if es == [] {
    } else {
      hide PendingAs, Fold;
      RequestsClosedForm(t, es[..|es| - 1], p);
      RequestsStep(t, es, p);
    }
  }

  lemma RequestsStep(t: string, es: seq<Entry>, p: string)
    requires Clocked(es) && es != []
    requires PendingAs(t, es[..|es| - 1], p, Before(t, es, |es| - 1).requests)
    ensures PendingAs(t, es, p, Fold(t, es).requests)
  {
    hide Fold, Before, Unanswered, AsksFor, Answers, Relevant;
    var n := |es| - 1;
    var front := es[..n];
    forall i: nat | i < n
      ensures Unanswered(t, es, i, p) <==> Unanswered(t, front, i, p) && !AsksFor(t, es, n, p) && !Answers(t, es, n, p)
      ensures front[i] == es[i]
    {
      UnansweredPrefix(t, es, i, p);
    }
    UnansweredLast(t, es, p);
    UnansweredInRange(t, front, p);
    StepOnRequests(t, es, p);
    if AsksFor(t, es, n, p) {
    } else if Answers(t, es, n, p) {
    } else {
      assert forall i: nat :: Unanswered(t, es, i, p) <==> Unanswered(t, front, i, p);
    }
  }

  lemma UnansweredInRange(t: string, es: seq<Entry>, p: string)
    ensures forall i: nat :: Unanswered(t, es, i, p) ==> i < |es| && es[i].body.AccessRequestBody?
  {
    hide Answers;
  }

  lemma StepOnRequests(t: string, es: seq<Entry>, p: string)
    requires Clocked(es) && es != []
    requires PendingAs(t, es[..|es| - 1], p, Before(t, es, |es| - 1).requests)
    ensures var n := |es| - 1; var r := Fold(t, es).requests;
      if AsksFor(t, es, n, p) then es[n].body.AccessRequestBody? && p in r && r[p] == RecordOf(es[n])
      else if Answers(t, es, n, p) then p !in r
      else SameAt(Before(t, es, n).requests, r, p)
  {
    hide Apply, Authorised, Unanswered, GrantTakesEffect;
    var n := |es| - 1;
    var st := Before(t, es, n);
    UnansweredInRange(t, es[..n], p);
    if p in st.requests {
      var i: nat :| Unanswered(t, es[..n], i, p);
      assert st.requests[p].lamport == es[i].lamport;
    }
    ApplyRequests(st, es[n], p);
    FoldLast(t, es);
  }

  // ------------------------------------------------------------------ a request just filed

  /** The fold before a later entry, with and without the request: the same access. */
  lemma SameCoreBefore(t: string, es: seq<Entry>, n: nat, e: Entry, j: nat)
    requires n <= j < |es| && e !in es && e.kind == KindAccessRequest
    ensures InsertAt(es, n, e)[j + 1] == es[j]
    ensures Core(Before(t, InsertAt(es, n, e), j + 1)) == Core(Before(t, es, j))
  {
    hide Fold, Core;
    assert InsertAt(es, n, e)[..j + 1] == InsertAt(es[..j], n, e);
    FilterInserted(es[..j], n, e);
    InertEntriesChangeNothing(t, es[..j], InsertAt(es[..j], n, e), Except(e));
  }

  /** Asking and answering depend on the access before an entry alone. */
  lemma SameAnswer(t: string, es: seq<Entry>, fs: seq<Entry>, i: nat, j: nat, p: string)
    requires i < |es| && j < |fs| && es[i] == fs[j] && Core(Before(t, es, i)) == Core(Before(t, fs, j))
    ensures AsksFor(t, es, i, p) == AsksFor(t, fs, j, p) && Answers(t, es, i, p) == Answers(t, fs, j, p)
  {
    hide Fold, Before, Relevant, GrantedScopes;
    assert Before(t, es, i) == Core(Before(t, fs, j)).(requests := Before(t, es, i).requests);
  }

  /** What follows the request in the order is what sorts after it. */
  ghost predicate NothingAfterAnswers(t: string, es: seq<Entry>, e: Entry, p: string) {
    forall j: nat :: j < |es| && Less(e, es[j]) ==> !AsksFor(t, es, j, p) && !Answers(t, es, j, p)
  }

  lemma UnansweredInserted(l: Log, e: Entry, p: string)
    requires Inv(l) && e.id !in l.byId && e.lane == LaneControl && e.thread == l.thread
    requires e.kind == KindAccessRequest && e.body.AccessRequestBody? && RequesterOf(e) == p
    ensures var n := Position(l.entries, e);
      Unanswered(l.thread, InsertAt(l.entries, n, e), n, p) <==> NothingAfterAnswers(l.thread, l.entries, e, p)
  {
    hide Fold, Core, Answers, Before, Inv;
    var es := l.entries;
    var n := Position(es, e);
    var fs := InsertAt(es, n, e);
    InsertPlace(l, e);
    forall j: nat | n <= j < |es|
      ensures AsksFor(l.thread, fs, j + 1, p) == AsksFor(l.thread, es, j, p)
      ensures Answers(l.thread, fs, j + 1, p) == Answers(l.thread, es, j, p)
    {
      SameCoreBefore(l.thread, es, n, e, j);
      SameAnswer(l.thread, es, fs, j, j + 1, p);
    }
    if NothingAfterAnswers(l.thread, es, e, p) {
      forall j: nat | n < j < |fs| ensures !AsksFor(l.thread, fs, j, p) && !Answers(l.thread, fs, j, p) {
        assert j == (j - 1) + 1 && Less(e, es[j - 1]);
      }
    }
    if Unanswered(l.thread, fs, n, p) {
      forall j: nat | j < |es| && Less(e, es[j]) ensures !AsksFor(l.thread, es, j, p) && !Answers(l.thread, es, j, p) {
        assert n < j + 1 < |fs|;
      }
    }
  }

  lemma InsertPlace(l: Log, e: Entry)
    requires Inv(l) && e.id !in l.byId
    ensures e !in l.entries
    ensures forall j: nat :: j < |l.entries| ==> (Less(e, l.entries[j]) <==> Position(l.entries, e) <= j)
  {
    hide Less, Position, ChainSet, HeadsOf, ClockOf;
    assert forall x :: x in l.entries ==> x in Elems(l.entries) && x.id != e.id;
    forall j: nat | j < |l.entries| ensures Less(e, l.entries[j]) <==> Position(l.entries, e) <= j {
      PlaceInOrder(l.entries, e, j);
    }
  }

  lemma PlaceInOrder(es: seq<Entry>, e: Entry, j: nat)
    requires InOrder(es) && j < |es| && forall x :: x in es ==> x.id != e.id
    ensures Less(e, es[j]) <==> Position(es, e) <= j
  {
    hide Less;
    var n := Position(es, e);
    LessTotal(e, es[j]);
    if n < j {
      LessTotal(e, es[n]);
      LessTransitive(e, es[n], es[j]);
    }
  }

  /** A filed request is the one pending for its author exactly when no decision about that
      author, and no other request for it, sorts after it.  It carries clock 1, so decisions
      made before it was filed sort after it too, and answer it. */
  lemma FiledRequestPending(
    l: Log, pid: string, scopes: seq<string>, reason: string, id: string, ts: Option<int>)
    requires Inv(l) && IsPrincipal(pid) && id !in l.byId
    requires ChainKey(l.thread, pid, LaneControl) !in l.heads
    ensures var e := BuildAccessRequest(pid, l.thread, scopes, reason, id, ts);
      var requests := Fold(l.thread, Append(l, e).log.entries).requests;
      pid in requests && requests[pid] == RecordOf(e) <==> NothingAfterAnswers(l.thread, l.entries, e, pid)
  {
    hide Inv, Fold, Unanswered, NothingAfterAnswers, IsPrincipal;
    var e := BuildAccessRequest(pid, l.thread, scopes, reason, id, ts);
    BuiltRequestAdmitted(l, pid, scopes, reason, id, ts);
    AppendExact(l, e);
    var n := Position(l.entries, e);
    var fs := Append(l, e).log.entries;
    assert fs == InsertAt(l.entries, n, e) && fs[n] == e;
    UnansweredInserted(l, e, pid);
    LogIsClocked(Append(l, e).log);
    RequestsClosedForm(l.thread, fs, pid);
    UnansweredInRange(l.thread, fs, pid);
    var requests := Fold(l.thread, fs).requests;
    if pid in requests && requests[pid] == RecordOf(e) {
      var i: nat :| Unanswered(l.thread, fs, i, pid);
      assert fs[i].id == e.id;
      HeldOnce(Append(l, e).log, fs[i], e);
      SamePlace(Append(l, e).log, i, n);
    }
  }

  /** A built request is the author's own, first in its chain, and sorts before every entry with
      a later clock than 1. */
  lemma BuiltRequestComesFirst(
    pid: string, thread: string, scopes: seq<string>, reason: string, id: string, ts: Option<int>, x: Entry)
    ensures var e := BuildAccessRequest(pid, thread, scopes, reason, id, ts);
      && RecordOf(e) == Request(id, pid, scopes, reason, ts, 1)
      && KeyOf(e) == ChainKey(thread, pid, LaneControl) && e.seqNo == 1 && e.prev == GenesisPrev
      && (x.lamport >= 2 ==> Less(e, x))
  {
  }

  lemma SamePlace(l: Log, i: nat, j: nat)
    requires Inv(l) && i < |l.entries| && j < |l.entries| && l.entries[i] == l.entries[j]
    ensures i == j
  {
    InOrderDistinct(l.entries);
  }

  // ------------------------------------------------------------------ delegations

  /** Entry `i` binds the agent key `a` to its author. */
  predicate Binds(t: string, es: seq<Entry>, i: nat, a: string) {
    && i < |es| && Relevant(t, es[i]) && es[i].kind == KindDelegation && es[i].onBehalfOf == ""
    && es[i].body.DelegationBody? && es[i].body.agent == a && a != "" && !es[i].body.revoked
  }

  /** Entry `i` is `person` revoking the agent key `a`. */
  predicate Unbinds(t: string, es: seq<Entry>, i: nat, a: string, person: string) {
    && i < |es| && Relevant(t, es[i]) && es[i].kind == KindDelegation && es[i].onBehalfOf == ""
    && es[i].body.DelegationBody? && es[i].body.agent == a && a != "" && es[i].body.revoked
    && es[i].author == person
  }

  /** Entry `i` is the binding of `a` in force: none later, and not revoked by its author. */
  ghost predicate BoundBy(t: string, es: seq<Entry>, i: nat, a: string) {
    Binds(t, es, i, a) &&
    forall j: nat :: i < j < |es| ==> !Binds(t, es, j, a) && !Unbinds(t, es, j, a, es[i].author)
  }

  ghost predicate AgentsAre(t: string, es: seq<Entry>, a: string, delegations: map<string, string>) {
    && (a in delegations <==> exists i: nat :: BoundBy(t, es, i, a))
    && (forall i: nat :: BoundBy(t, es, i, a) ==> a in delegations && delegations[a] == es[i].author)
  }

  lemma ApplyDelegations(st: Perms, e: Entry, a: string)
    requires a in st.delegations ==> st.delegations[a] != ""
    requires e.author != ""
    ensures var r := Apply(st, e).delegations;
      var concerns :=
        e.kind == KindDelegation && e.onBehalfOf == "" && e.body.DelegationBody? && e.body.agent == a && a != "";
      if concerns && !e.body.revoked then a in r && r[a] == e.author
      else if concerns && a in st.delegations && st.delegations[a] == e.author then a !in r
      else SameAt(st.delegations, r, a)
  {
    hide ApplyThread, ApplyMembership, ApplyRequest, ApplyGrant, ApplyDeny;
  }

  lemma BoundPrefix(t: string, es: seq<Entry>, i: nat, a: string)
    requires i < |es| - 1
    ensures var n := |es| - 1;
      BoundBy(t, es, i, a) <==>
        BoundBy(t, es[..n], i, a) && !Binds(t, es, n, a) && !Unbinds(t, es, n, a, es[i].author)
  {
    hide Relevant;
    var n := |es| - 1;
    var front := es[..n];
    forall j: nat | j < n
      ensures Binds(t, front, j, a) == Binds(t, es, j, a)
      ensures Unbinds(t, front, j, a, es[i].author) == Unbinds(t, es, j, a, es[i].author)
    {
      assert front[j] == es[j];
    }
  }

  lemma BoundInRange(t: string, es: seq<Entry>, a: string)
    ensures forall i: nat :: BoundBy(t, es, i, a) ==> i < |es|
    ensures es != [] ==> (BoundBy(t, es, |es| - 1, a) <==> Binds(t, es, |es| - 1, a))
  {
  }

  lemma StepOnDelegations(t: string, es: seq<Entry>, a: string)
    requires es != [] && (forall i :: 0 <= i < |es| ==> es[i].author != "")
    requires AgentsAre(t, es[..|es| - 1], a, Before(t, es, |es| - 1).delegations)
    ensures var n := |es| - 1; var was, r := Before(t, es, n).delegations, Fold(t, es).delegations;
      if Binds(t, es, n, a) then a in r && r[a] == es[n].author
      else if a in was && Unbinds(t, es, n, a, was[a]) then a !in r
      else SameAt(was, r, a)
  {
    hide Apply, BoundBy;
    var n := |es| - 1;
    var st := Before(t, es, n);
    BoundInRange(t, es[..n], a);
    if a in st.delegations {
      var i: nat :| BoundBy(t, es[..n], i, a);
      assert es[..n][i].author == es[i].author != "";
    }
    ApplyDelegations(st, es[n], a);
    FoldLast(t, es);
  }

  lemma DelegationsStep(t: string, es: seq<Entry>, a: string)
    requires es != [] && (forall i :: 0 <= i < |es| ==> es[i].author != "")
    requires AgentsAre(t, es[..|es| - 1], a, Before(t, es, |es| - 1).delegations)
    ensures AgentsAre(t, es, a, Fold(t, es).delegations)
  {
    hide Fold, Before, BoundBy, Binds, Unbinds;
    var n := |es| - 1;
    var front, was := es[..n], Before(t, es, n).delegations;
    forall i: nat | i < n
      ensures BoundBy(t, es, i, a) <==>
        BoundBy(t, front, i, a) && !Binds(t, es, n, a) && !Unbinds(t, es, n, a, es[i].author)
      ensures front[i] == es[i]
    {
      BoundPrefix(t, es, i, a);
    }
    BoundInRange(t, es, a);
    BoundInRange(t, front, a);
    StepOnDelegations(t, es, a);
    if Binds(t, es, n, a) {
      assert BoundBy(t, es, n, a);
    } else if a in was {
      var i: nat :| BoundBy(t, front, i, a);
      assert was[a] == es[i].author;
      assert Unbinds(t, es, n, a, was[a]) || BoundBy(t, es, i, a);
    }
  }

  /** Delegations in closed form: a key acts for the author of the last binding of it, unless
      that author revoked it afterwards.  Nobody else can revoke it, but anyone's newer
      binding takes its place. */
  lemma {:induction false} DelegationsClosedForm(t: string, es: seq<Entry>, a: string)
    requires forall i :: 0 <= i < |es| ==> es[i].author != ""
    ensures AgentsAre(t, es, a, Fold(t, es).delegations)
    decreases |es|
  {
    if es == [] {
      BoundInRange(t, es, a);
    } else {
      hide AgentsAre, Fold;
      DelegationsClosedForm(t, es[..|es| - 1], a);
      DelegationsStep(t, es, a);
    }
  }
}
