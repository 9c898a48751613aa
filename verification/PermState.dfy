/** The mutable permission state the program folds into, proved against the fold on values. */
module PermState {
  import opened Entries
  import opened Perm
  import InsertionSort

  function ByLamport(): (Request, Request) -> bool {
    (a: Request, b: Request) => a.lamport < b.lamport
  }

  class State {
    var stewards: set<string>
    var discoverable: bool
    var title: string
    var requests: map<string, Request>
    var grants: map<string, ScopeSet>
    var expiry: map<string, int>
    var delegations: map<string, string>
    var deniedAt: map<string, u64>
    var contribAt: map<string, u64>

    ghost function View(): Perms
      reads this
    {
      Perms(stewards, discoverable, title, requests, grants, expiry, delegations, deniedAt, contribAt)
    }

    constructor ()
      ensures View() == INITIAL
    {
      stewards, discoverable, title, requests := {}, false, "", map[];
      grants, expiry, delegations, deniedAt, contribAt := map[], map[], map[], map[], map[];
    }

    predicate SignedByPerson(e: Entry)
      reads this
      ensures SignedByPerson(e) == PersonSigned(View(), e)
    {
      e.onBehalfOf == "" && e.author !in delegations
    }

    method OnThread(e: Entry)
      modifies this
      ensures View() == ApplyThread(old(View()), e)
    {
      if e.body.ThreadBody? {
        var names := e.body.stewards;
        for i := 0 to |names|
          modifies `stewards
          invariant stewards == old(stewards) + (set s | s in names[..i])
        {
          assert names[..i + 1] == names[..i] + [names[i]];
          stewards := stewards + {names[i]};
        }
        assert names[..|names|] == names;
        title, discoverable := e.body.title, e.body.discoverable;
      }
      if stewards == {} {
        stewards := stewards + {e.author};
      }
    }

    method OnMembership(e: Entry)
      modifies this
      ensures View() == ApplyMembership(old(View()), e)
    {
      if e.author !in stewards || !SignedByPerson(e) {
        return;
      }
      if !e.body.MembershipBody? || e.body.member == "" {
        return;
      }
      var m := e.body.member;
      if e.body.role == "steward" {
        stewards := stewards + {m};
      } else if e.body.role == "removed" {
        if m in stewards && |stewards| == 1 {
          return;
        }
        stewards := stewards - {m};
        grants := grants - {m};
        expiry := expiry - {m};
      }
    }

    method OnDelegation(e: Entry)
      modifies this
      ensures View() == ApplyDelegation(old(View()), e)
    {
      if e.onBehalfOf != "" {
        return;
      }
      if !e.body.DelegationBody? || e.body.agent == "" {
        return;
      }
      if e.body.revoked {
        if StringAt(delegations, e.body.agent) == e.author {
          delegations := delegations - {e.body.agent};
        }
        return;
      }
      delegations := delegations[e.body.agent := e.author];
    }

    method OnRequest(e: Entry)
      modifies this
      ensures View() == ApplyRequest(old(View()), e)
    {
      if !e.body.AccessRequestBody? {
        return;
      }
      var principal := e.author;
      if e.onBehalfOf != "" {
        principal := e.onBehalfOf;
      }
      requests := requests[principal :=
        Request(e.id, principal, e.body.scopes, e.body.reason, e.ts, e.lamport)];
    }

    method ValidScopes(names: seq<string>) returns (ss: ScopeSet)
      ensures ss == set s | s in names && ValidScope(s)
    {
      ss := {};
      for i := 0 to |names|
        invariant ss == set s | s in names[..i] && ValidScope(s)
      {
        assert names[..i + 1] == names[..i] + [names[i]];
        if ValidScope(names[i]) {
          ss := ss + {names[i]};
        }
      }
      assert names[..|names|] == names;
    }

    method OnGrant(e: Entry)
      modifies this
      ensures View() == ApplyGrant(old(View()), e)
    {
      if e.author !in stewards || !SignedByPerson(e) {
        return;
      }
      if !e.body.GrantBody? || e.body.principal == "" {
        return;
      }
      var p := e.body.principal;
      if e.lamport <= ClockAt(deniedAt, p) {
        return;
      }
      var ss := ValidScopes(e.body.scopes);
      if ss == {} {
        return;
      }
      if p in requests && requests[p].lamport <= e.lamport {
        requests := requests - {p};
      }
      grants := grants[p := ss];
      if CONTRIBUTE in ss {
        if p !in contribAt || e.lamport < contribAt[p] {
          contribAt := contribAt[p := e.lamport];
        }
      }
      if e.body.ttlSeconds > 0 {
        if e.ts.Some? {
          expiry := expiry[p := e.ts.value + e.body.ttlSeconds];
        }
      } else {
        expiry := expiry - {p};
      }
    }

    method OnDeny(e: Entry)
      modifies this
      ensures View() == ApplyDeny(old(View()), e)
    {
      if e.author !in stewards || !SignedByPerson(e) {
        return;
      }
      if !e.body.GrantBody? || e.body.principal == "" {
        return;
      }
      var p := e.body.principal;
      grants := grants - {p};
      expiry := expiry - {p};
      if p in requests && requests[p].lamport <= e.lamport {
        requests := requests - {p};
      }
      if e.lamport > ClockAt(deniedAt, p) {
        deniedAt := deniedAt[p := e.lamport];
      }
    }

    method Apply(e: Entry)
      modifies this
      ensures View() == Perm.Apply(old(View()), e)
    {
      match e.kind
      case KindThread => OnThread(e);
      case KindMembership => OnMembership(e);
      case KindDelegation => OnDelegation(e);
      case KindAccessRequest => OnRequest(e);
      case KindGrant => OnGrant(e);
      case KindDeny => OnDeny(e);
      case KindRevoke => OnDeny(e);
      case _ =>
    }

    /** The scopes `p` holds at `now`: a copy, so the caller cannot reach into the state. */
    method EffectiveScopes(p: string, now: int) returns (out: ScopeSet)
      ensures out == Perm.EffectiveScopes(View(), p, now)
    {
      var q := p;
      if p in delegations {
        q := delegations[p];
      }
      if q in stewards {
        return ALL_SCOPES;
      }
      if q !in grants {
        return {};
      }
      if q in expiry && now > expiry[q] {
        return {};
      }
      out := {};
      var todo := grants[q];
      while todo != {}
        invariant out + todo == grants[q]
        decreases |todo|
      {
        var s :| s in todo;
        out := out + {s};
        todo := todo - {s};
      }
    }

    /** The values of the request map, in whatever order the map is walked. */
    method AllRequests() returns (out: seq<Request>)
      ensures forall r :: r in out <==> exists p :: p in requests && requests[p] == r
      ensures |out| == |requests.Keys|
    {
      out := [];
      var todo := requests.Keys;
      while todo != {}
        invariant todo <= requests.Keys
        invariant forall r :: r in out <==> exists p :: p in requests && p !in todo && requests[p] == r
        invariant |out| + |todo| == |requests.Keys|
        decreases |todo|
      {
        var p :| p in todo;
        out := out + [requests[p]];
        todo := todo - {p};
      }
    }

    /** Unanswered requests, oldest first. */
    method PendingRequests() returns (out: seq<Request>)
      ensures forall r :: r in out <==> exists p :: p in requests && requests[p] == r
      ensures forall i, j :: 0 <= i < j < |out| ==> out[i].lamport <= out[j].lamport
      ensures |out| == |requests.Keys|
    {
      var found := AllRequests();
      var a := new Request[|found|](i requires 0 <= i < |found| => found[i]);
      assert a[..] == found;
      InsertionSort.SortInPlace(a, ByLamport());
      out := a[..];
      OldestFirst(found);
      InsertionSort.SortMembers(found, ByLamport());
    }
  }

  lemma OldestFirst(found: seq<Request>)
    ensures var out := InsertionSort.Sort(found, ByLamport());
      forall i, j :: 0 <= i < j < |out| ==> out[i].lamport <= out[j].lamport
  {
    var out := InsertionSort.Sort(found, ByLamport());
    InsertionSort.SortSorts(found, ByLamport());
    forall i, j | 0 <= i < j < |out| ensures out[i].lamport <= out[j].lamport {
      assert !ByLamport()(out[j], out[i]);
    }
  }

  method FoldEntries(thread: string, entries: seq<Entry>) returns (st: State)
    ensures fresh(st) && st.View() == Fold(thread, entries)
  {
    st := new State();
    assert entries[..0] == [];
    for i := 0 to |entries|
      invariant st.View() == Fold(thread, entries[..i])
    {
      assert entries[..i + 1][..i] == entries[..i];
      var e := entries[i];
      if e.lane == LaneControl && e.thread == thread {
        st.Apply(e);
      }
    }
    assert entries[..|entries|] == entries;
  }
}
