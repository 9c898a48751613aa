/** The permission fold on values: one pass over the control lane in total order. */
module Perm {
  import opened Entries

  const CONTRIBUTE := "contribute"
  const READ := "read"
  const SUMMARY := "summary"
  const SEARCH := "search"

  predicate ValidScope(s: string) {
    s == CONTRIBUTE || s == READ || s == SUMMARY || s == SEARCH
  }

  type ScopeSet = set<string>

  const ALL_SCOPES: ScopeSet := {CONTRIBUTE, READ, SUMMARY, SEARCH}

  /** The lanes a holder of these scopes may replicate. */
  function LanesOf(ss: ScopeSet): seq<Lane> {
    if ss == {} then []
    else if READ in ss then [LaneControl, LaneSummary, LaneContent]
    else if SUMMARY in ss then [LaneControl, LaneSummary]
    else [LaneControl]
  }

  datatype Request = Request(
    entryId: string, principal: string, scopes: seq<string>, reason: string,
    ts: Option<int>, lamport: u64)

  datatype Perms = Perms(
    stewards: set<string>, discoverable: bool, title: string,
    requests: map<string, Request>,
    grants: map<string, ScopeSet>,
    expiry: map<string, int>,
    delegations: map<string, string>,
    deniedAt: map<string, u64>,
    contribAt: map<string, u64>)

  const INITIAL := Perms({}, false, "", map[], map[], map[], map[], map[], map[])

  /** A Go map read: the zero value when the key is absent. */
  function StringAt(m: map<string, string>, k: string): string {
    if k in m then m[k] else ""
  }

  function ClockAt(m: map<string, u64>, k: string): u64 {
    if k in m then m[k] else 0
  }

  /** "Only humans grant": signed for oneself, by a key that is not a delegated agent. */
  predicate PersonSigned(st: Perms, e: Entry) {
    e.onBehalfOf == "" && e.author !in st.delegations
  }

  /** A steward's own signature. */
  predicate Authorised(st: Perms, e: Entry) {
    e.author in st.stewards && PersonSigned(st, e)
  }

  function GrantedScopes(e: Entry): ScopeSet {
    if e.body.GrantBody? then set s | s in e.body.scopes && ValidScope(s) else {}
  }

  /** A grant or a deny/revoke answers a request that is not newer than it. */
  function Answered(requests: map<string, Request>, p: string, lamport: u64): map<string, Request> {
    if p in requests && requests[p].lamport <= lamport then requests - {p} else requests
  }

  function NamedStewards(e: Entry): set<string> {
    if e.body.ThreadBody? then set s | s in e.body.stewards else {}
  }

  function ApplyThread(st: Perms, e: Entry): (r: Perms)
    ensures r == st.(stewards := r.stewards, title := r.title, discoverable := r.discoverable)
  {
    var stewards := st.stewards + NamedStewards(e);
    st.(stewards := if stewards == {} then {e.author} else stewards,
        title := if e.body.ThreadBody? then e.body.title else st.title,
        discoverable := if e.body.ThreadBody? then e.body.discoverable else st.discoverable)
  }

  function ApplyMembership(st: Perms, e: Entry): (r: Perms)
    ensures r == st.(stewards := r.stewards, grants := r.grants, expiry := r.expiry)
  {
    if !Authorised(st, e) || !e.body.MembershipBody? || e.body.member == "" then st
    else
      var m := e.body.member;
      if e.body.role == "steward" then st.(stewards := st.stewards + {m})
      else if e.body.role == "removed" then
        if m in st.stewards && |st.stewards| == 1 then st
        else st.(stewards := st.stewards - {m}, grants := st.grants - {m}, expiry := st.expiry - {m})
      else st
  }

  function ApplyDelegation(st: Perms, e: Entry): (r: Perms)
    ensures r == st.(delegations := r.delegations)
  {
    if e.onBehalfOf != "" || !e.body.DelegationBody? || e.body.agent == "" then st
    else if e.body.revoked then
      if StringAt(st.delegations, e.body.agent) == e.author
      then st.(delegations := st.delegations - {e.body.agent}) else st
    else st.(delegations := st.delegations[e.body.agent := e.author])
  }

  function ApplyRequest(st: Perms, e: Entry): (r: Perms)
    ensures r == st.(requests := r.requests)
  {
    if !e.body.AccessRequestBody? then st
    else
      var p := if e.onBehalfOf != "" then e.onBehalfOf else e.author;
      st.(requests := st.requests[p := Request(e.id, p, e.body.scopes, e.body.reason, e.ts, e.lamport)])
  }

  function ApplyGrant(st: Perms, e: Entry): (r: Perms)
    ensures r == st.(requests := r.requests, grants := r.grants, contribAt := r.contribAt, expiry := r.expiry)
  {
    if !Authorised(st, e) || !e.body.GrantBody? || e.body.principal == "" then st
    else
      var p := e.body.principal;
      var ss := GrantedScopes(e);
      if e.lamport <= ClockAt(st.deniedAt, p) || ss == {} then st
      else
        st.(requests := Answered(st.requests, p, e.lamport),
            grants := st.grants[p := ss],
            contribAt := if CONTRIBUTE in ss && (p !in st.contribAt || e.lamport < st.contribAt[p])
                         then st.contribAt[p := e.lamport] else st.contribAt,
            expiry := if e.body.ttlSeconds > 0
                      then (if e.ts.Some? then st.expiry[p := e.ts.value + e.body.ttlSeconds] else st.expiry)
                      else st.expiry - {p})
  }

  function ApplyDeny(st: Perms, e: Entry): (r: Perms)
    ensures r == st.(requests := r.requests, grants := r.grants, expiry := r.expiry, deniedAt := r.deniedAt)
  {
    if !Authorised(st, e) || !e.body.GrantBody? || e.body.principal == "" then st
    else
      var p := e.body.principal;
      st.(grants := st.grants - {p},
          expiry := st.expiry - {p},
          requests := Answered(st.requests, p, e.lamport),
          deniedAt := if e.lamport > ClockAt(st.deniedAt, p) then st.deniedAt[p := e.lamport] else st.deniedAt)
  }

  function Apply(st: Perms, e: Entry): Perms {
    match e.kind
    case KindThread => ApplyThread(st, e)
    case KindMembership => ApplyMembership(st, e)
    case KindDelegation => ApplyDelegation(st, e)
    case KindAccessRequest => ApplyRequest(st, e)
    case KindGrant => ApplyGrant(st, e)
    case KindDeny => ApplyDeny(st, e)
    case KindRevoke => ApplyDeny(st, e)
    case _ => st
  }

  predicate Relevant(thread: string, e: Entry) {
    e.lane == LaneControl && e.thread == thread
  }

  function FoldStep(thread: string, st: Perms, e: Entry): Perms {
    if Relevant(thread, e) then Apply(st, e) else st
  }

  function Fold(thread: string, es: seq<Entry>): Perms {
    if es == [] then INITIAL
    else FoldStep(thread, Fold(thread, es[..|es| - 1]), es[|es| - 1])
  }

  // ------------------------------------------------------------------ queries

  function PersonOf(st: Perms, p: string): string {
    if p in st.delegations then st.delegations[p] else p
  }

  function EffectiveScopes(st: Perms, p: string, now: int): ScopeSet {
    var q := PersonOf(st, p);
    if q in st.stewards then ALL_SCOPES
    else if q !in st.grants then {}
    else if q in st.expiry && now > st.expiry[q] then {}
    else st.grants[q]
  }

  function Lanes(st: Perms, p: string, now: int): seq<Lane> {
    LanesOf(EffectiveScopes(st, p, now))
  }

  predicate MayContribute(st: Perms, p: string, lamport: u64) {
    var q := PersonOf(st, p);
    q in st.stewards || InWindow(st, q, lamport)
  }

  /** The contribute window: from the earliest contribute grant to the latest deny. */
  predicate InWindow(st: Perms, q: string, lamport: u64) {
    && q in st.contribAt
    && lamport >= st.contribAt[q]
    && !(q in st.deniedAt && st.deniedAt[q] >= st.contribAt[q] && lamport >= st.deniedAt[q])
  }

  predicate ActsFor(st: Perms, author: string, principal: string) {
    author == principal || StringAt(st.delegations, author) == principal
  }
}
