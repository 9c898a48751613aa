/** Concrete threads, founded and written as the program does it, for the results that say
    when the program does not behave as its text has it. */
module Cases {
  import opened Entries
  import opened ThreadLogs
  import opened Authors
  import opened Perm
  import opened PermLaws
  import opened PermWindows
  import opened Requests
  import opened Stores
  import opened Sync
  import opened Hosting

  const HOST := "ed25519:S"
  const GUEST := "ed25519:P"
  const AGENT := "ed25519:B"

  const ROOT := GenesisEntry(HOST, "", true, "T", None)

  function Founded(): Log {
    Insert(EmptyLog("T"), ROOT)
  }

  /** The log after `pid` wrote the draft into it. */
  function Wrote(l: Log, pid: string, d: Draft, id: string): Log {
    match AuthorAppend(l, pid, d, id, None)
    case Written(r, _) => r
    case _ => l
  }

  function Decide(kind: Kind): Draft {
    Draft(kind, LaneControl, "", Some(GrantBody(GUEST, [CONTRIBUTE], 0)), "")
  }

  function Say(onBehalfOf: string): Draft {
    Draft(KindMessage, LaneContent, onBehalfOf, Some(OtherBody("hello")), "")
  }

  const BIND_AGENT := Draft(KindDelegation, LaneControl, "", Some(DelegationBody(AGENT, false)), "")

  /** A log of `n` clock ticks with these ids. */
  ghost predicate Small(l: Log, n: nat, ids: set<string>) {
    && Inv(l) && l.thread == "T" && l.lamport == n <= 9 && l.byId.Keys == ids
    && forall k :: k in l.heads ==> l.heads[k].seqNo <= n
  }

  /** Its permissions: HOST alone is steward. */
  ghost predicate Grants(l: Log, denied: map<string, u64>, contrib: map<string, u64>, agents: map<string, string>) {
    var st := Fold("T", l.entries);
    st.stewards == {HOST} && st.deniedAt == denied && st.contribAt == contrib && st.delegations == agents
  }

  lemma FoundedFacts()
    ensures NewThreadWith(HOST, "", true, "T", None) == Admitted(Founded())
    ensures Small(Founded(), 1, {"T"}) && Founded().entries == [ROOT] && Fold("T", [ROOT]).discoverable
    ensures Grants(Founded(), map[], map[], map[])
  {
    hide Inv;
    NewThreadHoldsGenesis(HOST, "", true, "T", None);
    assert [ROOT][..0] == [] && Fold("T", []) == INITIAL;
    assert NamedStewards(ROOT) == {HOST};
  }

  lemma WroteFacts(l: Log, pid: string, d: Draft, id: string, n: nat, ids: set<string>)
    requires Small(l, n, ids) && n < 9 && GoodDraft(l, pid, d, id)
    ensures var e := NextEntry(l, pid, d, id, None); var r := Wrote(l, pid, d, id);
      && AuthorAppend(l, pid, d, id, None) == Written(r, e)
      && Small(r, n + 1, ids + {id}) && r.entries == l.entries + [e] && e.lamport == n + 1
      && e.thread == "T" && e.author == pid && e.lane == d.lane && e.kind == d.kind
      && e.onBehalfOf == d.onBehalfOf && e.body == d.body.value
      && Fold("T", r.entries) == FoldStep("T", Fold("T", l.entries), e)
  {
    hide Inv, Fold, Validate;
    AuthorAppendExact(l, pid, d, id, None);
    AuthorAppendsLast(l, pid, d, id, None);
    FoldSnoc("T", l.entries, AuthorAppend(l, pid, d, id, None).entry);
  }

  // ------------------------------------------------------------------ a second revoke

  function Granted(): Log {
    Wrote(Founded(), HOST, Decide(KindGrant), "G")
  }

  function Revoked(): Log {
    Wrote(Granted(), HOST, Decide(KindRevoke), "R")
  }

  function Answered(): Log {
    Wrote(Revoked(), GUEST, Say(""), "M")
  }

  function RevokedAgain(): Log {
    Wrote(Answered(), HOST, Decide(KindRevoke), "Q")
  }

  /** What the guest wrote after the revoke, at clock 4. */
  function Message(): Entry {
    NextEntry(Revoked(), GUEST, Say(""), "M", None)
  }

  lemma GrantedFacts()
    ensures Small(Granted(), 2, {"T", "G"}) && Grants(Granted(), map[], map[GUEST := 2], map[])
  {
    hide Inv, Fold, AuthorAppend, NextEntry, Founded, Wrote;
    FoundedFacts();
    WroteFacts(Founded(), HOST, Decide(KindGrant), "G", 1, {"T"});
    assert CONTRIBUTE in GrantedScopes(NextEntry(Founded(), HOST, Decide(KindGrant), "G", None));
  }

  lemma RevokedFacts()
    ensures Small(Revoked(), 3, {"T", "G", "R"}) && Grants(Revoked(), map[GUEST := 3], map[GUEST := 2], map[])
  {
    hide Inv, Fold, AuthorAppend, NextEntry, Granted, Wrote;
    GrantedFacts();
    WroteFacts(Granted(), HOST, Decide(KindRevoke), "R", 2, {"T", "G"});
  }

  lemma AnsweredFacts()
    ensures Small(Answered(), 4, {"T", "G", "R", "M"})
    ensures Grants(Answered(), map[GUEST := 3], map[GUEST := 2], map[])
    ensures var e := Message();
      e in Answered().entries && e.thread == "T" && e.author == GUEST && e.lane == LaneContent && e.lamport == 4
  {
    hide Inv, Fold, AuthorAppend, NextEntry, Revoked, Wrote;
    RevokedFacts();
    WroteFacts(Revoked(), GUEST, Say(""), "M", 3, {"T", "G", "R"});
  }

  lemma RevokedAgainFacts()
    ensures Small(RevokedAgain(), 5, {"T", "G", "R", "M", "Q"})
    ensures Grants(RevokedAgain(), map[GUEST := 5], map[GUEST := 2], map[])
    ensures Message() in RevokedAgain().entries
  {
    hide Inv, Fold, AuthorAppend, NextEntry, Answered, Wrote;
    AnsweredFacts();
    WroteFacts(Answered(), HOST, Decide(KindRevoke), "Q", 4, {"T", "G", "R", "M"});
  }

  /** The contribute window is not "from the grant up to the revoke", as the protocol text has
      it.  The host grants at clock 2 and revokes at 3; what the guest writes at 4 is outside
      the window and no push of it is accepted.  The host revokes again at 5: it is inside, and
      the push check passes. */
  lemma SecondRevokeReadmits()
    ensures Small(Answered(), 4, {"T", "G", "R", "M"}) && Small(RevokedAgain(), 5, {"T", "G", "R", "M", "Q"})
    ensures var e := Message(); var before, after := Fold("T", Answered().entries), Fold("T", RevokedAgain().entries);
      && e in Answered().entries && e in RevokedAgain().entries && e.author == GUEST && e.lamport == 4
      && !MayContribute(before, GUEST, 4) && !PushAllowed(before, "T", GUEST, e)
      && MayContribute(after, GUEST, 4) && PushAllowed(after, "T", GUEST, e)
  {
    hide Inv, Fold, AuthorAppend, NextEntry, Answered, RevokedAgain, Revoked;
    AnsweredFacts();
    RevokedAgainFacts();
  }

  // ------------------------------------------------------------------ a grant after a revoke

  function Regranted(): Log {
    Wrote(Revoked(), HOST, Decide(KindGrant), "H")
  }

  function GuestWrote(): Log {
    Wrote(Regranted(), GUEST, Say(""), "M")
  }

  lemma RegrantedFacts()
    ensures Small(Regranted(), 4, {"T", "G", "R", "H"})
    ensures Grants(Regranted(), map[GUEST := 3], map[GUEST := 2], map[])
    ensures var st := Fold("T", Regranted().entries); GUEST in st.grants && st.grants[GUEST] == {CONTRIBUTE}
  {
    hide Inv, Fold, AuthorAppend, NextEntry, Revoked, Wrote;
    RevokedFacts();
    WroteFacts(Revoked(), HOST, Decide(KindGrant), "H", 3, {"T", "G", "R"});
    var e := NextEntry(Revoked(), HOST, Decide(KindGrant), "H", None);
    assert CONTRIBUTE in GrantedScopes(e);
  }

  /** A grant after a revoke does not open a window.  The host grants at clock 2, revokes at 3
      and grants again at 4; the guest then holds the scope, yet what the guest writes at 5 is
      not ingestible and fails the push check. */
  lemma RegrantAdmitsNothing()
    ensures Small(GuestWrote(), 5, {"T", "G", "R", "H", "M"})
    ensures var e := NextEntry(Regranted(), GUEST, Say(""), "M", None); var st := Fold("T", GuestWrote().entries);
      && e in GuestWrote().entries && e.author == GUEST && e.lane == LaneContent && e.lamport == 5
      && GUEST in st.grants && st.grants[GUEST] == {CONTRIBUTE}
      && !MayContribute(st, GUEST, 5) && !PushAllowed(st, "T", GUEST, e)
  {
    hide Inv, Fold, AuthorAppend, NextEntry, Regranted, Wrote;
    RegrantedFacts();
    WroteFacts(Regranted(), GUEST, Say(""), "M", 4, {"T", "G", "R", "H"});
  }

  // ------------------------------------------------------------------ a steward by self-naming

  const NAME_SELF := Draft(KindThread, LaneControl, "", Some(ThreadBody([GUEST], "", true)), "")

  function SelfNamed(): Log {
    Wrote(Founded(), GUEST, NAME_SELF, "N")
  }

  /** Not only entries by stewards change anything: a thread entry that the guest, no steward,
      writes into a copy of the thread and that names the guest makes the guest a steward of
      the copy.  It does not travel: a server without it refuses the push. */
  lemma ThreadEntryNamesItsAuthor()
    ensures Small(SelfNamed(), 2, {"T", "N"})
    ensures var e := NextEntry(Founded(), GUEST, NAME_SELF, "N", None);
      var before, after := Fold("T", Founded().entries), Fold("T", SelfNamed().entries);
      && SelfNamed().entries == [ROOT, e] && e.author == GUEST
      && GUEST !in before.stewards && !PushAllowed(before, "T", GUEST, e)
      && after.stewards == {HOST, GUEST}
  {
    hide Inv, Fold, Apply, AuthorAppend, NextEntry, Founded, Wrote;
    FoundedFacts();
    WroteFacts(Founded(), GUEST, NAME_SELF, "N", 1, {"T"});
    NamingAdds(Fold("T", Founded().entries), NextEntry(Founded(), GUEST, NAME_SELF, "N", None));
  }

  lemma NamingAdds(st: Perms, e: Entry)
    requires e.kind == KindThread && e.body == ThreadBody([GUEST], "", true) && st.stewards == {HOST}
    ensures Apply(st, e).stewards == {HOST, GUEST}
  {
    assert NamedStewards(e) == {GUEST};
  }

  // ------------------------------------------------------------------ a request answered in advance

  function Denied(): Log {
    Wrote(Founded(), HOST, Decide(KindDeny), "R")
  }

  lemma DeniedFacts()
    ensures Small(Denied(), 2, {"T", "R"}) && Fold("T", Denied().entries).discoverable
    ensures var d := NextEntry(Founded(), HOST, Decide(KindDeny), "R", None);
      && Denied().entries == [ROOT, d] && d.lamport == 2 && d.author == HOST && d.kind == KindDeny
      && Answers("T", Denied().entries, 1, GUEST)
  {
    hide Inv, Fold, AuthorAppend, NextEntry, Founded, Wrote;
    FoundedFacts();
    WroteFacts(Founded(), HOST, Decide(KindDeny), "R", 1, {"T"});
    assert Denied().entries[..1] == [ROOT];
  }

  /** The request that `BuildAccessRequest` makes for the guest. */
  function Asking(): Entry {
    BuildAccessRequest(GUEST, "T", [READ], "", "Q", None)
  }

  /** Answers do not always sort after the request: the host has denied the guest at clock 2,
      the guest then files a request, which is let in and is at once not pending. */
  lemma LateRequestIsAnswered()
    ensures var s := map["T" := Denied()]; var r := AppendAll(s, [Asking()]);
      && StoreInv(s) && RequestAllowed(s, GUEST, Asking(), 0) && r.error == None
      && Asking() in LogOf(r.logs, "T").entries
      && GUEST !in Fold("T", LogOf(r.logs, "T").entries).requests
  {
    hide Inv, Fold, Denied, Append, Lanes;
    DeniedFacts();
    AskedInVain();
    assert [Asking()][1..] == [];
  }

  lemma AskedInVain()
    ensures var r := Append(Denied(), Asking());
      r.Admitted? && Asking() in r.log.entries && GUEST !in Fold("T", r.log.entries).requests
  {
    hide Inv, Fold, Denied, Append, NothingAfterAnswers, IsPrincipal, Answers, RecordOf, Less;
    DeniedFacts();
    var l, e := Denied(), Asking();
    assert IsPrincipal(GUEST) by { GuestIsPrincipal(); }
    NoGuestChain(l);
    BuiltRequestAdmitted(l, GUEST, [READ], "", "Q", None);
    FiledRequestPending(l, GUEST, [READ], "", "Q", None);
    AppendExact(l, e);
    DenialSortsAfter();
    OnlyRequest(Append(l, e).log, l, e);
    assert e in Elems(Append(l, e).log.entries);
  }

  lemma DenialSortsAfter()
    ensures !NothingAfterAnswers("T", Denied().entries, Asking(), GUEST)
  {
    hide Inv, Fold, Denied, Answers;
    DeniedFacts();
    assert Less(Asking(), Denied().entries[1]);
  }

  lemma GuestIsPrincipal()
    ensures IsPrincipal(GUEST)
  {
  }

  lemma NoGuestChain(l: Log)
    requires Inv(l) && forall x :: x in l.entries ==> x.author == HOST
    ensures ChainKey(l.thread, GUEST, LaneControl) !in l.heads
  {
    hide Inv;
    HeadsHeld(l);
  }

  /** The only request in the log is the one pending, if any is. */
  lemma OnlyRequest(r: Log, l: Log, e: Entry)
    requires Inv(r) && r.thread == "T" && Elems(r.entries) == Elems(l.entries) + {e}
    requires forall x :: x in l.entries ==> x.kind != KindAccessRequest
    requires e.body.AccessRequestBody?
    ensures GUEST in Fold("T", r.entries).requests ==> Fold("T", r.entries).requests[GUEST] == RecordOf(e)
  {
    hide Inv, Fold, Answers;
    LogIsClocked(r);
    RequestsClosedForm("T", r.entries, GUEST);
    if GUEST in Fold("T", r.entries).requests {
      var i: nat :| Unanswered("T", r.entries, i, GUEST);
      assert r.entries[i] in Elems(r.entries);
    }
  }

  // ------------------------------------------------------------------ an agent's entry

  function Bound(): Log {
    Wrote(Founded(), HOST, BIND_AGENT, "D")
  }

  /** The agent writes for the founder. */
  function AgentWrote(): Log {
    Wrote(Bound(), AGENT, Say(HOST), "M")
  }

  lemma BoundFacts()
    ensures Small(Bound(), 2, {"T", "D"}) && Grants(Bound(), map[], map[], map[AGENT := HOST])
    ensures ROOT in Bound().entries
  {
    hide Inv, Fold, AuthorAppend, NextEntry, Founded, Wrote;
    FoundedFacts();
    WroteFacts(Founded(), HOST, BIND_AGENT, "D", 1, {"T"});
  }

  lemma AgentWroteFacts()
    ensures Small(AgentWrote(), 3, {"T", "D", "M"}) && Grants(AgentWrote(), map[], map[], map[AGENT := HOST])
    ensures ROOT in AgentWrote().entries
    ensures var e := NextEntry(Bound(), AGENT, Say(HOST), "M", None);
      e in AgentWrote().entries && e.author == AGENT && e.onBehalfOf == HOST
  {
    hide Inv, Fold, Apply, AuthorAppend, NextEntry, Bound, Wrote;
    BoundFacts();
    WroteFacts(Bound(), AGENT, Say(HOST), "M", 2, {"T", "D"});
  }

  /** Hosting a thread into which an agent of the founder has written: the peer refuses the
      share and is left with the genesis alone. */
  lemma AgentEntryBlocksHosting()
    ensures var c: Logs := map["T" := AgentWrote()]; var me := Identity(HOST, {AGENT}, HOST);
      var r := ShareSpec(me, c, map[], "T", 0, 0);
      && StoreInv(c) && ActsFor(Fold("T", AgentWrote().entries), AGENT, HOST)
      && r.exchanged == None && r.client == c && LogOf(r.server, "T").entries == [ROOT]
  {
    hide Inv, Fold, AgentWrote, ShareSpec;
    AgentWroteFacts();
    FoundedFacts();
    var c: Logs := map["T" := AgentWrote()];
    SharedThreadIsHosted(Identity(HOST, {AGENT}, HOST), c, map[], "T", 0, 0, ROOT);
  }

  /** To a server that holds the delegation, the founder can push what the agent wrote: it is
      judged as the founder's.  The agent key itself was never granted anything. */
  lemma AgentMessagePasses()
    ensures var e := NextEntry(Bound(), AGENT, Say(HOST), "M", None); var st := Fold("T", Bound().entries);
      && e.author == AGENT && e.lane == LaneContent && e.lamport == 3
      && AGENT !in st.stewards && AGENT !in st.contribAt
      && MayContribute(st, AGENT, 3) && PushAllowed(st, "T", HOST, e)
  {
    hide Inv, Fold, Apply, AuthorAppend, NextEntry, Bound, Wrote;
    BoundFacts();
    WroteFacts(Bound(), AGENT, Say(HOST), "M", 2, {"T", "D"});
  }

  // ------------------------------------------------------------------ a hidden thread

  /** A stranger who knows the id of a thread founded as not discoverable cannot file a request. */
  lemma HiddenThreadRefusesStranger()
    ensures var r := NewThreadWith(HOST, "", false, "T", None);
      r.Admitted? && !RequestAllowed(map["T" := r.log], GUEST, Asking(), 0)
  {
    hide Inv, Append, NextEntry;
    NewThreadHoldsGenesis(HOST, "", false, "T", None);
    var g := GenesisEntry(HOST, "", false, "T", None);
    assert [g][..0] == [] && Fold("T", []) == INITIAL;
    assert NamedStewards(g) == {HOST};
  }
}
