# Lamdis: the replicated, permissioned thread log

A Dafny model of the protocol core of lamdis: append-only hash chains per (author, lane),
merged into one total order; the permission fold over the control lane; the sync protocol
that serves and accepts entries as a principal; the SQLite store's cached log; the fusion of
ranked search results; and the canonical encoding that entries are hashed and signed over.

Check it with `dafny verify dfyconfig.toml`. The project assumes nothing: every member has a
body and every body is proved.

## How it is built

Each component has a specification on values and, where the program updates things in place,
a class whose methods are proved equal to it. The theorems are about the specification, so
they hold of the classes.

| files | component | form |
|---|---|---|
| `Entries`, `ThreadLog`, `Authors`, `Convergence`, `Causality` | thread log | values, lemmas |
| `Replica` | `ThreadLog`, `Author`, `NewThreadWith` | classes |
| `Perm`, `PermLaws`, `PermWindows`, `Stewards`, `Scopes`, `Requests` | permission fold | values, lemmas |
| `PermState` | `State.apply`, `Fold`, `PendingRequests` | class |
| `Stores`, `Sync` | `Server`, `Client` over a store | specifications and classes |
| `SyncLaws`, `Rounds`, `TwoWay`, `Hub`, `Decisions`, `Hosting`, `Served`, `ServerRuns`, `Confinement` | laws of sync, runs of a server and of a replica | lemmas |
| `Cases`, `RowCases` | concrete threads and runs, made as the program makes them, on which stated expectations fail | lemmas |
| `RowStore`, `RowRuns`, `RowHistory`, `Sqlite` | rows, cache revalidation, many processes | values, lemmas, classes |
| `Fusion` | reciprocal rank fusion | specification, methods, lemmas |
| `CanonicalJson`, `Envelope` | canonical JSON and the signed envelope | writer class, reader, lemmas |
| `InsertionSort`, `Lex`, `Sequences` | the in-place sort used in three places, string order, filters | methods, lemmas |

Two ideas carry most of the proofs. A log is a function of the *set* of entries it holds
(`ThreadLogs.LogDetermined`), and `Append` accepts an entry exactly when that set stays
admissible (`ThreadLogs.AppendExact`): every entry valid, one entry per chain position, one
per id, every chain linked down to position 1. Questions about deliveries, syncs and
replays thus become questions about sets. And a hash is modelled as the entry it was taken
from, every hashed byte included, so a chain is what its head links back to; that equal
canonical bytes mean equal entries is itself proved (`Envelope.BytesDetermineEntry`).

## Model

| member | source | states |
|---|---|---|
| Entries.LessTransitive | node/internal/log/entry.go:300-308 | The order on (lamport, author, id) is transitive. |
| Entries.LessTotal | node/internal/log/entry.go:298-308 | It is strict, and total on entries with different ids. |
| Entries.LessByParts | node/internal/log/entry.go:298-308 | The smaller clock comes first; at one clock the author, and for one author the id, that at the first difference has the smaller character or ends. |
| Lex.FirstDifference | node/internal/log/entry.go:300-308 | The string order is the order by first difference, a proper prefix first. |
| ThreadLogs.AppendExact | node/internal/log/log.go:92-136 | In any log, an entry is admitted if and only if the held set with it is an admissible chain set; then the log invariant holds of exactly the old entries and the new one, and an entry already held is accepted without effect. |
| ThreadLogs.OnlySigned | node/internal/log/entry.go:243-287 | A log holds only entries signed by their own author, of the envelope version, in one of the three lanes, with position and clock at least 1 and no unknown reserved kind. |
| ThreadLogs.ChainRuleSound | node/internal/log/log.go:110-121 | Passing the head check (position and previous hash) keeps every chain linked and one entry per position. |
| ThreadLogs.ChainRuleComplete | node/internal/log/log.go:110-121 | An entry that links to a held predecessor and takes a free position is never refused by the head check. |
| ThreadLogs.LogDetermined | node/internal/log/log.go:27-35 | Two logs of a thread that hold the same set of entries are equal: order, heads with hashes, id index and clock. |
| ThreadLogs.AncestorHeld | node/internal/log/log.go:119-121 | In an admissible set every position of a chain from 1 up to a held entry is the ancestor that entry links back to, and is held. |
| ThreadLogs.PositionHeld | node/internal/log/log.go:58-66 | Below a head no position of the chain is missing. |
| ThreadLogs.ChainAfterMembers | node/internal/log/log.go:80-90 | `After` returns each entry of the chain past `since` once, in ascending position, and nothing else. |
| ThreadLogs.ChainAfterContiguous | node/internal/log/log.go:80-90 | In a log, that stream starts at `since + 1`, has no gap, and ends at the head. |
| Replica.ThreadLog.Search | node/internal/log/log.go:128-131 | The binary search finds the one insertion position in the total order. |
| Replica.ThreadLog.Append | node/internal/log/log.go:92-136 | The in-place append keeps the invariant, reaches exactly the specified log, and on refusal gives the specified error and changes nothing. |
| Replica.ThreadLog.Heads | node/internal/log/log.go:58-66 | The version vector has exactly the chains of the log, each at its head position. |
| Replica.ThreadLog.Missing | node/internal/log/log.go:68-78 | The wanted chains are exactly those the remote holds further, each with the position held here. |
| Replica.ThreadLog.After | node/internal/log/log.go:80-90 | The loop and in-place stream agree with the specified chain suffix. |
| Replica.Author.Append | node/internal/log/log.go:168-204 | Writing through an author signs, links and clocks the entry as specified, and changes the log only when it succeeds. |
| Replica.NewThreadLogWith | node/internal/log/log.go:211-253 | Founding a thread gives the specified one-entry log. |
| Authors.AuthorAppendExact | node/internal/log/log.go:168-204 | `Author.Append` succeeds if and only if the draft is well formed, its id is unused and both 64-bit counters have room. |
| Authors.AuthorAppendsLast | node/internal/log/log.go:168-204 | What it writes has a clock above everything held, so it goes last and the log grows by it alone. |
| Authors.NewThreadHoldsGenesis | node/internal/log/log.go:211-253 | A founded thread is a valid log of the genesis alone, whose id is the thread's. |
| Convergence.DeliverExact | node/internal/log/log.go:92-136 | A delivery is accepted to the last entry if and only if the union is an admissible set and each chain arrives in order. |
| Convergence.DeliverAccepted | node/internal/log/log.go:92-136 | Every in-order delivery inside an admissible set, interleaved and duplicated at will, is accepted in full and leaves the union. |
| Convergence.ReplicasConverge | node/internal/log/log.go:92-136 | Two replicas that get the same entries in any two chain-ascending deliveries end in the same log: entries, order, heads, hashes, clock. |
| Convergence.ChainFromHead | node/internal/log/log.go:20-24 | A held chain is exactly what its head hash links back to. |
| Convergence.HeadsDetermineHistory | node/internal/log/log.go:20-24 | Two logs hold a chain entry for entry if and only if its heads agree in position and hash. |
| Convergence.ForkIsPermanent | node/internal/log/log.go:110-121 | Once two logs differ at a position of a chain, neither ever admits the other's entries from there on. |
| Causality.SeenPrecedes | node/internal/log/log.go:168-204 | In every run of many replicas that begins with `NewThreadWith`, if the log in which f was written held e, then e comes before f on every replica that holds both. |
| Causality.ChainClocksIncrease | node/internal/log/log.go:168-204 | In every such run clocks strictly increase along every chain of every replica, though `Append` does not check it. |
| Causality.CausalPath | node/internal/log/log.go:168-204 | Along any path of "was seen by the writer of" the clock increases. |
| Causality.FoundedRunInv | node/internal/log/log.go:128-134 | In every such run every replica is a valid log of written entries, and what an entry links to or its writer had seen has a smaller clock. |
| PermState.State.OnGrant | node/internal/perm/perm.go:221-256 | Applying a grant to the mutable state reaches the specified state, map by map. |
| PermState.State.OnDeny | node/internal/perm/perm.go:258-274 | The same for a deny or revoke. |
| PermState.State.OnMembership | node/internal/perm/perm.go:163-182 | The same for a membership entry, the guard on the last steward included. |
| PermState.State.OnDelegation | node/internal/perm/perm.go:184-200 | The same for a delegation: only its own author can unbind a key. |
| PermState.State.OnThread | node/internal/perm/perm.go:146-161 | The same for a thread entry: named stewards, or the author when nobody is steward. |
| PermState.State.OnRequest | node/internal/perm/perm.go:202-219 | The same for an access request. |
| PermState.State.Apply | node/internal/perm/perm.go:144-275 | Any entry takes the state to the specified next state. |
| PermState.State.EffectiveScopes | node/internal/perm/perm.go:291-314 | The copy loop returns the specified scopes: one delegation hop, stewards hold all, an expired grant none. |
| PermState.State.PendingRequests | node/internal/perm/perm.go:277-289 | The result lists each pending request once, oldest first, in whatever order the map is walked. |
| PermState.FoldEntries | node/internal/perm/perm.go:110-131 | The loop computes the fold that the laws below are about. |
| PermLaws.FoldReadsControlOnly | node/internal/perm/perm.go:110-131 | The fold of any entry list equals the fold of its control lane. |
| PermLaws.PartialReplicasAgree | node/internal/perm/perm.go:110-131 | Replicas with equal control lanes agree on all lanes, windows and agents, for every principal, time and clock. |
| PermLaws.StewardsNeverRunOut | node/internal/perm/perm.go:163-182 | Once a thread has a steward, every continuation leaves it one. |
| Stewards.StewardsClosedForm | node/internal/perm/perm.go:146-182 | A principal is a steward if and only if some entry appointed it (a thread entry naming it, whoever wrote it; one that found nobody steward, for its author; or an authorised appointment) and no removal took effect after; authority and effect are judged by the fold of the preceding prefix. |
| Stewards.UnauthorisedChanges | node/internal/perm/perm.go:144-275 | An entry not signed in person by a steward leaves stewards, title, visibility, grants, expiry, delegations and windows unchanged if and only if it is neither a thread entry with something new nor a delegation that binds or frees a key. |
| Scopes.FoldReadsItsThread | node/internal/perm/perm.go:124-129 | The fold of any list equals the fold of its control entries that name the thread. |
| Scopes.ThreadClosedForm | node/internal/perm/perm.go:146-158 | Title and visibility are those of the last thread entry; with none, no title and hidden. |
| Scopes.DecisiveExact | node/internal/perm/perm.go:133-142 | An entry decides if and only if it is a control entry of the thread, signed for itself, by a key that was by then appointed steward, not removed, and nobody's agent. |
| Scopes.GrantGivesNamed | node/internal/perm/perm.go:24-30 | A grant gives what it names of contribute, read, summary and search, and is a grant if and only if it names one of them. |
| Scopes.ExpiryClosedForm | node/internal/perm/perm.go:221-274 | A principal has an expiry if and only if a grant to it with a time limit and a timestamp took effect and no later such grant, unlimited grant, denial or removal of it did; entries about others never touch it. |
| Scopes.ScopesOverTime | node/internal/perm/perm.go:291-314 | Scopes at any time, from the entries: whoever is judged as a steward holds all four; otherwise the valid scopes of the person's last winning grant until its time limit counted from its timestamp, and nothing after it or without such a grant. An agent key is judged as the person who last bound it. |
| Scopes.UnstampedGrantKeeps | node/internal/perm/perm.go:250-256 | A grant with a time limit and no readable timestamp keeps the limit set by the last earlier grant that settled one, if any is in force. |
| Scopes.MayContributeExact | node/internal/perm/perm.go:322-348 | The contribute check, for a person and for every key bound to it: the person is a steward, or the clock is in the person's window; what the key itself was granted does not matter. |
| Scopes.ActsForExact | node/internal/perm/perm.go:350-357 | A key acts for itself and for the person who last bound it, and for nobody else. |
| Cases.ThreadEntryNamesItsAuthor | node/internal/perm/perm.go:146-161 | A case: a guest's own thread entry in a copy of the thread makes the guest a steward of that copy; a server without it refuses the push. |
| PermLaws.DeniedAtMeaning | node/internal/perm/perm.go:258-274 | The recorded denial clock is below n if and only if every deny or revoke that took effect is. |
| PermLaws.GrantsClosedForm | node/internal/perm/perm.go:163-275 | A principal ends with scopes if and only if some authorised grant is above every authorised deny of it and no effective removal follows; the scopes are those of the last such grant; authority is judged by the fold of the preceding prefix. |
| PermWindows.ContribAtMeaning | node/internal/perm/perm.go:245-249 | The window's start is the clock of the first grant of contribute that took effect. |
| PermWindows.ContributeWindowExact | node/internal/perm/perm.go:322-348 | For a principal who is neither steward nor agent, `MayContribute` holds at l if and only if the first effective contribute grant a has a <= l and no later denial closed it at or below l. |
| PermWindows.WindowIsStable | node/internal/perm/perm.go:322-348 | A clock inside the window stays inside under every continuation by entries with greater clocks. |
| PermWindows.LaterDenyMovesTheEnd | node/internal/perm/perm.go:271-273 | What one more authorised deny above l does to the window at l, as an if and only if over the old state. |
| PermWindows.RegrantKeepsWindowShut | node/internal/perm/perm.go:245-249 | A grant after a revoke restores the scopes but not the closed part of the window. |
| PermWindows.WindowOfFirstGrant | node/internal/perm/perm.go:322-348 | Looking at the first effective contribute grant a alone: the ingestible clocks are those from a on with no denial between if and only if all decisive denials at or above a have one clock. |
| PermWindows.WindowIsGrantToRevoke | node/internal/perm/perm.go:322-348 | When the window is `[grant, revoke)`: for anyone neither steward nor agent with first effective contribute grant a, the ingestible clocks are those in the window of some effective grant if and only if all decisive denials at or above a have one clock and no contribute grant took effect above it. |
| Cases.SecondRevokeReadmits | node/internal/perm/perm.go:336-342 | A case where it is not because of a second revoke, in a log made by `NewThreadWith` and `Author.Append`: grant at 2, revoke at 3, the guest's entry at 4 outside and refused; after a second revoke at 5 the same entry is inside and passes the push check. |
| Cases.RegrantAdmitsNothing | node/internal/perm/perm.go:245-249 | A case where it is not because of a grant after a revoke: grant at 2, revoke at 3, grant at 4; the guest holds contribute, yet its entry at 5 is outside the window and fails the push check. |
| PermWindows.InertEntriesChangeNothing | node/internal/perm/perm.go:144-275 | Requests, and decisions by keys that are stewards at no point of the fold, put in at any positions leave stewards, grants, expiry, delegations and windows unchanged. |
| PermWindows.CoreDecides | node/internal/perm/perm.go:291-357 | What stays unchanged there decides lanes, windows and agency for everyone. |
| PermWindows.AdmittedRequestIsInert | node/internal/perm/perm.go:202-219 | Admitting an access request, wherever it lands in the order, changes nobody's access. |
| PermWindows.FoldClocksBelow | node/internal/perm/perm.go:221-275 | No recorded denial or request is newer than the newest entry folded. |
| PermWindows.FreshGrantTakesEffect | node/internal/perm/perm.go:221-256 | A grant that a person who is steward writes through `Author.Append` in any log gives exactly its valid scopes, ends the pending request and sets or clears the expiry; no earlier deny suppresses it. |
| PermWindows.FreshGrantIsEffective | node/internal/perm/perm.go:291-314 | Until it expires, those are the effective scopes of its principal. |
| PermWindows.FreshDenyTakesEffect | node/internal/perm/perm.go:258-274 | A deny or revoke written so removes grant, expiry and request and becomes the latest denial. |
| Requests.RequestsClosedForm | node/internal/perm/perm.go:202-275 | A principal has a pending request if and only if some entry asks for it and nothing later in the order asks again or decides; the record is that entry's. |
| Requests.DelegationsClosedForm | node/internal/perm/perm.go:184-200 | A key is an agent if and only if some entry binds it, none binds it again later and its author has not unbound it since; it acts for that author. |
| Requests.BuiltRequestAdmitted | node/internal/sync/sync.go:244-274 | A built access request is admitted if and only if its author holds no control chain in the thread yet. |
| Requests.BuiltRequestComesFirst | node/internal/sync/sync.go:244-274 | A built request records its author, scopes and reason, opens the author's control chain at clock 1, and sorts before every entry with a later clock. |
| Requests.FiledRequestPending | node/internal/sync/sync.go:244-274 | A filed request is the one pending if and only if no decision about its author, and no other request for it, sorts after it. It carries clock 1, so decisions made before it was filed count too: the remark that answers always sort later is the half that holds. |
| Cases.LateRequestIsAnswered | node/internal/sync/sync.go:244-274 | A case: the host has denied the guest at clock 2; the guest's request is then let in and is at once not pending. |
| InsertionSort.SortInPlace | node/internal/sync/sync.go:448-452 | The adjacent-swap loop on the array computes the specified insertion sort. |
| InsertionSort.MoveDown | node/internal/sync/sync.go:449-451 | The inner loop moves one element to its place and leaves the rest of the array alone. |
| InsertionSort.SortPermutes | node/internal/sync/sync.go:442-454 | The sort keeps the multiset of elements. |
| InsertionSort.SortSorts | node/internal/sync/sync.go:442-454 | For a weak order the result is sorted. |
| InsertionSort.SortOrderIndependent | node/internal/store/sqlite.go:401-408 | Where no two elements tie, the result does not depend on the order they came in. |
| Stores.AppendAllKeepsInv | node/internal/store/sqlite.go:129-192 | A batch leaves every thread's log valid, whether it ends in an error or not. |
| Stores.AppendOneThread | node/internal/store/sqlite.go:129-192 | A batch of one thread is a delivery to that log and touches no other thread. |
| Stores.Store.AppendEntries | node/internal/store/sqlite.go:129-192 | The loop stores the batch up to the first refusal, as specified. |
| Sync.OrderForAppend | node/internal/sync/sync.go:442-454 | The in-place sort returns the specified append order. |
| Sync.OrderedIndependent | node/internal/sync/sync.go:442-467 | For entries one log may hold, the append order does not depend on how the batch was arranged, so no map iteration order shows. |
| Sync.VectorRoundTrip | node/internal/sync/sync.go:315-320 | A head list in any order reads back as the version vector it lists. |
| Sync.Server.Pull | node/internal/sync/sync.go:105-139 | Refuses if and only if the caller has no lane; else returns each entry of the permitted lanes past the caller's heads once, each chain ascending, and exactly the permitted heads. |
| Sync.Server.Push | node/internal/sync/sync.go:141-193 | Both branches, bootstrap and known thread, refuse or store exactly as specified; the checks on all entries come before the append. |
| Sync.Server.SubmitAccessRequest | node/internal/sync/sync.go:223-242 | Stores the entry if and only if the thread is known and visible or discoverable, the kind and lane are right and the author acts for the caller; otherwise nothing changes. |
| Sync.Client.TakeIn | node/internal/sync/sync.go:327-358 | Taking in a pulled batch, control first and the rest after the window check, is as specified. |
| Sync.Client.PushBack | node/internal/sync/sync.go:402-440 | The offer loop and push give the specified result for any chain order of the map. |
| Sync.Client.ShareThread | node/internal/sync/sync.go:367-400 | Seeding a thread onto a peer is as specified. |
| Sync.Client.SyncThread | node/internal/sync/sync.go:309-365 | A whole round over two stores equals one function of the two store contents. |
| SyncLaws.OrderedShape | node/internal/sync/sync.go:442-467 | The append order is a permutation with the genesis first, the control lane before the rest, summaries before content, by author within a lane and by position within a chain. |
| SyncLaws.OrderedBatchAccepted | node/internal/sync/sync.go:442-467 | Any arrangement of a batch admissible on top of a log is, once ordered, accepted to the last entry, whole or split into control and rest, with the same result. |
| SyncLaws.UnionAdmissible | node/internal/sync/sync.go:105-139 | A caller that holds part of the permitted lanes, together with what it is sent, holds an admissible set. |
| SyncLaws.PullAcceptedExactly | node/internal/sync/sync.go:322-359 | Between copies that never disagree, each possibly with entries the other lacks, the pull half succeeds if and only if everything sent outside the control lane is inside its author's window by both sides' control entries; then the caller holds exactly the union. |
| SyncLaws.PullNeverFails | node/internal/sync/sync.go:322-359 | On an honest pull the receiver's chain checks and window checks accept everything: no gap, no refusal, and the result is exactly the union. |
| SyncLaws.PullAgrees | node/internal/sync/sync.go:322-359 | Afterwards both sides list the same entries in the same order on the permitted lanes, with the same heads and equal folds. |
| SyncLaws.SameControlSameFold | node/internal/perm/perm.go:110-131 | Logs that hold the same control entries fold to the same state. |
| Rounds.ErrorFreeRound | node/internal/sync/sync.go:309-365 | What an error-free round leaves in both logs, as sets: the caller has the union, the server what it had and the caller's own newer entries. |
| Rounds.SecondRoundExact | node/internal/sync/sync.go:309-365 | After an error-free round, a second one served the same lanes changes neither store; it exchanges exactly the caller's own entries in the lanes not served, and fails if and only if there are some and the server's check no longer passes for them. |
| Rounds.SecondRoundIsQuiet | node/internal/sync/sync.go:309-365 | After an error-free round served all lanes, a second such round exchanges 0 entries and changes neither store. |
| Rounds.OwnChainsArrive | node/internal/sync/sync.go:402-440 | After such a round, of every chain of the caller and its agent keys, the control chain only if its author is a steward, the server's head position is the caller's, and the chains are equal if and only if the two were not forked at equal heads before. |
| Rounds.NothingElseArrives | node/internal/sync/sync.go:402-440 | Whatever is new on the server after an error-free round is by the caller or one of its agent keys, and in the control lane by a steward. |
| Rounds.RoundCounts | node/internal/sync/sync.go:309-365 | The count of an error-free round served all lanes is what the two logs grew by. |
| Decisions.DecisionReachesServer | node/internal/sync/sync.go:422-430 | A steward who has the server's control entries writes a decision; after the next error-free round served all lanes the server holds it, and its fold is that of the log it was written into. |
| Decisions.GrantReachesServer | node/internal/sync/sync.go:402-440 | So after a grant the server gives its principal exactly the valid scopes it names, its time limit, and no pending request. |
| Decisions.DenyReachesServer | node/internal/sync/sync.go:402-440 | And after a deny or revoke the server leaves its principal nothing, with the denial the latest. |
| Rounds.EqualForkIsSilent | node/internal/sync/sync.go:309-365 | Such a fork exists: two valid stores with different messages at one position complete a round with 0 exchanged and stay different. |
| ServerRuns.CallJustified | node/internal/sync/sync.go:141-242 | Everything one call adds was sent with it and is the founding genesis by its caller, a request, to a thread discoverable or visible to the caller then, by someone acting for the caller, or passed the push checks at that moment. |
| ServerRuns.EverythingJustified | node/internal/sync/sync.go:141-242 | In every run of `Push` and `SubmitAccessRequest`, every stored entry entered at one call: absent before it, stored after it, sent with it, and justified by the state before it. |
| ServerRuns.JustificationByLane | node/internal/sync/sync.go:141-242 | Hence a control entry other than the genesis is a request or by a steward at admission, and any other entry was inside its author's window at admission. |
| ServerRuns.PushLeavesOthersAlone | node/internal/sync/sync.go:171-173 | No push changes a chain whose author does not act for the caller. |
| Served.ServedExactly | node/internal/sync/sync.go:105-139 | Pull, from the entries: a steward is sent everything past its heads; a holder of a grant in force the control entries, summaries if the grant names read or summary, content if it names read; anyone else, and after the time limit, finds no thread. |
| Served.PushCheckExact | node/internal/sync/sync.go:168-186 | The check on a pushed entry, from the entries: it names the thread, its author is the caller or a key the caller last bound, and it is a steward's control entry or inside the window of the person it is judged as. |
| Served.RequestStoredExactly | node/internal/sync/sync.go:223-242 | A submitted entry is stored if and only if the thread is known, told to be discoverable or visible to the caller, the kind and lane are right, the author is the caller or its agent and the log admits it; otherwise the store stays as it was. |
| Served.HiddenFromStrangers | node/internal/sync/sync.go:231-234 | A request to a thread not told to be discoverable, by a caller judged as no steward and with no grant in force, changes nothing. |
| Served.BuiltRequestStored | node/internal/sync/sync.go:223-274 | A built request is stored if and only if the thread is known, discoverable or visible, and holds no control chain of its author. |
| Cases.HiddenThreadRefusesStranger | node/internal/sync/sync.go:231-234 | A case: a thread founded as not discoverable refuses the request of a stranger who knows its id. |
| Cases.AgentMessagePasses | node/internal/perm/perm.go:329-335 | A case: on a server that holds the delegation, the message of an agent key that was never granted anything passes the push check for its person, a steward. |
| Confinement.RunsAreRooted | node/internal/sync/sync.go:151-167 | In every run a hosted thread holds its genesis at position 1. |
| Confinement.PushAcceptedExactly | node/internal/sync/sync.go:141-193 | A push to a known thread the caller sees is accepted if and only if every entry passes its check and the union is admissible; then exactly the batch is added. |
| Confinement.RequestChangesNoAccess | node/internal/sync/sync.go:223-242 | Submitting an access request leaves everyone's lanes, windows and agents unchanged. |
| Confinement.PullStaysInLanes | node/internal/sync/sync.go:105-139 | Every entry and head returned is in a lane the caller's scopes allow at that moment, and content needs read. |
| Confinement.FoldNoReader | node/internal/perm/perm.go:37-52 | A principal never named steward, bound as agent or granted read ends as none of them. |
| Confinement.ContentStaysOut | node/internal/sync/sync.go:105-139 | In every life of a replica written to by its owner and fed by pulls from servers on which the owner, at that moment, is neither steward nor agent and holds no grant of read, the only content it holds is the owner's own. |
| Confinement.NeverNamedStaysOut | node/internal/sync/sync.go:105-139 | In particular when no control entry on those servers ever names the owner so. |
| TwoWay.PullHalfAgrees | node/internal/sync/sync.go:309-365 | A round whose pull is honest leaves the caller agreeing with the log it pulled from, and can fail only in its push half. |
| TwoWay.RoundExact | node/internal/sync/sync.go:309-365 | A round between copies that never disagree succeeds if and only if what is sent is inside its authors' windows and every entry offered back passes the server's check; both logs after it are given exactly. |
| TwoWay.SyncThreadAgrees | node/internal/sync/sync.go:309-365 | When each side has entries the other lacks and the caller's are its own, such a round succeeds and caller and server, after the push, list the same entries in the same order on the permitted lanes, with the same heads and equal folds. |
| TwoWay.ShareKnownThread | node/internal/sync/sync.go:367-400 | Sharing a thread with a peer that has it succeeds if and only if nothing is offered, or the peer shows the thread to the caller and its check passes for all of the offer, the caller's control entries included; then the peer holds the union. |
| TwoWay.RoundMerges | node/internal/sync/sync.go:309-365 | After an error-free round with all lanes served between copies that never disagree, both hold one log, the union. |
| TwoWay.HubConverges | node/internal/sync/sync.go:309-365 | Two writers sync with one server, a, then b, then a again: all three hold one log, the union of what they began with. |
| Hub.TurnStep | node/internal/sync/sync.go:309-365 | One writer's error-free turn with the server leaves the two with one log, the union of theirs, and everyone else untouched. |
| Hub.EveryoneConverges | node/internal/sync/sync.go:309-365 | Any number of writers, any sequence of such turns: once everyone has had a turn and then another, all of them and the server hold one log, with everything anyone began with. |
| Hosting.NewThreadIsFounded | node/internal/log/log.go:211-253 | A new thread makes its creator steward in person by the genesis alone. |
| Hosting.NewThreadFolds | node/internal/log/log.go:211-253 | A new thread folds to its creator as the only steward, its title, and visibility exactly as founded. |
| Hosting.SharedThreadIsHosted | node/internal/sync/sync.go:367-400 | Sharing a founded thread with a peer that lacks it succeeds if and only if no agent key of the founder wrote into it; then the peer holds exactly the founder's chains, else the genesis alone. |
| Cases.AgentEntryBlocksHosting | node/internal/sync/sync.go:367-400 | A case: a founded thread with one message by the founder's delegated agent is refused, and the peer is left with the genesis alone. |
| RowStore.ReplayNeverCorrupt | node/internal/store/sqlite.go:103-125 | Replaying admissible rows in (author, lane, seq) order is never refused and gives exactly their log. |
| RowStore.RefreshExact | node/internal/store/sqlite.go:93-127 | After revalidation by largest row id the cached log holds exactly the thread's rows and, if the cache was current, the unsaved entries; other threads' caches are untouched. |
| RowStore.NothingUnsavedIsReplay | node/internal/store/sqlite.go:93-127 | With nothing unsaved left, the log returned is the replay of the rows. |
| RowStore.SaveOneExact | node/internal/store/sqlite.go:129-192 | Saving an entry whose predecessor is saved succeeds if and only if the log admits it, adds exactly that row, and keeps rows and cache in agreement. |
| RowRuns.RunInv | node/internal/store/sqlite.go:93-192 | Rows and every process's caches agree throughout every run of several processes. |
| RowRuns.CacheCoherent | node/internal/store/sqlite.go:93-192 | At any moment of such a run the log a process gets holds exactly the thread's rows, whoever wrote them, and what it wrote into the log it has cached, if that is current, and has not saved; with none of that it is the replay. It holds all that the process wrote and has not saved if and only if each such entry is in the table or in a current cached log. Corruption is never reported. |
| RowRuns.SaveExact | node/internal/store/sqlite.go:129-192 | Saving an entry, one dropped from the cached log too, succeeds if and only if it is admissible with the thread's rows and what is left in a current cache. |
| RowHistory.Track | node/internal/store/sqlite.go:93-127 | From its writing on, an entry is in the table, or in the current cached log while no other process has committed to the thread, or out of it for good once one has. |
| RowHistory.WrittenEntryKept | node/internal/store/sqlite.go:93-127 | An entry a process wrote is in the log it is given later if and only if it is in the table by then or no other process has committed to the thread since it was written. |
| RowCases.WrittenEntryDropped | node/internal/store/sqlite.go:99-125 | A case: a process writes, another commits to the thread, and the log the first is given no longer holds what it wrote and has not saved; saving it still succeeds. |
| RowRuns.DatabaseRefinesStore | node/internal/store/sqlite.go:129-192 | Appending a batch through rows and cache agrees with the plain store: same success, same logs. |
| Sqlite.SQLite.ThreadLog | node/internal/store/sqlite.go:93-127 | The revalidating read updates the cache and returns the log as specified. |
| Sqlite.SQLite.Thread | node/internal/store/sqlite.go:205-216 | A thread without entries is not found, any other is its cached log. |
| Sqlite.SQLite.AppendEntries | node/internal/store/sqlite.go:129-192 | The loop over rows and cache reaches the specified database, cache and outcome. |
| Fusion.AddListMeaning | node/internal/store/sqlite.go:360-372 | Merging a list adds exactly its entries and adds each entry's reciprocal-rank weight to its score. |
| Fusion.MergedHitIsFirst | node/internal/store/sqlite.go:362-370 | An entry keeps the hit it was first merged with, and takes a later list's snippet only when it has none. |
| Fusion.MergedMeaning | node/internal/store/sqlite.go:359-387 | The merged map holds exactly the entries found by either list, scored by the sum of both weights. |
| Fusion.RankingOrder | node/internal/store/sqlite.go:389-408 | A ranking lists each entry once with its merged score, the better score first, equal scores by entry id ascending. |
| Fusion.RankingUnique | node/internal/store/sqlite.go:389-408 | The ranking, by score descending and id ascending, is unique: map iteration order does not show. |
| Fusion.Rank | node/internal/store/sqlite.go:389-408 | Collecting in map order and sorting in place gives that ranking, each entry once. |
| Fusion.Search | node/internal/store/sqlite.go:341-399 | Refuses if and only if no lane is given; else returns the first K of the ranking of the retrievers that the mode selects. |
| Fusion.RetrieversByMode | node/internal/store/sqlite.go:374-387 | Both retrievers are consulted if and only if the mode is hybrid, the default, with a query vector and an index; none if and only if a vector search comes before anything was embedded. |
| Fusion.BothBeatOne | node/internal/store/sqlite.go:341-399 | For K <= 61 an entry both retrievers found scores strictly above every entry only one found. |
| Fusion.BoundExact | node/internal/store/sqlite.go:341-399 | That holds of all pairs of ranked lists if and only if K <= 61. |
| Fusion.BothSurviveTheCut | node/internal/store/sqlite.go:389-398 | For K <= 61 an entry both found is ranked above all that one found, and is never cut. |
| CanonicalJson.Buffer.WriteCanonical | node/internal/log/entry.go:123-172 | The writer appends the specified canonical text, whatever order the maps give their keys in. |
| CanonicalJson.CollectKeys | node/internal/log/entry.go:146-151 | Keys collected in any order come out sorted, each once. |
| CanonicalJson.EscapeRoundTrip | node/internal/log/entry.go:174-183 | Every character reads back from its escape. |
| CanonicalJson.ReadBack | node/internal/log/entry.go:98-183 | A reader for the grammar in sections 4 to 7 of RFC 8259 reads from the printed text of any nested value that value, number literals verbatim, and stops exactly at its end. |
| CanonicalJson.CanonicalRoundTrip | node/internal/log/entry.go:98-183 | Reading the whole canonical text gives the value and leaves nothing. |
| CanonicalJson.CanonicalInjective | node/internal/log/entry.go:98-183 | Equal canonical bytes mean equal bodies. |
| Envelope.BytesBack | node/internal/log/entry.go:185-209 | The envelope's canonical bytes read back as its fields in order. |
| Envelope.BytesFollowSchema | node/internal/log/entry.go:54-89 | Reading the bytes back gives each field under its name in schema order, empty optional ones and, for signing, the signature left out. |
| Envelope.BytesDetermineEntry | node/internal/log/entry.go:185-223 | Two envelopes have the same signed or hashed bytes if and only if they agree in every field those bytes cover, empty references counting as none. |
| Envelope.RefsInjective | node/internal/log/entry.go:54-70 | Different references never print alike. |
| Envelope.IntTextInjective | node/internal/log/entry.go:72-89 | Different integers never print alike. |

## Where code and documentation disagree

The model follows the code.

- Stewards push control entries (node/internal/sync/sync.go:177-180); spec/protocol.md:68-69
  says only summary and content lanes are remotely writable.
- The contribute window runs from the first contribute grant to the *latest* denial, and a
  new grant does not reopen it (node/internal/perm/perm.go:245-249 and 336-342);
  spec/protocol.md:66-67 speaks of a `[grant, revoke)` window.
  `PermWindows.ContributeWindowExact` gives the window, and `PermWindows.WindowIsGrantToRevoke`
  says exactly when it is the union of the `[grant, revoke)` windows. It fails in two ways:
  a second revoke lets entries in (`Cases.SecondRevokeReadmits`), and a grant after a revoke
  lets none in (`Cases.RegrantAdmitsNothing`).
- Not only entries by stewards change anything, as node/internal/perm/perm.go:1-4 has it: a
  thread entry names stewards whoever wrote it, and delegations are their authors' own
  (`Stewards.UnauthorisedChanges` has the exact condition, `Cases.ThreadEntryNamesItsAuthor` a
  case, `Stewards.StewardsClosedForm` all ways to become a steward).
- A cached log is rebuilt from the rows whenever another process has appended
  (node/internal/store/sqlite.go:89-92), and forgets what this process had written into it and
  not saved, though node/internal/store/sqlite.go:142-143 speaks of writing through it
  (`RowHistory.WrittenEntryKept` has the exact condition, `RowCases.WrittenEntryDropped` a
  case, `RowRuns.SaveExact` what saving such an entry then does).
- A fork at equal head positions is not noticed by a sync round, since only positions are
  exchanged (`Rounds.OwnChainsArrive` has the exact condition, `Rounds.EqualForkIsSilent` a
  case).
- An access request carries clock 1, so decisions made before it was filed sort after it and
  answer it (`Requests.FiledRequestPending` has the exact condition,
  `Cases.LateRequestIsAnswered` a case).
- `ShareThread` offers the chains of the caller's agent keys too
  (node/internal/sync/sync.go:383-386), but a bootstrapping push checks them against the
  genesis alone and refuses them (`Hosting.SharedThreadIsHosted` has the exact condition,
  `Cases.AgentEntryBlocksHosting` a case).

## Left out

- Ed25519, SHA-256, base32, ULIDs: `sig` is the key whose signature the entry carries, a hash is the entry it was taken from, and of a principal id only its prefix is checked. Fresh ids are a precondition or a case of refusal.
- Field shapes checked by pattern (id, hash, signature, extension kind names beyond the reserved prefix): no transition depends on them.
- Raw body decoding (`json.Unmarshal`, the trailing-data and must-be-an-object checks of `canonicalBody`, whitespace and surrogate pairs in the reader): the fold sees a body as what its decoder for that kind would read, or as an undecodable one. Strings are sequences of Unicode scalar values.
- Entry references, unread body keys and the spelling of timestamp and signature: one string `rest` of an entry, compared and hashed with it and otherwise not interpreted; their encoding is in `Envelope`.
- Timestamps: an optional integer (absent when it does not parse); clocks, times and ids are parameters; the overflow of a very long time-to-live is not modelled.
- Database failures, transactions, SQL, FTS5, snippets, vector blobs and cosine scores: each store call is one atomic step and the two ranked lists are given.
- Fusion.Search: scores are exact reals; rounding of 64-bit floats is not modelled.
- Aliasing between an `Author`'s log, the cached log and the store: cached logs are values in a map, and writing through a cached log is a step of its own in `RowRuns`. A process that writes into a log object it kept from before the cache was rebuilt is not modelled.
- Error texts: the failures of `Validate` are one error, and a failed push, pull or round is one `None` with no partial count.
- RowRuns.CacheCoherent: each process saves entries after their chain predecessors and ids are unique across the database; the code relies on this and does not check it.
- ServerRuns.EverythingJustified: entries name the thread they are sent to; the bootstrap branch of `Push` does not check this for the genesis (node/internal/sync/sync.go:155-160). The same holds for ServerRuns.PushLeavesOthersAlone and Confinement.RunsAreRooted.
- SyncLaws.PullAgrees: ids are unique across the two logs, the thread has its genesis, and the server's own data passes its window check. The caller's permitted lanes are part of the server's; TwoWay.SyncThreadAgrees is the case where they are not.
- TwoWay.SyncThreadAgrees: nobody wrote two different entries at one chain position. TwoWay.RoundMerges, TwoWay.HubConverges and Hub.EveryoneConverges ask the same; Rounds.OwnChainsArrive says what happens otherwise.
- Rounds.SecondRoundIsQuiet: for a principal served all lanes; Rounds.SecondRoundExact is the statement for any lanes.
- PermWindows.WindowIsStable: an agent key is judged as its person, so the last clause asks that the principal is not one afterwards.
- `List`, `Discover`, `SyncAll`, the vector index, HTTP, request headers, portal, MCP tools, command line and peer files: plumbing over the members above.
