# Snoringcat platform runtime: a verified model

The runtime module of the platform runs inside Nakama. It keeps parties, invite and
friend codes, rate limits, crash-report retention, public leaderboards, match
allocation and match results. This project models those protocols in Dafny, with the
branches, constants and error codes of the Go sources, and proves what their comments,
documentation and tests promise over every input, every run or every reachable state.

Each protocol has two halves. A specification (functions over values) says what one
whole operation does; the main theorems are lemmas about it. Where the Go code changes
state step by step, a class with the same fields and loops is proved to do exactly what
the specification says (`ensures State() == Op(old(State()), ...)`).

| files | protocol |
|---|---|
| `Party`, `PartyInvariants`, `PartyTheorems`, `PartyCalls`, `PartyRuns`, `PartyAuthority`, `PartyCodes`, `PartyServer` | parties: membership, leadership, readiness, start guard, invite codes, account deletion; what each call answers and does, and readiness told by calls and answers |
| `Codes`, `FriendCodes` | the two-row code tables |
| `Windows`, `FriendsLimiter` | sliding windows kept in pruned form |
| `CrashLimiter`, `CrashLedger`, `CrashReleases` | the crash-report limiter, what it admits over a run, and what a late release does to it |
| `CrashKeys`, `CrashPrune` | time-ordered storage keys and the paged retention prune |
| `Token` | the signed signaling token: printed by the runtime, parsed by the proxy |
| `Names`, `NameKinds` | display-name cleaning, validation and clamping, and what they come to rune by rune |
| `BoardCache`, `BoardAnswers`, `BoardCalls`, `BoardListing` | the public leaderboard: cache, what a get must answer, concurrent gets, paging, listing rules, ranking |
| `FleetAllocation`, `Inflight`, `Backoff`, `PortPool` | allocation retries and cancellation, the in-flight table, retry delays, local port pairs |
| `MatchLifecycle`, `MatchRecords`, `MatchRetries`, `MatchCancels`, `MatchServer` | register, record, end, retry, cancel and sweep under failing writes |
| `Basics` | what several modules share |

## What the environment is taken to be

- Nakama's group writes follow the comments of `runtime/party.go`: an add by the leader
  on a closed party leaves an invite in edge state 3 (lines 685-688), which the invitee's
  join turns into an active membership; a join by anyone else leaves a request; a
  join by code adds an active member directly (lines 2581-2583); a party whose last
  active member leaves is over (lines 1181-1187). A group's edge count is its number of
  active members. Group ids are never issued twice.
- Storage is a set of maps with create-only writes, overwrites and deletes. The clock,
  random draws, Edgegap, Docker and the outcome of each fallible call are parameters,
  so a theorem quantifies over all of them.
- HMAC-SHA256 and IP parsing are function parameters of the token theorems.
- Runes carry one of ten disjoint classes instead of Unicode tables.

## Where the code and its comments part

The model follows the code. Each of these is a lemma.

- A join call that makes nobody active clears the whole party's readiness, although no
  roster changed. It leaves the ready rows alone if and only if the call was refused or
  nobody was ready (`PartyTheorems.IdleJoinKeepsReadinessExactlyWhen`; a run in
  `PartyTheorems.RequestUnreadiesTheParty`).
- A party that ends may leave ready rows behind: if and only if it ends by the deletion of
  its creator's account and somebody in it was ready
  (`PartyTheorems.EndedPartyLeavesRowsExactlyWhen`; a run in
  `PartyTheorems.ReadyRowOutlivesItsParty`).
- Account deletion covers ten pages of a hundred groups, parties or not, so it leaves
  every party if and only if no party of the player is listed behind the first thousand
  (`PartyTheorems.DeletionLeavesEveryPartyExactlyWhen`; a run in
  `PartyTheorems.DeletionMissesTheParty`).
- A disband, a party of one ended by a move, and the deletion of a creator's account find
  the invite code through the reverse row. So a forward row still names the party
  afterwards if and only if, at some time, an issue of a code for it had failed between its
  two writes (`PartyCodes.EndedPartyLeavesCodesExactlyWhen`; a run in
  `PartyCodes.HalfIssueOutlivesTheParty`). A party that ends with its last member's leave
  keeps all its code rows. Friend codes have the same gap at account deletion,
  where a comment calls the row harmless (`FriendCodes.DeletionLeavesARowExactlyWhen`; a
  run in `FriendCodes.HalfIssueOutlivesTheAccount`).
- `clampDisplayName` returns "" although letters survive when the cut at 32 runes falls
  just behind a joiner; its comment names only the case that nothing valid is left
  (`Names.ClampIsEmptyExactlyWhen`, `Names.JoinerAtTheCutEmptiesTheName`).
- A token is not the only text for its bytes: the decoder skips line breaks and ignores
  spare trailing bits (`Token.Base64Canonical`, `Token.LineBreakChangesNothing`).
- A retried `match_end` is idempotent on best and set boards; on a running-total board it
  counts again what the failed attempt had written, and when only the retry can read the
  synthetic marker the attempt's records stay. It ends as one clean call if and only if the
  attempt's records make no difference (`MatchRetries.RetryLeavesOneCleanCall`; runs in
  `MatchRetries.RetryCountsTwice` and `MatchRetries.UnreadMarkerLeavesRecords`).
- A match_cancel that is answered is final if and only if the allocator had set out to
  write the match's record or given the match up. One that comes between the allocator's look at the registration
  and that write leaves a match that ends when a server registers again
  (`MatchCancels.CancelIsFinalExactlyWhen`; a run in `MatchCancels.CancelRacesTheRecord`).
- A match_cancel answered as a no-op changes nothing if and only if the match has neither
  record nor marker; it takes away an end the match could have had if and only if the match
  has its record, which takes such a race before it
  (`MatchCancels.NoOpCancelForfeitsExactlyWhen`, the same run).
- A client can cancel more than matches marked synthetic: its cancel takes away the end of
  an unmarked match if and only if that has its record and no registration, for the marker
  is checked behind the registration (`MatchCancels.ClientCancelForfeitsExactlyWhen`, the
  same run).
- A cancel can leave a deploy running that nobody is sent to, because an attempt stops its
  deploy under the context the cancel has ended: if and only if the cancel comes inside an
  attempt that deploys, after it began and before the read that would find its server
  registered, or the stop of a deploy it would give up anyway
  (`FleetAllocation.OrphanIsLeftExactlyWhen`; runs in
  `FleetAllocation.CancelWhilePollingStopsInVain` and
  `FleetAllocation.CancelWhileRegisteringStopsInVain`).
- A user's cancel can find nothing although a match of theirs is still being allocated: if
  and only if the newest of their allocations is over and an older one is not
  (`Inflight.CancelIsLostExactlyWhen`; a run in `Inflight.NewerFinishesFirst`).
- `release` takes back the user's newest stamp and a count of whatever day the counters are
  on. Afterwards every decision is the full ledger's and every cap holds if and only if the
  reservation was made on the counted day, or that counter is at zero, and was its user's
  newest, or all of theirs have left the window
  (`CrashReleases.ReleaseIsHarmlessExactlyWhen`). Otherwise six reports of one user fit in
  an hour (`CrashReleases.SixInAnHour`) and 501 on a day
  (`CrashReleases.FiveHundredAndOneOnADay`).
- The time parser also accepts keys the runtime never writes: a comma for the decimal
  point, a sign for the first fraction digit (`CrashKeys.ParsedIsPrinted`). The age pass is
  exact if and only if no expired key is listed behind a retained one
  (`CrashPrune.AgePassIsExact`), which only such a key can bring about
  (`CrashPrune.CommaKeyHidesTheExpired`).

## Model

| member | source | states |
|---|---|---|
| PartyTheorems.PlayerHasOneParty | runtime/party_group_guards.go:65-95 | in every reachable state a player is an active member of at most one party |
| PartyTheorems.LeaderIsActive | runtime/party.go:887-901 | in every reachable state a party's resolved leader is one of its active members, across transfers, departures, kicks and account deletions |
| PartyTheorems.AcceptMovesThePlayer | runtime/party.go:1317-1364 | accepting an invite makes the player active there and nowhere else, and keeps every invariant |
| PartyTheorems.ReadySinceUnrolled | runtime/party_ready_gate.go:19-57 | what "ready since" means over a run: set ready at some point, and no later join into the party, start, own exit, own invite or un-ready |
| PartyTheorems.StartGoesThroughExactlyWhen | runtime/party.go:269-490 | a start succeeds if and only if an active member calls it, every active member has readied since the last event that resets them, and no un-aborted start lies within the last twenty seconds |
| PartyTheorems.GuardRefusesExactlyWhen | runtime/party_start_guard.go:29-60 | the pruned start map refuses exactly when the full history of starts and aborts holds an attempt inside the window |
| PartyRuns.StartIsAnsweredOkExactlyWhen | runtime/party.go:269-490 | over every run, from the calls and their answers alone: a start is answered ok if and only if an active member of a live party calls it, each active member has a set_ready(true) answered ok with no later un-ready, invite or exit of theirs and no later join, start or account's exit in the party, and no start of the last twenty seconds stands without a later abort |
| PartyRuns.RowsAreTheRuns | runtime/party_ready_gate.go:19-57 | over every run a live party's ready rows are exactly those the calls and answers tell |
| PartyCalls.AnsweredOkExactlyWhen | runtime/party_group_guards.go:65-284 | every call but start, join by code and code issue is answered ok if and only if its caller may make it, written out in rosters, room, explicit block pairs and sharing: invites and leader adds, joins, leaves, kicks, transfers, disbands, set_ready, aborts, settings |
| PartyCalls.OkMeansDone | runtime/party.go:1271-1433 | what each call answered ok has done: who is asked, active, requested, gone or leads, the caller's ready row and no other, the abort's attempt, the setting's row |
| PartyCalls.RefusalsExactly | runtime/party_group_guards.go:65-284 | for every call, each status is given for its reasons and no others, in the guards' order, written out in rosters, room, blocks, sharing and rows; a list of targets is turned away for the first bad one |
| PartyCalls.CodeJoinAnswersExactly | runtime/party.go:2421-2583 | a typed code lets the caller into a party if and only if it is six alphabet characters, its row names that live party, there is room, and the caller is on its roster already or shares no other party and neither blocks nor is blocked by a member |
| PartyCalls.CodeJoinHasDone | runtime/party.go:2584-2640 | the caller is then active behind the others, nobody there is ready, the caller's parties of one are over and every other party is as it was |
| PartyCalls.StaleCodeIsDropped | runtime/party.go:2645-2671 | a code whose party is gone is refused (5) and exactly its two rows go |
| PartyCalls.CodeCallAnswersExactly | runtime/party.go:2181-2352 | a member is given the party's code, or with healthy storage the first free draw, and an outsider nothing; no roster, row of readiness, setting or lead changes |
| PartyRuns.AnsweredCodeReachesItsParty | runtime/party.go:2421-2640 | over every run, a code once answered for a party still alive reaches that party and no other, and no other live party was ever answered it |
| PartyTheorems.StartSpendsReadiness | runtime/party.go:402-429 | after a successful start nobody in the party is ready, by rows or by history, and the attempt counts against the next start |
| PartyTheorems.SurvivorsKeepReadiness | runtime/party.go:1366-1403 | a leave removes the leaver's ready row and no other |
| PartyTheorems.IdleJoinKeepsReadinessExactlyWhen | runtime/party.go:1317-1331 | a join that makes nobody active, be it an outsider's, a repeated request or an active member's, changes no roster; it leaves the ready rows alone if and only if it was refused or none were there, and else clears them all |
| PartyTheorems.RequestUnreadiesTheParty | runtime/party.go:1317-1331 | a reachable party with a ready member loses that readiness to a stranger's request |
| PartyTheorems.HandedOutCodeReachesItsParty | runtime/party.go:2421-2640 | a code handed out for a live party resolves to it: joining by it succeeds whenever the party has room and nothing bars the caller, and never lands anywhere else |
| PartyTheorems.LivePartiesShareNoCode | runtime/party.go:2261-2352 | two live parties never hold the same handed-out code |
| PartyTheorems.DisbandLeavesOnlyStrays | runtime/party_disband.go:71-145 | after a disband no group, leader, ready or settings row of the party is left, nor its pair of code rows; of the forward code rows naming it exactly those stay that its reverse row did not answer to |
| PartyCodes.EndedPartyLeavesCodesExactlyWhen | runtime/party_disband.go:126-143 | whichever operation ends a party in a reachable state: if it takes out the last member, the party's code rows stay; else, by disband, solo-disband or creator deletion, its reverse row goes and a forward row still names it if and only if some issue for it had failed between its two writes |
| PartyCodes.SettingsStayExactlyWhen | runtime/party_disband.go:101-125 | in every reachable state and for every call, a setting of a live party is there afterwards if and only if the call sets it, or it was there and the party lives on or ended with its last member's exit, which leaves its settings rows behind |
| PartyCodes.StrayExactlyWhen | runtime/party.go:2322-2344 | in every reachable state a live party has a forward code row beside its pair if and only if some issue for it had failed between its two writes: nothing clears one while the party lives |
| PartyCodes.HalfIssueOutlivesTheParty | runtime/party.go:2322-2344 | create, an issue whose reverse write fails, disband: the drawn code still names the party |
| PartyTheorems.DeletionLeavesEveryPartyExactlyWhen | runtime/account.go:431-482 | account deletion takes the player out of exactly the parties among the first thousand groups listed, so out of every party if and only if none comes later in the listing |
| PartyTheorems.DeletionMissesTheParty | runtime/account.go:431-482 | a reachable party whose creator has a thousand other groups listed before it keeps that member |
| PartyTheorems.ExitEachAt | runtime/account.go:453-482 | the walk over the listed groups does to each party what leaving that party alone would do |
| PartyTheorems.DeletionEndsOwnParties | runtime/account.go:453-482 | a party whose creator's account is deleted, the listing reaching it, is over with its lead and its settings rows, and the settings of every other party stay |
| PartyTheorems.EndedPartyLeavesRowsExactlyWhen | runtime/account.go:467-474 | whichever operation ends a party in a reachable state, ready rows of it are left if and only if the operation deletes its creator's account and somebody in it was ready |
| PartyTheorems.ReadyRowOutlivesItsParty | runtime/account.go:462-474 | a reachable state holds a ready row of a party that is gone |
| PartyTheorems.WellFormedReadsAsItself | runtime/party.go:2441-2458 | normalizing a well-formed code leaves it unchanged |
| PartyTheorems.DrawnCodesAreWellFormed | runtime/party.go:2361-2371 | whatever random bytes are drawn, the codes made of them are well formed, as the runs of this model ask |
| PartyAuthority.EveryStepIsLawful | runtime/party_kick.go:29-86 | in every reachable state and for every operation: a member loses their place only by their own call, the leader's kick or disband, or the creator's account deletion; gains one only by their own call on an invite or code with room; and the lead passes only by the leader's choice or departure |
| PartyAuthority.PartyNeverOverfills | runtime/party.go:2516-2518 | in every reachable state a party with a positive capacity has no more active members than that |
| PartyInvariants.StepKeepsInv | runtime/party.go:1271-1433 | every operation keeps the whole invariant: rosters, one party per player, leaders present, ready rows exact, ids issued, codes held, starts tracked |
| PartyInvariants.RunKeepsInv | runtime/party.go:1271-1433 | so does every run of operations |
| PartyInvariants.JoinByCodeKeepsInv | runtime/party.go:2565-2640 | joining by code, stale codes included, keeps the invariant |
| PartyInvariants.KickKeepsInv | runtime/party_kick.go:55-84 | a kick of any list the guard passes keeps the invariant |
| PartyInvariants.ExitEachKeepsInv | runtime/account.go:453-481 | leaving any list of groups for an account deletion keeps the invariant |
| PartyInvariants.PruneKeepsTracked | runtime/party_start_guard.go:54-60 | pruning the start map forgets only attempts whose window has passed |
| PartyServer.Server.CreatePartyGroup | runtime/party_group_guards.go:65-95 | a caller sharing a party is refused (6); otherwise their parties of one are ended by the loop and the new group has them alone: the specified step for every state |
| PartyServer.Server.PartyInvite | runtime/party.go:692-839 | the invite RPC with its membership, block and sharing checks in order (3, 5, 9, 7, 7, 6), then the invite edge and the target's ready row: the specified step |
| PartyServer.Server.AddGroupUsers | runtime/party_group_guards.go:126-176 | only the leader, and only when no target is blocked (7) or shares a party elsewhere (6), adds invites: the specified step |
| PartyServer.Server.JoinGroup | runtime/party_group_guards.go:252-284 | a sharing caller is refused (6); an invite becomes active, anyone else leaves a request, then readiness is cleared and a lander's parties of one end: the specified step |
| PartyServer.Server.AfterJoinGroup | runtime/party.go:1317-1364 | the after-join hook clears readiness and ends the joiner's parties of one as specified |
| PartyServer.Server.PartyJoinByCode | runtime/party.go:2421-2640 | malformed, unknown and stale codes (3, 5), full parties (9), blocks (7) and shared parties (6) are refused in the code's order, else the caller is active in the code's party: the specified step |
| PartyServer.Server.LeaveGroup | runtime/party.go:1366-1403 | the edge and ready row go, a departed leader hands on, an emptied party is over: the specified step |
| PartyServer.Server.KickGroupUsers | runtime/party_kick.go:29-86 | only the leader kicks, never themself and only listed users; their edges and ready rows go: the specified step |
| PartyServer.Server.AutoTransferIfLeaderDeparted | runtime/party.go:1127-1224 | hands leadership to the first other active member, or drops the override when there is none |
| PartyServer.Server.PartyTransferLeadership | runtime/party.go:951-1110 | only the active leader hands over, only to another active member (3, 5, 7, 7, 3): the specified step |
| PartyServer.Server.PartyDisband | runtime/party_disband.go:38-64 | only the leader ends the party, with the rows the cleanup finds: the specified step |
| PartyServer.Server.DisbandPartyGroup | runtime/party_disband.go:71-145 | the group, the ready rows of those the roster lists, the leader and settings rows and the code pair found through the reverse row go, and no other row |
| PartyServer.Server.LeaveAllGroups | runtime/account.go:431-482 | pages the memberships up to the cap and leaves each as specified |
| PartyServer.Server.PartySetReady | runtime/party.go:1561-1677 | only an active member sets or clears their own ready row: answered ok, the row is there if and only if ready was asked, and no other row changes |
| PartyServer.Server.AllMembersReady | runtime/party_ready_gate.go:19-57 | true if and only if there are members and each has a ready row |
| PartyServer.Server.TryStart | runtime/party_start_guard.go:29-41 | prunes, then admits and records the attempt if and only if no live one is left |
| PartyServer.Server.PartyStartMatchmaking | runtime/party.go:269-490 | refused for outsiders (7), while anyone is unready (9) or an attempt is live (8); else the attempt is recorded and readiness spent: the specified step |
| PartyServer.Server.PartyAbortMatchmaking | runtime/party.go:548-654 | an active member's abort frees the party's start and changes nothing else: the specified step |
| PartyServer.Server.PartyGetInviteCode | runtime/party.go:2181-2352 | an active member gets the party's code or a fresh one; a failing forward write changes nothing, a failing reverse write leaves only the forward row: the specified step |
| PartyServer.Server.PartyMemberships | runtime/party.go:2793-2845 | the parties a player is active in, each with its active head count |
| PartyServer.Server.SoloParties | runtime/party.go:2860-2869 | exactly the parties of one, each once |
| PartyServer.Server.ClearPartyReadyRows | runtime/party.go:2713-2761 | deletes the ready rows of everyone the roster lists and of the extra users, and no other |
| CodeTable.IssueKeepsConsistent | runtime/party.go:2261-2352 | whichever write fails, every reverse row stays answered by its forward row |
| CodeTable.IssuedCodeSticks | runtime/party.go:2261-2352 | an issued code is the owner's in both rows, is returned again whatever is drawn next, and no earlier row changes |
| CodeTable.IssueAnswersExactly | runtime/party.go:2261-2352 | for every draw and fault: an owner's code is given again; else the first free draw is written forward, then reverse, and given; a forward fault up to there writes nothing, a reverse fault leaves the forward row, and with no free draw nothing is written |
| CodeTable.CharactersAreEquallyLikely | runtime/party.go:2355-2371 | two random bytes give the same character if and only if they agree modulo 32, so none is favoured |
| CodeTable.TypedCodeIsRead | runtime/party.go:2441-2458 | a code typed in any mixture of capitals and small letters, with white space around it, is read as that code |
| CodeTable.IssueFailsExactlyWhenAllTaken | runtime/party.go:2290-2351 | with storage healthy, issuing fails if and only if every draw is taken |
| CodeTable.DropOwnerEndsOnlyItsCode | runtime/party_disband.go:126-143 | dropping an owner's rows ends its code and leaves every other pair standing |
| CodeTable.IssueAddsStray | runtime/party.go:2322-2344 | an issue leaves an owner a forward row without its reverse row if and only if the owner had one or this issue failed between its two writes |
| CodeTable.DropOwnerLeavesStrays | runtime/party_disband.go:126-143 | after an owner's rows are dropped a forward row still names them if and only if they had one that no reverse row answered; no other owner's rows change |
| CodeTable.DropPairKeepsConsistent | runtime/party.go:2645-2671 | dropping a stale code's rows keeps the table consistent |
| CodeTable.IssueCode | runtime/friend_code.go:90-152 | the create-only retry loop does what the specification says for every draw and fault |
| FriendCodes.GivenCodeResolves | runtime/friend_code.go:161-203 | over any run, a code some call was answered for a user resolves to that user until their account is deleted, and no two users hold the same code |
| FriendCodes.ResolvesExactly | runtime/friend_code.go:161-203 | what any typed text resolves to: the owner of the code it spells in capitals or not, else the user of exactly that name, else nobody |
| FriendCodes.EightBytesDrawACode | runtime/friend_code.go:251-263 | whatever eight random bytes are drawn, the code made of them is one these runs allow |
| FriendCodes.DeletedCodeIsGone | runtime/friend_code.go:210-249 | over any run, once the account of a code's holder is deleted the code is in neither row |
| FriendCodes.DeletionLeavesARowExactlyWhen | runtime/friend_code.go:210-249 | over any run, a deleted account keeps some forward row if and only if some issue for it had failed between its two writes |
| FriendCodes.HalfIssueOutlivesTheAccount | runtime/friend_code.go:205-209 | such an issue and then the deletion: the drawn code still resolves to the account |
| FriendCodes.Store.GetOrCreateFriendCode | runtime/friend_code.go:69-153 | get-or-create does exactly the specified issue |
| FriendCodes.Store.ResolveFriendCode | runtime/friend_code.go:161-203 | the code row first, then the username as typed |
| FriendCodes.Store.DeleteFriendCode | runtime/friend_code.go:210-249 | on a consistent table deletes exactly the user's pair |
| Windows.KeptDecides | runtime/friends_limits.go:102-136 | from stamps pruned at any earlier call a limiter gets the very count the full history gives, and what it keeps next stays right |
| Windows.WindowAfterAccept | runtime/friends_limits.go:102-136 | a rule that bounds the window behind each accepted call bounds every window |
| FriendsLimits.NoBurst | runtime/friends_limits.go:102-136 | on every run with a forward clock no closed sixty seconds hold more than ten accepted calls of one caller |
| FriendsLimits.FriendsLimiter.AllowFriendCodeCall | runtime/friends_limits.go:102-136 | allows a call if and only if fewer than ten accepted ones lie in the closed last sixty seconds of the full history; callers without an id always pass |
| FriendsLimits.FriendsLimiter.NewFriendRequestCount | runtime/friends_limits.go:222-233 | counts the usernames and the ids that have not invited the caller |
| FriendsLimits.FriendsLimiter.CheckAddFriends | runtime/friends_limits.go:179-217 | which status each request gets, and that an accept-only request leaves the limiter untouched while one turned away by the cap has used its place |
| FriendsLimits.AcceptsAreNoNewRequests | runtime/friends_limits.go:222-233 | a request adds nothing new if and only if every id has already invited the caller |
| CrashLedger.LimiterIsTheLedger | runtime/crash_report.go:465-528 | over every run with a forward clock whose releases come before their user's next reserve and within the counted day, each verdict of the limiter is the one that counting all live reservations gives, and what it has admitted is what that ledger admits |
| CrashLedger.LimiterKeepsCaps | runtime/crash_report.go:465-528 | over those runs the limiter has never admitted more live reservations than 500 by session users and 200 by servers on a UTC day, and five of one user in any closed hour |
| CrashLedger.CapIsNamedOncePerDay | runtime/crash_report.go:465-506 | over every run, whatever is released when, a daily cap is named on its first rejection of a UTC day and on no other call |
| CrashLedger.DisciplineKeepsExact | runtime/crash_report.go:465-528 | every such run keeps all that a decision reads equal to the counts of the live reservations |
| CrashReleases.ReleaseIsHarmlessExactlyWhen | runtime/crash_report.go:509-528 | after any release, every later decision is the ledger's, and no cap is ever exceeded, each if and only if the reservation was made on the counted day (or the counter is at zero) and was its user's newest (or all of theirs have left the window) |
| CrashReleases.DisciplinedRunsAreExact | runtime/crash_report.go:509-528 | every run whose releases come in time ends in a state that theorem speaks of |
| CrashReleases.WrongDayOverruns | runtime/crash_report.go:509-517 | after a release that takes a count off another day than its own, some run with timely releases ends with the limiter admitting what the ledger refuses |
| CrashReleases.WrongStampOverruns | runtime/crash_report.go:518-527 | the same after a release that takes a newer stamp of its user than its own, while one of theirs is still in the window |
| CrashReleases.SixInAnHour | runtime/crash_report.go:604-632 | reports at minutes 0, 59, 59, 59, 59, the first given back at the end, then two at minute 61: six live reports of one user in an hour |
| CrashReleases.FiveHundredAndOneOnADay | runtime/crash_report.go:604-632 | a report given back after midnight lets 501 live reports in on the next day |
| CrashLimits.VerdictReads | runtime/crash_report.go:465-506 | the verdict depends on today's two counters and the caller's stamps of the last hour alone |
| CrashLimits.ReserveLeaves | runtime/crash_report.go:465-506 | a reserve leaves the counts of its own day, one up if accepted, and everyone's stamps of the last hour, the caller's with the new one behind them |
| CrashLimits.ReleaseLeaves | runtime/crash_report.go:509-528 | a release leaves one count less and the caller's newest stamp gone, at any cutoff, and nobody else's |
| CrashLimits.SweepChangesNoDecision | runtime/crash_report.go:551-557 | dropping the users whose windows have emptied changes no verdict from then on |
| CrashLimits.NoWindowIsEmpty | runtime/crash_report.go:510-571 | no reserve or release leaves a user with an empty window: they are dropped instead |
| CrashLimits.BudgetsAreSeparate | runtime/crash_report.go:465-528 | on the limiter's own state: a reserve or release by a server caller changes no later verdict on a session user, nor the other way round |
| CrashLimits.ReleaseUndoesReserve | runtime/crash_report.go:509-528 | on the limiter's own state: after a reserve and its release every later verdict on anyone is what it would have been without both |
| CrashLimits.CrashReportLimiter.Reserve | runtime/crash_report.go:465-506 | rolls the day, checks the caps in order, sweeps, prunes and counts: the specified step from every state |
| CrashLimits.CrashReportLimiter.Release | runtime/crash_report.go:509-528 | takes back a count and the caller's newest stamp: the specified step from every state |
| CrashLimits.CrashReportLimiter.WindowFor | runtime/crash_report.go:547-571 | the sweep and the prune leave exactly the specified stamps |
| CrashLimits.CrashReportLimiter.Sweep | runtime/crash_report.go:551-557 | past ten thousand users the loop drops exactly those whose newest stamp is older than the cutoff |
| CrashLimits.CrashReportLimiter.RollDay | runtime/crash_report.go:532-542 | a new UTC date resets both counters and both flags, and the same date nothing |
| CrashKeys.KeysSortByTime | runtime/crash_report.go:417-424 | string order of keys is receive-time order to the microsecond; the suffix decides only within one |
| CrashKeys.KeyReadsBack | runtime/crash_report.go:863-873 | a written key parses back to its receive time, to the microsecond |
| CrashKeys.CivilReadsBack | runtime/crash_report.go:417-424 | the calendar fields of a moment name that moment |
| CrashKeys.FieldsOrder | runtime/crash_report.go:123-126 | calendar order is time order, and different fields are different moments |
| CrashKeys.LeapYears | runtime/crash_report.go:417-424 | every fourth year has 366 days, and of the centuries every fourth |
| CrashKeys.MonthLengths | runtime/crash_report.go:417-424 | the days of the twelve months, as a table |
| CrashKeys.ParsedIsPrinted | runtime/crash_report.go:863-873 | a key that parses is the printed form of its time if and only if its fraction starts with a point and a digit |
| CrashKeys.FractionExactly | runtime/crash_report.go:863-873 | the fractions the time parser takes: six digits, five behind a plus sign, or a zero behind a minus sign |
| CrashKeys.PlainKeysInOrder | runtime/crash_report.go:715-724 | well-formed keys in string order are in time order |
| CrashPrune.AgePassIsExact | runtime/crash_report.go:754-790 | on any healthy store the age pass deletes exactly the well-formed keys older than the cutoff among the first ten thousand listed if and only if none of them is listed behind a retained one, as is so for all keys the runtime writes |
| CrashPrune.CommaKeyHidesTheExpired | runtime/crash_report.go:840-860 | for every second and cutoff within it, a retained key with a comma in it keeps the pass from an expired key of the same second |
| CrashPrune.AgePassIgnoresPages | runtime/crash_report.go:754-790 | where page boundaries fall makes no difference to what the age pass deletes |
| CrashPrune.FaultsOnlyShorten | runtime/crash_report.go:763-777 | a storage fault leaves an opening part of the healthy pass's deletions |
| CrashPrune.CapPassIsExactlyWhen | runtime/crash_report.go:795-835 | on healthy storage the cap pass deletes exactly as many of the oldest readable keys as asked for, or all there are, if and only if the pages it lists reach the last one needed |
| CrashPrune.CapPassWithinBudget | runtime/crash_report.go:795-835 | they do reach it whenever the hundred pages cover those the needed keys fill and one for each foreign key listed before the last of them |
| CrashPrune.CapPassNeverOvershoots | runtime/crash_report.go:795-835 | whatever fails, it deletes an opening part of the readable keys and never more than asked for |
| CrashPrune.ForeignKeysStay | runtime/crash_report.go:715-724 | a key without a timestamp is never deleted, whatever fails |
| CrashPrune.PruneKeepsTheNewest | runtime/crash_report.go:725-751 | on a healthy store, foreign keys among its keys, a prune whose pages reach the expired and the keys over the cap deletes every expired report and then the oldest others over the cap; the newest of them and every foreign key stay |
| CrashPrune.CrashStore.PruneExpired | runtime/crash_report.go:754-790 | the cursor loop over a store it is deleting from removes exactly what the age pass names |
| CrashPrune.CrashStore.DeleteOldest | runtime/crash_report.go:795-835 | the cursor loop removes exactly what the cap pass names and counts it |
| CrashPrune.CrashStore.ExpiredCrashReports | runtime/crash_report.go:840-860 | one page's deletes and whether it reached a retained report |
| CrashPrune.CrashStore.Prune | runtime/crash_report.go:725-751 | both steps together; a failing count skips the second |
| Token.ProxyReadsWhatRuntimeSigned | infra/remote/signaling-proxy/main.go:197-230 | the proxy accepts the runtime's token if and only if the address has no colon and is an IP, the port is 1 to 65535 and the lifetime is not over; it then dials the signed address |
| Token.TokensAreDistinct | runtime/fleet_allocator.go:71-85 | equal tokens mean equal address, port and signing time, whatever the addresses hold |
| Token.AcceptedIsSigned | infra/remote/signaling-proxy/main.go:197-238 | whatever is accepted decodes to ip:port:exp and a fourth part that reads back, by a hex reader of its own, as the MAC of exactly those bytes; it is valid and unexpired, and is their printed form if and only if it has no line break and no spare bit set |
| Token.AcceptedExactlyWhen | infra/remote/signaling-proxy/main.go:197-238 | a token of four parts with valid address, port and moment is accepted if and only if its fourth part reads as the hex of the MAC of the first three, and is answered with a MAC mismatch otherwise |
| Token.ForgedMacIsRefused | infra/remote/signaling-proxy/main.go:223-226 | a token for any current address and port that carries anything but the hex of their MAC is a MAC mismatch |
| Token.HexRoundTrip | runtime/fleet_allocator.go:82 | reading undoes hex printing for every byte string; the text has two characters a byte, digits and a to f |
| Token.HexIsCanonical | infra/remote/signaling-proxy/main.go:236 | the only text that reads as given bytes is their printed form |
| Token.Base64RoundTrip | runtime/fleet_allocator.go:83 | decoding undoes base64url encoding (section 5 of RFC 4648) |
| Token.Base64Canonical | infra/remote/signaling-proxy/main.go:198 | a text that decodes is the encoding of its bytes if and only if it is one line with no spare bit set |
| Token.LineBreakChangesNothing | infra/remote/signaling-proxy/main.go:198 | a line feed or carriage return anywhere in a token leaves the proxy's answer as it was |
| Token.DecimalRoundTrip | infra/remote/signaling-proxy/main.go:210-218 | parsing undoes printing for every 64-bit integer |
| Token.DecimalIsPlain | runtime/fleet_allocator.go:79 | a printed number is its sign, if negative, and digits without a leading zero |
| Token.ParsesExactlyWhen | infra/remote/signaling-proxy/main.go:210-218 | a text parses if and only if it is one sign or none and then digits that name, read from the left, a 64-bit number; and to that number |
| Token.SplitAtColon | infra/remote/signaling-proxy/main.go:202 | splitting a text joined at a colon gives the parts of both sides |
| Token.JoinOfSplit | infra/remote/signaling-proxy/main.go:233-238 | joining the split parts gives the text back |
| Names.StripIsIdempotent | runtime/account_validation.go:145-187 | stripping a stripped name changes nothing |
| Names.StripIsClean | runtime/account_validation.go:145-187 | nothing in a stripped name would be stripped: a kept joiner's neighbours are kept |
| NameKinds.StripKeepsExactlyTheShown | runtime/account_validation.go:145-187 | stripping keeps, in order and as often, exactly the runes that are neither control nor format characters, and the joiners whose neighbours are letters or marks, or for the zero-width joiner two symbols |
| NameKinds.ValidExactlyWhen | runtime/account_validation.go:389-422 | a name is valid if and only if, trimmed, it has 1 to 32 runes, is not the reserved name, shows every rune and has a letter or digit; so it holds no invisible rune |
| NameKinds.RefusalsInOrder | runtime/account_validation.go:389-422 | which refusal a name meets first: empty, too long, reserved, invisible characters |
| NameKinds.ReservedInAnyCase | runtime/account_validation.go:397-399 | the reserved name is reserved in every mixture of ASCII cases, and no other name is |
| NameKinds.StoredIsTheBeginning | runtime/account_validation.go:120-136 | what the clamp stores is the stripped, trimmed name's first 32 runes without trailing white space, one rune less for the reserved name |
| Names.StripInvisibleRunes | runtime/account_validation.go:145-163 | the filling loop keeps exactly the runes that are visible or kept joiners |
| Names.ValidateDisplayName | runtime/account_validation.go:389-422 | the verdict in terms of the trimmed name: empty, too long, reserved, hidden runes, no letter or digit, or valid |
| Names.ClampDisplayName | runtime/account_validation.go:120-136 | stores the cleaned name when it is valid, else "", and reports exactly whether that differs |
| Names.ClampStoresAValidName | runtime/account_validation.go:120-136 | a non-empty result is valid, trimmed, within the bound and not the reserved name |
| Names.AcceptedNameIsUnchanged | runtime/account_validation.go:106-119 | a name the update hook accepts is, once trimmed, stored as it stands |
| Names.ClampIsIdempotent | runtime/account_validation.go:120-136 | clamping a non-empty result again changes nothing |
| Names.ClampIsEmptyExactlyWhen | runtime/account_validation.go:123-134 | the result is empty if and only if the cut name has no letter or digit or the cut falls just behind a joiner |
| Names.JoinerAtTheCutEmptiesTheName | runtime/account_validation.go:123-134 | a clean 33-rune name of letters with a joiner in 32nd place comes out empty |
| BoardCache.ServedOnLoad | runtime/leaderboard_public.go:239-268 | under every interleaving, what a get serves without reading comes from a read whose get had counted every invalidation counted now (short of a 64-bit wrap) and is younger than the ttl, or the latest read failed and it is younger than the stale ttl |
| BoardCache.ServedOnFinish | runtime/leaderboard_public.go:248-268 | the same for what a get serves after its read, which always serves when the read succeeds |
| BoardAnswers.GetAnswersExactly | runtime/leaderboard_public.go:239-263 | in every reachable state a get starts no read if and only if the latest read succeeded, counted the invalidations counted now and is under a minute old, or the latest read failed under ten seconds ago; it then answers with the latest successful read's copy if that is current or under ten minutes old, else with a backoff |
| BoardAnswers.ReadAnswersExactly | runtime/leaderboard_public.go:248-268 | a get whose read fails answers with the latest successful read's copy if and only if there is one under ten minutes old, else with the error; one whose read succeeds answers with that |
| BoardAnswers.ConcurrentGetsAnswerExactly | runtime/leaderboard_public.go:227-269 | both hold of each of any number of concurrent gets |
| BoardAnswers.RunHoldsTheCopy | runtime/leaderboard_public.go:248-260 | in every reachable state the slot holds the copy of the latest successful read |
| BoardCalls.ReadsNeverOverlap | runtime/leaderboard_public.go:227-269 | with any number of concurrent gets of a board, no two are ever in a read at once, and each read is over before the next begins |
| BoardCalls.EveryGetCanBeAnswered | runtime/leaderboard_public.go:227-269 | whatever gets are in flight, one that arrives is answered once the get behind the lock, if any, and it itself have taken their own next moves: at most seven, and the mutex is free again |
| BoardCalls.ConcurrentGetsAreOneAtATime | runtime/leaderboard_public.go:227-269 | every interleaving of concurrent gets and invalidations takes the slot through some run of one get at a time, so the freshness and read-count theorems hold of it |
| BoardCalls.ConcurrentGetsServeFresh | runtime/leaderboard_public.go:239-268 | what each of the concurrent gets serves, with and without a read of its own, is as fresh as those theorems say |
| BoardCache.ReadsAreBounded | runtime/leaderboard_public.go:220-269 | between two reads there are at most as many as invalidations and full retry intervals between them, plus one |
| BoardCache.BackoffIsNeverCutShort | runtime/leaderboard_public.go:247-263 | after a failed read the full retry interval passes, however many invalidations come |
| BoardCache.RunKeepsInv | runtime/leaderboard_public.go:227-276 | every interleaving keeps the slot in step with the last finished read |
| BoardCache.PublicLeaderboardCache.LockBoard | runtime/leaderboard_public.go:231-239 | the first part of a get touches its own board only |
| BoardCache.PublicLeaderboardCache.LoadGeneration | runtime/leaderboard_public.go:240-249 | the second part serves, backs off or starts the read exactly as specified |
| BoardCache.PublicLeaderboardCache.FinishRead | runtime/leaderboard_public.go:250-268 | the third part stores or falls back exactly as specified |
| BoardCache.PublicLeaderboardCache.InvalidateAll | runtime/leaderboard_public.go:274-276 | an invalidation reaches every board and no slot changes |
| BoardListing.ReadIsTopListed | runtime/leaderboard_public.go:544-596 | a read fails if and only if a page fails that is listed at all and has fewer than a hundred listable records before it; else it is the first hundred listable records of the first five hundred, wherever page boundaries fall |
| BoardListing.ListedExactlyWhen | runtime/leaderboard_public.go:544-700 | a candidate is on a board's list if and only if it is the result, under the owner's trimmed name, of one of the first five hundred records, its owner exists, is not disabled, pending or a probe and has a name or spawn name to show, and fewer than a hundred such records come before it |
| BoardListing.HiddenPlayersAreNeverListed | runtime/leaderboard_public.go:679-700 | nobody the rules exclude is on any listing, a user name that begins with `probe-` in any case among them, and every listed result is a real record's |
| BoardListing.RankCountsTheBetter | runtime/leaderboard_public.go:736-755 | on a sorted board each rank is one more than the number of players strictly ahead |
| BoardListing.BetterMeans | runtime/leaderboard_public.go:736-755 | what "ahead" means: the higher score, or on a best-time board the lower, the subscore between equals |
| BoardListing.RankOfAgreesWithTheListing | runtime/leaderboard_public.go:331-341 | a player has a rank if and only if they are among the listed, and it is the one the listing shows |
| BoardListing.LimitCommutesWithRanking | runtime/leaderboard_public.go:481-508 | cutting the entries to a limit equals ranking the cut listing |
| BoardListing.ListingKeepsBoardOrder | runtime/leaderboard_public.go:601-645 | filtering keeps the board's order |
| BoardListing.ListablePublicRecords | runtime/leaderboard_public.go:601-645 | the filtering loop keeps exactly the listable records, in order |
| BoardListing.RankPublicLeaderboard | runtime/leaderboard_public.go:736-755 | the ranking loop gives each candidate the rank its run of equal results begins at |
| BoardListing.ReadPublicLeaderboard | runtime/leaderboard_public.go:544-596 | the paging loop and the rank map build exactly the specified snapshot, or nothing on a failed page |
| MatchLifecycle.MatchEndsAtMostOnce | runtime/match_lifecycle.go:403-683 | over any run with failing writes and repeated registrations, a request id's match_end succeeds at most once and only if it was allocated |
| MatchLifecycle.OnlyMatchedUsersAreRecorded | runtime/match_lifecycle.go:302-320 | over any run only matched users have leaderboard or history rows, and every score is within 0 to 100000 |
| MatchRecords.HistoryTellsTheMatch | runtime/match_lifecycle.go:576-600 | after a match_end that got to recording, each named admitted player has a history row for the match: winner if and only if they are the reported winner, score, kills and bumps as reported in their last entry or the nearer bound, the call's level and time; no other key of the history changes |
| MatchRecords.BoardGetsTheScores | runtime/match_lifecycle.go:541-575 | a match_end answered ok adds one write per named admitted player, in the call's order, of their bounded score to the `ffa` board, its name behind the game's id if there is one |
| MatchRecords.ReportIsTakenExactlyWhen | runtime/match_lifecycle.go:403-511 | with no write failing, a report is answered ok if and only if a server makes it for a match with readable registration and record, it names players, among them its winner if it has one, and, if it names anyone the match was not made for, somebody it was made for too |
| MatchRecords.EndAnswersExactly | runtime/match_lifecycle.go:403-539 | which refusal a report meets first (7, 3, storage, 5, 13, 5, 3), that an admitted one is done or told of a failed write (14), and that a match whose synthetic marker is seen records nothing |
| MatchRecords.AdmittedExactlyWhen | runtime/match_lifecycle.go:460-511 | which reports are admitted, in terms of the names they hold |
| MatchRetries.RetryLeavesOneCleanCall | runtime/match_lifecycle.go:523-620 | a failed call retried after any other calls leaves the scores, and the history, of one clean call if and only if the attempt's own records make no difference; they make none unless a running total got some of them or the retry finds a synthetic marker, which the attempt had then failed to read |
| MatchRetries.RetryCountsTwice | runtime/match_lifecycle.go:541-620 | on a running total a player's five points come to ten after a retry, and to five after one clean call |
| MatchRetries.UnreadMarkerLeavesRecords | runtime/match_lifecycle.go:356-365 | a synthetic match whose marker only the retry can read keeps the attempt's score, where a clean call writes none |
| MatchRetries.AttemptShowsExactlyWhen | runtime/match_lifecycle.go:559-567 | a batch of writes between others changes what a board shows a user for if and only if, by the board's operator, it is not outdone, replaced or without effect |
| MatchRetries.BestIsTheBest | runtime/match_lifecycle.go:559-567 | a best board shows one of the user's written scores and none beats it |
| MatchRetries.StepIgnoresRecords | runtime/match_lifecycle.go:403-683 | what a call decides and adds depends on the match's rows only, never on what was recorded before |
| MatchLifecycle.AdmittedAreMatched | runtime/match_lifecycle.go:222-320 | whoever is admitted was matched, with score, kills and bumps in bounds |
| MatchLifecycle.OutsidersChangeNothing | runtime/match_lifecycle.go:474-497 | a call that names only outsiders changes nothing at all |
| MatchLifecycle.RegistrationSticks | runtime/match_lifecycle.go:114-187 | a readable registration is never overwritten: repeats are idempotent and different ones refused |
| MatchLifecycle.RegistrationIsTakenExactlyWhen | runtime/match_lifecycle.go:114-187 | a registration is written if and only if a server makes it, names a match, storage works and no readable one is there; any other caller is refused (7), and nothing else changes |
| MatchCancels.LostMatchNeverEnds | runtime/match_lifecycle.go:440-459 | a match without a record, which the allocator set out to write or gave up, never ends, over any run of any calls and faults |
| MatchCancels.CanEndExactlyWhen | runtime/match_lifecycle.go:403-683 | some run ends the match if and only if its record is there or may yet be written, the allocator having neither set out to write it nor given it up, or it has ended |
| MatchCancels.CancelIsFinalExactlyWhen | runtime/match_lifecycle.go:720-825 | an answered cancel of a match that has not ended is final, no run ending the match, if and only if the allocator had set out to write its record or given it up; in any case nothing ends it and every further cancel is a no-op until a server registers under its id again |
| MatchCancels.CancelTouchesOneMatch | runtime/match_lifecycle.go:720-825 | an answered cancel clears its match's registration, record and readable marker and no other match's rows; answered as done to a client it needs the marker |
| MatchCancels.CancelAnswersExactly | runtime/match_lifecycle.go:720-825 | the exact condition of each answer of a cancel: 3, a storage error, nothing to cancel, 7, done |
| MatchCancels.CancelRacesTheRecord | runtime/match_lifecycle.go:754-757 | register, the allocator sees it, a cancel answered as done, the record is written: the match ends when a server registers again; and any caller's next cancel before that is answered as a no-op and loses the match for good |
| MatchCancels.NoOpCancelForfeitsExactlyWhen | runtime/match_lifecycle.go:749-769 | in every reachable state a cancel answered as a no-op changes nothing if and only if the match has neither record nor marker, and takes away an end it could have had if and only if it has its record; then an earlier cancel had taken the registration before the record was written |
| MatchCancels.ClientCancelForfeitsExactlyWhen | runtime/match_lifecycle.go:701-709 | in every reachable state a client's cancel of a match without marker takes away its end if and only if the match has its record and no registration |
| MatchCancels.RunKeepsGate | runtime/fleet_allocator.go:1448-1466 | over every run a match that has been seen registered, is not lost and has no registration any more was taken down by a cancel |
| MatchLifecycle.SweepIsExact | runtime/match_sweep.go:29-91 | a healthy sweep removes all three rows of exactly the records with a time at least 24 hours old among the first thousand listed |
| MatchServer.ClampPlayerStats | runtime/match_lifecycle.go:222-238 | bounds every player's numbers in place |
| MatchServer.RestrictToMatchedPlayers | runtime/match_lifecycle.go:302-320 | keeps the matched and unnamed players in order, and drops only named outsiders |
| MatchServer.AdmitPlayers | runtime/match_lifecycle.go:460-511 | validates the winner, drops outsiders and clears a dropped winner exactly as specified |
| MatchServer.MatchStore.RegisterServerRpc | runtime/match_lifecycle.go:114-187 | a first registration is written, the same again is a no-op, a different one is refused (6) and an unreadable one replaced: the specified step |
| MatchServer.MatchStore.RecordResults | runtime/match_lifecycle.go:541-620 | the write loop under any failing writes adds exactly the specified records and reports a failure exactly when one happened |
| MatchServer.MatchStore.MatchEndRpc | runtime/match_lifecycle.go:403-683 | refusals 7, 3, 5, 13, 5, 3 change nothing, a partial write failure (14) keeps the match open, success cleans up, synthetic matches record nothing: the specified step |
| MatchServer.MatchStore.MatchCancelRpc | runtime/match_lifecycle.go:720-825 | without a registration a no-op that sweeps the leftovers, a client refused (7) on a real match, else all the match's rows go: the specified step |
| MatchServer.MatchStore.SweepStaleMatchRows | runtime/match_sweep.go:29-91 | the paged loop removes exactly the specified rows, up to the first page storage fails on |
| FleetAllocation.EachEntryHearsOnce | runtime/fleet_allocator.go:1108-1319 | for every outcome and cancel moment each entry gets exactly one terminal notice, in order: all ready on one deploy, or all failed for one reason, an early abort's own |
| FleetAllocation.AtMostThreeDeploys | runtime/fleet_allocator.go:1117-1167 | at most three deploys are created |
| FleetAllocation.NoDeployIsForgotten | runtime/fleet_allocator.go:1369-1481 | every created deploy is the one the ready notices name or has a stop tried on it afterwards |
| FleetAllocation.ReadyDeployIsUsableAndLeftRunning | runtime/fleet_allocator.go:1369-1458 | the deploy players are sent to had an address and a TCP port and its server registered, and no stop was tried on it |
| FleetAllocation.CancelIsHeardExactlyWhen | runtime/fleet_allocator.go:1176-1199 | the players are told of a cancel if and only if it comes by the last look of the allocation left alone; one that comes later changes nothing at all |
| FleetAllocation.OrphanIsLeftExactlyWhen | runtime/fleet_allocator.go:1117-1481 | some created deploy is neither the one the ready notices name nor stopped later under a live context if and only if, the earlier attempts having failed, an attempt deploys and the cancel comes after it began and before its last step if left alone: the read that finds its server registered, or its stop |
| FleetAllocation.AttemptCaughtOrNot | runtime/fleet_allocator.go:1369-1481 | an attempt the cancel does not fall in takes its full length, deploy, polls and registration reads counted, and stops a failed deploy live; one it falls in is cut short and stops its deploy with a dead context; one begun after it deploys nothing |
| FleetAllocation.CancelWhilePollingStopsInVain | runtime/fleet_allocator.go:1404-1409 | a cancel during the first poll: the deploy is stopped with a dead context and is left an orphan |
| FleetAllocation.CancelWhileRegisteringStopsInVain | runtime/fleet_allocator.go:1448-1458 | a cancel while a deploy that is up waits for a server about to register: the same |
| FleetAllocation.FleetAllocator.RetryAllocation | runtime/fleet_allocator.go:1117-1167 | the retry loop with its backoff checks makes exactly the specified attempts |
| FleetAllocation.FleetAllocator.TryAllocateOnce | runtime/fleet_allocator.go:1369-1458 | one attempt, poll loop and registration wait included, does exactly what is specified |
| FleetAllocation.FleetAllocator.WaitForServerRegistered | runtime/fleet_allocator.go:114-151 | the read loop ends with the row, at the deadline, or in a cancelled wait, in that order: the specified outcome and time |
| FleetAllocation.FleetAllocator.RunAllocation | runtime/fleet_allocator.go:1108-1319 | early aborts, retries, the last look for a cancel and the notices happen in exactly the specified order |
| Inflight.CancelReachesExactlyTheNewest | runtime/fleet_allocator.go:469-494 | over any run a cancel signals an allocation if and only if the newest one its user was ever matched into still runs, and it signals that one and no other (whether it is heard there is `FleetAllocation.CancelIsHeardExactlyWhen`) |
| Inflight.CancelIsLostExactlyWhen | runtime/fleet_allocator.go:469-494 | a cancel finds nothing for a user still being matched if and only if the newest of their allocations is over and an older one is not |
| Inflight.NewerFinishesFirst | runtime/fleet_allocator.go:457-467 | matched twice, the newer over first: the user's cancel is lost on the older |
| Inflight.LateFinishKeepsTheNewer | runtime/fleet_allocator.go:457-467 | an older match that finishes late leaves the newer entry of the same user |
| Inflight.InflightTable.RegisterInflight | runtime/fleet_allocator.go:439-449 | maps each named user to this allocation and no one else |
| Inflight.InflightTable.DeregisterInflight | runtime/fleet_allocator.go:457-467 | removes exactly the entries that still point at this allocation |
| Inflight.InflightTable.CancelInflightForUser | runtime/fleet_allocator.go:483-494 | cancels the found allocation and says whether there was one |
| Backoff.BackoffIsCappedDoubling | runtime/fleet_allocator.go:565-574 | for every retry the delay is the doubled base capped at eight seconds, however far the 64-bit shift overflows |
| PortPool.RunsKeepInv | runtime/local_allocator.go:408-431 | under every interleaving of allocations and stops the ports in use are exactly the held ones, none held twice, all in range |
| PortPool.RunTakesEachStep | runtime/local_allocator.go:408-431 | a run applies each enabled step to what the steps before it left |
| PortPool.AllocateFailsExactlyWhen | runtime/local_allocator.go:408-440 | allocation fails if and only if as many pairs are out as the smaller range has ports |
| PortPool.StepMovesOnePair | runtime/local_allocator.go:330-440 | what each step does to who holds which pair: an allocation takes the lowest free ports while fewer pairs are out than either range has ports, a failed one and a finished stop give theirs back, the rest pass a pair on |
| PortPool.StopIsIdempotent | runtime/local_allocator.go:330-379 | a second stop changes nothing, and the first frees exactly the match's pair |
| PortPool.FirstFreeIsFree | runtime/local_allocator.go:433-440 | the lowest port not in use, and zero only when all are |
| PortPool.LocalDockerAllocator.AllocatePair | runtime/local_allocator.go:408-424 | takes the next free pair or changes nothing |
| PortPool.LocalDockerAllocator.Release | runtime/local_allocator.go:426-431 | gives back exactly the holder's pair |
| PortPool.LocalDockerAllocator.TrackPorts | runtime/local_allocator.go:355-362 | the pair passes from the allocation to the match |
| PortPool.LocalDockerAllocator.ReleasePortsFor | runtime/local_allocator.go:367-379 | unhook and release together are one stop; reports whether a pair was tracked |
| PortPool.LocalDockerAllocator.StopMatch | runtime/local_allocator.go:330-351 | ports go back unless Docker fails with anything but a missing container |

## Left out

- Nakama itself: its group, leaderboard and storage writes are taken as described above; groups that are not parties, except as entries of the listing an account deletion walks, and the name prefix that tells them apart.
- Storage failures inside party operations other than code writes, and interleavings of two party operations: each guard, write and hook is one step.
- The per-caller rate limit in front of party_start_matchmaking, invites and join-by-code; it is the limiter of `FriendsLimiter`.
- The content of notifications; only which terminal notice each entry of a match gets is modelled.
- The order of the parties soloParties returns.
- Party mode, level and cheat preferences beyond who may write the row and when it is deleted.
- JSON, HTTP, SQL, WebSocket and Docker plumbing; malformed JSON answers INVALID_ARGUMENT before any modelled step.
- Transport selection, geography rotation, IP collection, platform votes, session tokens and party preferences of an allocation; the local allocation path but for its ports; mock deploys, which record a match without waiting for its server to register.
- The parent context ending during an allocation (server shutdown).
- Spawn names in match results, recent players, metrics, and the cache invalidation after a recorded match.
- Leaderboard records other than the score, and boards that count down (operator decr), which add up the other way.
- The parsing of port ranges from the environment; a parsed range satisfies 1 <= lo <= hi.
- Crash-report validation, redaction and storing; the limiter and the retention are modelled.
- Crash-report times outside years 0 to 9999, where the stamp is no longer 27 characters.
- White space outside ASCII in codes and listed names; invalid UTF-8 in display names.
- Accounts that change between two pages of one leaderboard read.
- HMAC strength and the secrecy of codes and tokens.
- The time a retry sleeps; its delay is one blocking step of an allocation.
- A deploy that Edgegap creates although its call comes back with an error: without a request id nothing can stop it.
- FleetAllocation.NoDeployIsForgotten: says a stop was tried, not that it reached Edgegap; `OrphanIsLeftExactlyWhen` says when none could.
- BoardCache.ServedOnLoad: a full wrap of the 64-bit generation between a read and a get would look fresh, as it would in the code.
- PortPool.RunsKeepInv: request ids are distinct; the code derives them from the clock in nanoseconds.
