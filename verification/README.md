# Proofs for the Quran One backend

A Dafny 4.11 model of the parts of the backend that must not lose or leak a
user's data, and proofs about every run of them. `dafny verify dfyconfig.toml`
checks everything; nothing here is executed.

| file | what it models |
|---|---|
| `HifzMerge.dfy` | `merge_hifz_cards` as a pure fold: payloads are partial maps, a stored loser is logged, a failing creation fails the push |
| `HifzLaws.dfy` | the fold's algebra: splitting, exact failure, accounting, the stored key, replays, independence of cells |
| `HifzHistory.dfy` | the conflict log as a complete version chain, and exactly when the contents can be read back from it |
| `HifzConvergence.dfy` | exactly when the order, repetition and grouping of payloads does not matter |
| `HifzStore.dfy` | the tables that the merge loop updates in place, with rollback, and the push request around it |
| `ConcurrentPush.dfy` | any number of pushes at once, as small steps with row locks, private writes, the unique constraint, commit and abort |
| `HifzPull.dfy` | pulling in pages of 500 behind a `since` cursor, and pulling after merges |
| `HifzEngine.dfy` | the sync engine of a device over any number of rounds |
| `OneTimeTokens.dfy` | the one-time-token table, refined to what its call history says; the retention sweep |
| `TokenRaces.dfy` | concurrent consumers, issues and sweeps |
| `Sessions.dfy` | revoking and pruning refresh tokens |
| `AccountRuns.dfy` | whole runs of tokens, sessions and resets together |
| `AccountReset.dfy` | forgot, reset and change password as methods on both tables |
| `ContentPacks.dfy` | the `save` guard under many in-memory instances, and what is served |
| `PackAudit.dfy` | the nightly re-hash |

The merge exists in three forms that are proved to agree. `HifzMerge.Run` is the
fold (services.py:28-89). `HifzStore.SyncServer.MergeHifzCards` is the mutating
loop, equal to the fold on success and without effect on failure.
`ConcurrentPush` interleaves pushes statement by statement; what it commits is
the fold of the committed pushes in commit order, and every serial history is
one of its runs.

Modelling choices:

- Random ids, random tokens and clock readings are parameters, one reading per
  call. SHA-256 is an injective function where tokens are looked up and any
  function where packs are hashed.
- A payload is a record of optional columns plus one flag, `unknownField`, for a
  key that is no column: creating from it fails, overwriting ignores it. The
  ayah is an identifier, as the tests pass it (backend/tests/test_sync_merge.py:25-40).
- Row order that the database leaves open is left open: ties in a pull, the row
  that `first()` picks, and the order in which tokens are revoked.
- Conflict rows become visible at commit, so the log is in commit order.
- `HifzPull.Session` is a client that asks for the rest of a cut response, as
  `has_more` invites it to. The repository's own device does not: it pulls once
  per run, never reads `has_more`, and takes the response's server time as its next
  cursor (lib/core/sync/sync_engine.dart:41-48). `HifzEngine` models that device;
  what it is given as `pull` is one request, and as `apply` a store of the card.

Where the code and its prose differ, the model follows the code:

- "Every write keeps a revision counter" (backend/apps/sync/models.py:32-37):
  a payload that carries `revision` sets it first. `HifzHistory.RevisionRisesIff`
  says exactly when a write raises it, and `HifzHistory.RevisionCanFall` shows a fall.
- "With the losing version preserved" (backend/apps/sync/services.py:3): only a
  stored version that loses is kept (services.py:50-58), and without its
  `last_reviewed_at` (services.py:80-89); an incoming one that loses is dropped.
  `HifzHistory.HistoryRestoresIff` says exactly when the rows give back all contents.
- The password-change view and `test_password_change_spares_the_current_session`
  promise to spare the calling session; the view revokes all of them
  (auth_views.py:137-140). See `Sessions.ChangePasswordSparesIff` and
  `Sessions.ChangePasswordRevokesTheCaller`.
- "A pack is immutable once published" (content/models.py:4-6): the guard reads
  `published_at` in memory, so an instance that cleared it can write anything.
  `ContentPacks.GuardProtectsIff` says exactly when the guard protects the row;
  a stored draft, on the other hand, can never be published by `save`.
- Pulling by timestamp loses cards when a page boundary splits equal timestamps,
  and never shows a device a win on progress that is stamped before its cursor.
  `HifzPull.PagingCompleteIff` and `HifzPull.DeltaPullCompleteIff` say exactly when
  nothing is lost. The device engine also loses what comes after the first 500 cards,
  and a review made offline and pushed after another device synced, with all clocks
  right; `HifzEngine.HoldsIff` and `HifzEngine.SmallPullsHoldIff` are exact.
- Devices that push the same payloads need not converge, because partial payloads
  are laid over what is stored. `HifzConvergence.ConvergesIff` gives the exact
  condition, on pairs of payloads: what comes before a greatest payload must leave
  no trace, and all starts must end alike. `HifzConvergence.NoTraceColumns` reads
  the first half column by column.

## Model

| member | source | states |
|---|---|---|
| HifzStore.SyncServer.MergeHifzCards | backend/apps/sync/services.py:28-68 | the mutating loop with its counters ends in the tables and the result of the all-or-nothing fold; a failure anywhere restores both tables; `rejected` counts the payloads that are refused on their fields when their turn comes |
| HifzStore.SyncServer.MergeOne | backend/apps/sync/services.py:32-66 | one round of the loop, in every branch, is one step of the fold; it rejects exactly a payload without ayah or timestamp, or not greater than its stored card, and fails exactly when there is no card and no `due_at`, or a key that is no column |
| HifzStore.SyncServer.Push | backend/apps/sync/views.py:45-49 | the request merges, and sets `last_sync_at` of exactly the device row of this user, only if the merge succeeded |
| HifzStore.SetFields | backend/apps/sync/services.py:59-61 | the field-by-field assignments give the overwritten card |
| HifzLaws.StepDecides | backend/apps/sync/services.py:32-66 | on the payload's fields alone: rejected if and only if ayah or timestamp is missing or (repetitions or 0, client_updated_at) is not greater than that of the stored card; failing if and only if there is no card and `due_at` is missing or a key is no column; otherwise applied to that card only |
| HifzLaws.RejectedCounts | backend/apps/sync/services.py:32-68 | over any run `rejected` counts exactly the requests that are refused so |
| HifzLaws.RefusedIffNoRecord | backend/apps/sync/services.py:50-77 | without running anything: a request is refused if and only if the card stored at the start or an earlier request for the card is at least as great; what is applied are the records of the sequence |
| HifzLaws.PayloadsInOrder | backend/apps/sync/services.py:32-66 | the payloads of a push are merged in their listed order for the user who pushes: one more payload at the end is one more step, and its failure undoes the whole push |
| HifzLaws.RunConcat | backend/apps/sync/services.py:28-68 | running a ++ b is running a, then b on what a left, with logs and outcomes added and failures kept |
| HifzLaws.MergeConcat | backend/apps/sync/services.py:28-68 | two pushes that succeed one after the other are one push of the concatenation |
| HifzLaws.FailsIff | backend/apps/sync/services.py:45-48 | a push fails if and only if the first payload for some cell without a card cannot create one |
| HifzLaws.AllOrNothing | backend/apps/sync/services.py:31-66 | that condition decides the result; on failure nothing changes, on success the cards are the old cells plus the addressed ones and the log only grows |
| HifzLaws.Accounting | backend/apps/sync/services.py:29-68 | applied + rejected counts the payloads, conflicts counts the new log rows, applied - conflicts counts the new cards |
| HifzLaws.RevisionsGrowByApplied | backend/apps/sync/services.py:61-63 | without `revision` in payloads the sum of all revisions grows by exactly applied |
| HifzLaws.StoredKeyIsGreatest | backend/apps/sync/services.py:59-77 | after any run a card's (repetitions, client_updated_at) is the lexicographic maximum of the old one and those of all payloads for it, omitted repetitions counting as 0 |
| HifzLaws.ProgressNeverFalls | backend/apps/sync/services.py:71-77 | over any run no card disappears, changes id or loses repetitions |
| HifzLaws.InertIff | backend/apps/sync/services.py:50-66 | a push changes nothing and rejects everything if and only if each payload is malformed or not greater than the stored key |
| HifzLaws.ReplayIsInert | backend/apps/sync/services.py:45-77 | whatever was pushed since, any sequence of payloads drawn from a processed batch changes nothing and is rejected whole |
| HifzLaws.OthersUntouched | backend/apps/sync/services.py:39-43 | a push changes no card and logs no row of another user |
| HifzLaws.RunElsewhere | backend/apps/sync/services.py:39-43 | cells that no payload addresses stay as they were |
| HifzLaws.RunFrame | backend/apps/sync/services.py:39-66 | a push reads and writes only the cells it addresses: tables that agree there give the same result, log and outcome |
| HifzLaws.RunIds | backend/apps/sync/services.py:46-54 | ids stay unique, old cards keep theirs, and every conflict row names a card that is still stored |
| HifzLaws.RunProjects | backend/apps/sync/services.py:32-66 | what a batch does to one card and its conflict rows is what the payloads for that card do alone |
| HifzLaws.InterleavingsAgree | backend/apps/sync/services.py:32-66 | payloads for different ayahs commute: batches with equal per-cell subsequences fail alike and leave equal cards, revisions and per-card logs |
| HifzHistory.VersionChain | backend/apps/sync/services.py:50-62 | a card's conflict rows followed by the card are all versions the cell ever held, strictly increasing in the order and linked by their winning and losing timestamps |
| HifzHistory.HistoryRestoresIff | backend/apps/sync/services.py:50-89 | over any run, with the current card's `last_reviewed_at` put in, the conflict rows give back the contents of all losing versions if and only if no winning payload changed that column |
| HifzHistory.HistoryRestores | backend/apps/sync/services.py:80-89 | so the whole history can be read back when no payload for the card carries `last_reviewed_at` |
| HifzHistory.ReviewIsForgotten | backend/apps/sync/services.py:80-89 | otherwise it can be lost for good: two cards with different contents that one payload turns into the same card, conflict row and counters |
| HifzHistory.RevisionCountsVersions | backend/apps/sync/services.py:61-62 | without `revision` in payloads a card's revision counts the versions stored for it |
| HifzHistory.RevisionRisesIff | backend/apps/sync/services.py:59-61 | a winning payload raises the revision if and only if it carries none or one at least as large |
| HifzHistory.RevisionCanFall | backend/apps/sync/services.py:59-62 | a concrete winning payload after which the stored revision is smaller |
| HifzConvergence.StoredIsCandidate | backend/apps/sync/services.py:45-62 | with full payloads the stored content is the initial one or that of a payload for the card, never a mixture |
| HifzConvergence.StoredIsGreatest | backend/apps/sync/services.py:71-77 | and no competing content is greater in the order |
| HifzConvergence.ConvergesIff | backend/apps/sync/services.py:32-77 | for all payloads, partial ones included: all orders that succeed leave the same cards, up to id and revision, if and only if the payloads are tidy, a condition on pairs of payloads and the stored cards, or stuck, so that none succeeds; and then all deliveries with repetitions do too |
| HifzConvergence.SomeOrderSucceedsIff | backend/apps/sync/services.py:45-48 | some order of the payloads succeeds if and only if each card that is to be created has a payload that can create it |
| HifzConvergence.NoOrderFailsIff | backend/apps/sync/services.py:45-48 | no order of the payloads fails, nor any with repetitions, if and only if every payload for a cell without a card can create one |
| HifzConvergence.CoveredIsTidy | backend/apps/sync/services.py:59-60 | payloads are tidy when a greatest one carries every column that any payload for its card carries and ties say the same |
| HifzConvergence.Converges | backend/apps/sync/services.py:32-77 | full payloads that tie only when equal never fail and give the same cards, up to id and revision, in any order and with any repetition |
| HifzConvergence.FailedPushesLeaveNothing | backend/apps/sync/services.py:31-66 | any sequence of pushes ends in the tables of one push of the payloads of those that succeed |
| HifzConvergence.AllKeptIff | backend/apps/sync/services.py:31-66 | all pushes succeed if and only if their payloads as one push would |
| HifzConvergence.RegroupingIsInvisibleIff | backend/apps/sync/services.py:31-66 | cutting a stream of payloads into pushes gives the same tables as pushing it whole if and only if the whole does not fail or the pushes that succeed change nothing |
| HifzConvergence.PushesConvergeIff | backend/apps/sync/services.py:28-77 | pushes of the same payloads in any order, with any repetition and cut in any way, failing ones left aside, end in the same cards if and only if the payloads are tidy |
| HifzConvergence.PartialPayloadsDiverge | backend/apps/sync/services.py:59-60 | two concrete partial payloads that are not tidy end differently in the two orders |
| ConcurrentPush.OthersCommit | backend/apps/sync/services.py:39-43 | a commit does not disturb a transaction whose locked rows it does not write |
| ConcurrentPush.LocksStayApart | backend/apps/sync/models.py:53-59 | no row is held by two transactions, although the read that finds no row locks nothing: the unique constraint keeps a second insertion out |
| ConcurrentPush.DoKeeps | backend/apps/sync/services.py:31-66 | every step of every transaction keeps: private work is the fold of the finished payloads on what is committed now |
| ConcurrentPush.CommittedIsSerial | backend/apps/sync/services.py:31-68 | in every reachable state the committed cards and log are those of merging the committed pushes whole, one after another in commit order, with the counters they returned |
| ConcurrentPush.SerialIsReachable | backend/apps/sync/services.py:31-68 | every serial history of successful pushes is a run of the step system |
| ConcurrentPush.InterleavedIffSerial | backend/apps/sync/services.py:31-68 | tables and history are reachable by interleaving if and only if the history gives the tables serially |
| ConcurrentPush.SerialIsRun | backend/apps/sync/services.py:28-68 | a serial history of pushes is one run of all their payloads |
| ConcurrentPush.ConcurrentProgressNeverFalls | backend/apps/sync/services.py:71-77 | stored repetitions never fall under any interleaving |
| ConcurrentPush.ConcurrentVersionChain | backend/apps/sync/services.py:50-62 | the version chain holds of the committed tables under any interleaving, ids being fresh |
| ConcurrentPush.ConcurrentPushesConverge | backend/apps/sync/services.py:28-77 | two interleavings whose committed pushes carry the same tidy payloads end in the same cards up to id and revision |
| ConcurrentPush.AbortLeavesNoTrace | backend/apps/sync/services.py:31 | a push that aborts, wherever it was and whatever others did meanwhile, leaves the state of a run in which it never took part |
| HifzPull.ListingExists | backend/apps/sync/views.py:81 | every set of rows has a listing by timestamp, so every request has a response |
| HifzPull.ListingsAgreeOnStamps | backend/apps/sync/views.py:81 | listings that break ties differently still show the same timestamps |
| HifzPull.SessionExists | backend/apps/sync/views.py:76-93 | requests that continue from the last card come to an end on every table |
| HifzPull.ResponseSize | backend/apps/sync/views.py:22-93 | a response carries all cards after the cursor and says there are no more if they are at most 500, and else exactly 500 and says there are more |
| HifzPull.SmallTableInOne | backend/apps/sync/views.py:76-93 | at most 500 cards come sorted and complete in one request |
| HifzPull.SessionIsOrdered | backend/apps/sync/views.py:76-93 | no session repeats a card, goes back in time or delivers what the cursor excludes |
| HifzPull.PagingCompleteIff | backend/apps/sync/views.py:76-93 | a session delivers all cards after the cursor, sorted, each once, if and only if no multiple of 500 splits equal timestamps; then it takes max(1, ceil(n/500)) requests |
| HifzPull.PagingComplete | backend/apps/sync/views.py:76-93 | with distinct timestamps every session delivers exactly the sorted list in that many requests |
| HifzPull.CrowdIsLost | backend/apps/sync/views.py:76-93 | concretely: with more than 500 cards of one timestamp every session loses a card |
| HifzPull.DeltaPullCompleteIff | backend/apps/sync/views.py:76-81 | after any pushes a full device that pulls from cursor c holds everything again if and only if each of the user's payloads that beats the cards before has one for the same card that is no smaller and stamped after c |
| HifzPull.PagedDeltaPullCompleteIff | backend/apps/sync/views.py:76-93 | the same condition for a whole session of pages when no boundary splits a tie |
| HifzPull.ChangedIsGreater | backend/apps/sync/services.py:71-77 | a card that any run changed has a greater (repetitions, client_updated_at) than before |
| HifzPull.ChangeIsStamped | backend/apps/sync/services.py:46-62 | a changed card carries the timestamp of a payload that was pushed for it and beats the card before |
| HifzPull.LaterStampsAreSeen | backend/apps/sync/views.py:76-81 | nothing is missed when those of the user's payloads that beat the cards before are stamped after the cursor |
| HifzPull.SlowClockWinIsMissed | backend/apps/sync/services.py:71-77 | a concrete win on repetitions with an older clock that an up-to-date device never pulls |
| HifzEngine.HoldsIff | lib/core/sync/sync_engine.dart:37-48 | after any number of engine rounds, with any pushes between, the device holds a card if and only if some round delivered it and none changed it since, or it held it at the start and none changed it |
| HifzEngine.SmallPullsHoldIff | lib/core/sync/sync_engine.dart:37-48 | while no pull has more than 500 cards, that is if and only if the round that last changed the card saw it stamped after the cursor the device sent |
| HifzEngine.LostStaysLost | lib/core/sync/sync_engine.dart:41-48 | a card the device lacks, stamped no later than the server time it keeps as cursor, is lacking after all later rounds unless it is changed again |
| HifzEngine.OverflowIsLost | lib/core/sync/sync_engine.dart:41-48 | what a device lacks and a response cuts off after 500 cards is lacking after all later rounds unless it is changed again |
| HifzEngine.NewDeviceLacksOne | lib/core/sync/sync_engine.dart:41-48 | concretely: a new device of a user with 501 differently stamped cards does not get the last one |
| HifzEngine.OfflineReviewIsLost | lib/core/sync/sync_engine.dart:41-48 | concretely, with all clocks right: a review made offline and pushed after another device synced never reaches that device |
| OneTimeTokens.TokenStore.Issue | backend/apps/accounts/tokens.py:66-84 | outstanding tokens of the user and purpose are used up now and one live row is added that expires in 30 minutes (reset) or a day (verification); all other rows stay |
| OneTimeTokens.TokenStore.Consume | backend/apps/accounts/tokens.py:86-103 | one unused unexpired row of the hash and purpose is used now and its user returned, or there is none and nothing changes |
| OneTimeTokens.TokenStore.Sweep | backend/apps/core/security.py:111-113 | exactly the rows that expired more than seven days ago are deleted and counted, the others unchanged |
| OneTimeTokens.RunMirrors | backend/apps/accounts/tokens.py:62-103 | in every run the unconsumed rows are what the history says each user holds, up to swept expired ones |
| OneTimeTokens.ConsumeIffEntitled | backend/apps/accounts/tokens.py:62-103 | in every run a consume returns a user if and only if the latest issue or successful consume for that user and purpose is the issue of this raw token, unexpired |
| OneTimeTokens.TokenAcceptedIff | backend/apps/accounts/tokens.py:43-103 | in every run a token is accepted by a later call if and only if it is presented within 30 minutes of its issue (reset) or a day (verification) and its user was not issued another or used one for the purpose since |
| OneTimeTokens.OneOutstanding | backend/apps/accounts/tokens.py:70-75 | a user never has two outstanding rows for a purpose, issues being serial |
| OneTimeTokens.SweepsAreInvisible | backend/apps/core/security.py:111-113 | runs of the same calls return the same results with sweeps inserted anywhere |
| OneTimeTokens.SweepForgets | backend/apps/core/security.py:111-113 | right after a sweep no stored token expired more than seven days ago, and none was issued more than eight days ago |
| OneTimeTokens.SpentStaysSpent | backend/apps/accounts/tokens.py:62-103 | a token that its user no longer holds is never held again, by anyone, in any continuation |
| TokenRaces.SingleUse | backend/apps/accounts/tokens.py:86-103 | in every interleaving a raw token is returned to at most one committed caller, for the user and purpose it was issued for, and leaves no usable row |
| TokenRaces.WinsAreCommits | backend/apps/accounts/tokens.py:86-103 | in every interleaving exactly one win is returned per commit, in order, with the token and purpose its caller asked for and the user of the row it locked |
| TokenRaces.CommitsAreEntitled | backend/apps/accounts/tokens.py:89-102 | whoever commits had locked, within its lifetime, a row created with the hash of its token for its purpose |
| TokenRaces.MissesAreTrue | backend/apps/accounts/tokens.py:89-103 | a caller returns nothing only when no unused unexpired row of its token and purpose exists |
| TokenRaces.CallerCanWin | backend/apps/accounts/tokens.py:86-103 | from every reachable state a new caller whose token has a free, unused, unexpired row can win it, which uses that row and adds that win alone |
| TokenRaces.EveryCallerCanFinish | backend/apps/accounts/tokens.py:86-103 | there is no deadlock: from every reachable state every caller can come to its end without anybody aborting |
| TokenRaces.RowsAreTold | backend/apps/accounts/tokens.py:70-103 | in every interleaving each row, its use and its deletion are what the events tell: created, used by an invalidation for its user and purpose or by the commit of who locked it, swept seven days after expiry |
| TokenRaces.UsedIsWonOrInvalidated | backend/apps/accounts/tokens.py:73-102 | every used row was returned to a caller, or invalidated for its user and purpose at the time it bears |
| TokenRaces.NoWinNoTrace | backend/apps/accounts/tokens.py:86-103 | a caller that aborts or finds nothing leaves the state of a run in which it never called |
| TokenRaces.UsedStaysUsed | backend/apps/accounts/tokens.py:100-102 | no step of any run makes `consumed_at` null again |
| Sessions.SessionStore.RevokeAllSessions | backend/apps/accounts/session_security.py:35-53 | the loop blacklists exactly the user's unexpired tokens whose jti is not the non-empty `keep_jti`, and returns the drop in usable sessions |
| Sessions.SessionStore.RevokeEvery | backend/apps/accounts/auth_views.py:29-31 | the loop blacklists every token of the user |
| Sessions.SessionStore.PruneExpiredTokens | backend/apps/accounts/session_security.py:56-67 | exactly the rows expired before now go, with their blacklist rows, the others stay as they are, and the count says how many |
| Sessions.RevokedCount | backend/apps/accounts/session_security.py:44-53 | newly blacklisted tokens are exactly the sessions that stop being usable |
| Sessions.RevokeExact | backend/apps/accounts/session_security.py:35-53 | a session is usable afterwards, now and later, if and only if it was and belongs to somebody else or its jti is the non-empty `keep_jti`; a second call changes nothing |
| Sessions.UsableIffBegunAndNotEnded | backend/apps/accounts/session_security.py:35-67 | in every run a session is usable if and only if it was begun, its token has not expired, and no later event revoked all sessions of its user without sparing its jti |
| Sessions.PruningIsInvisible | backend/apps/accounts/session_security.py:56-67 | pruning at any points of a run never changes which sessions are usable |
| Sessions.DeadStaysDead | backend/apps/accounts/session_security.py:35-67 | a session that is not usable never becomes usable again in any run |
| Sessions.ChangePasswordSparesIff | backend/apps/accounts/auth_views.py:137-140 | the view leaves no session, so it spares the current one if and only if that was not usable |
| Sessions.ChangePasswordRevokesTheCaller | backend/apps/accounts/auth_views.py:137-140 | a concrete usable session of the caller that the view revokes |
| Sessions.RevokedEveryIsFinal | backend/apps/accounts/auth_views.py:29-31 | once all sessions of a user are revoked, none begun until then is usable after any further events |
| AccountReset.Accounts.ForgotPassword | backend/apps/accounts/auth_views.py:44-50 | a reset token is issued for a known user, as one event of an account run, and nothing changes otherwise |
| AccountReset.Accounts.ResetPassword | backend/apps/accounts/auth_views.py:75-105 | token, password and sessions change together for the token's user, as one event of an account run, or nothing changes |
| AccountReset.Accounts.ChangePassword | backend/apps/accounts/auth_views.py:119-142 | the right current password changes the password and signs out every session, a wrong one changes nothing |
| AccountRuns.ResetLeavesNothingLive | backend/apps/accounts/auth_views.py:80-103 | in every run, after a successful reset no session the user began before is usable in any later state, no reset token issued to the user before is accepted at any later step, none is outstanding, and other users keep their sessions |
| AccountRuns.ResetIffEntitled | backend/apps/accounts/auth_views.py:80-94 | among logins, revocations, prunings and sweeps, a reset succeeds for exactly the user whose latest reset token it is, unexpired and not consumed |
| ContentPacks.ContentPackVersion.SaveTo | backend/apps/content/models.py:80-92 | the guard, then insert or update of the named columns under the uniqueness of (pack, version); an error changes nothing; a whole save stores every column in its own row only, and saving `revoked_at` alone succeeds on a published row and writes that column alone |
| ContentPacks.SaveFailsIff | backend/apps/content/models.py:80-92 | exactly when and how a save fails: immutable for a stored instance published in memory unless `revoked_at` alone is saved, no primary key for a partial save of a new one, duplicate when another row has the (pack, version) it would write |
| ContentPacks.WholeSaveSucceedsIff | backend/apps/content/models.py:64-92 | a version, published or not, is created if and only if no row has its pack and version, and a draft is saved whole if and only if no other row has them; its columns are then stored |
| ContentPacks.SaveWrites | backend/apps/content/models.py:92 | a save of some fields writes those columns of its row and no other column or row |
| ContentPacks.RunKeeps | backend/apps/content/models.py:80-92 | over any run of create, load, edit and save in any number of instances that never clear `published_at`, a published row keeps every column but `revoked_at` |
| ContentPacks.DownloadsAgree | backend/apps/content/views.py:41-67 | two downloads of one version, at any two moments of a run, name the same object, size and checksum |
| ContentPacks.DraftsStayDrafts | backend/apps/content/models.py:81-91 | no run of saves publishes a stored draft |
| ContentPacks.CanPublish | backend/apps/content/models.py:80-92 | from every reachable state a new highest version can be created published, and is then exactly what is served |
| ContentPacks.LoadThenSave | backend/apps/content/models.py:80-92 | what is loaded is what is stored: loading and saving, whole or in any fields, leaves the table as it was |
| ContentPacks.CanRevoke | backend/apps/content/models.py:85-92 | from every reachable state a published version can be revoked, which changes that column alone and takes it off every download |
| ContentPacks.GuardProtectsIff | backend/apps/content/models.py:81-91 | a published row is safe from every in-memory content if and only if the instance is published in memory or writes nothing but `revoked_at` |
| ContentPacks.ServedIffAny | backend/apps/content/views.py:41-52 | a download finds a version if and only if some version of the pack has `published_at` by now and no `revoked_at` |
| ContentPacks.ServedVersionRises | backend/apps/content/views.py:41-50 | over any run a pack is never served at a lower version than before unless what was served has been revoked |
| ContentPacks.AnnouncedIsServedIff | backend/apps/content/serializers.py:34-44 | the version the catalogue announces is the one served if and only if its publication time has come |
| ContentPacks.AnnouncedIsNotLower | backend/apps/content/serializers.py:34-44 | the announced version is at least the served one |
| PackAudit.DigestOf | backend/apps/content/tasks.py:29-33 | reading chunk by chunk hashes exactly the whole file |
| PackAudit.VerifyPublishedPacks | backend/apps/content/tasks.py:20-49 | `checked` counts the versions published and not revoked, `failed` those that are missing or do not match, and `failed` is 0 if and only if every download, at any time and after any further revocations, is of stored bytes that hash to its checksum |
| PackAudit.CleanIffVouched | backend/apps/content/tasks.py:23-49 | no failure if and only if for every pack, time and further revocations the served row's object is in storage and its bytes hash to the row's checksum |
| PackAudit.CorruptionIsCounted | backend/apps/content/tasks.py:31-47 | changing the bytes of an object to others of another hash adds one failure for each live version that matched and takes one away for each that matches now |

## Left out

- HTTP, serialisers, routing, throttles, e-mail, Celery delivery, storage URLs and logging: plumbing around the modelled calls.
- Payload values of the wrong type, explicit nulls, and keys `id` or `user`: payloads are typed.
- Whether the framework accepts a bare ayah identifier in `create` and `setattr`: taken as the tests do.
- `captured_at`, `created_at`, `updated_at`, `requested_ip` and the id of a conflict row: clock and bookkeeping columns that nothing reads back.
- Bookmarks and reading positions in a pull: bookmarks are cut at 500 without a continuation, positions are unpaged.
- Deadlock and waiting of pushes: a blocked statement is a step that is not enabled, and any transaction may abort; progress is not claimed for them.
- The outbox behind `drain`, and what storing a pulled card does to an edit that was not pushed yet: callbacks of the engine.
- AccountRuns.ResetLeavesNothingLive: for serial runs, one call after another; `TokenRaces` interleaves the consumers.
- HifzPull.PagingComplete: for a table that does not change between requests.
- OneTimeTokens.OneOutstanding: for serial issues only, because the two statements of an issue are not one transaction; `TokenRaces` lets them interleave.
- TokenRaces.SingleUse: the password and session writes of the same request are in `AccountReset`, which is serial.
- Issuing and refreshing of JWTs, and the cascade to blacklist rows beyond what the library documents: simplejwt is not part of this model.
- The premium gate and `is_active` filter of a download: one branch each.
- Content rows deleted, changed by queryset updates or given another primary key in memory: outside the `save` guard.
- User deletion in the retention sweep, `LoginAttemptGuard`, log scrubbing and `ImmutableModel`: easy members.
- Designs that exist only in the documents (attempt logs, grow-only counters, revision cursors): no code for them.
