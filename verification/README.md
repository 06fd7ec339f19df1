# Verified model of the Agentest services

Agentest manages test suites, test cases, their executions, and the people and agents who work on
them. This project models the services whose behaviour is a state machine over a few tables, and
proves what they keep over whole runs. `dafny verify dfyconfig.toml` checks everything.

A table is a map, a service is a class over its tables, and a service call is one atomic step with
an explicit time. Ids and random tokens are new values handed to the call. A method states its
whole new state, both as a function of the old one and in the columns of the rows it writes, with the
source's constants spelled out; lemmas then prove what these functions keep over every run.

- **Ordered child lists** (`OrderKeys`, `ChildLists`, `ChildTables`, `ChildSync`, `SyncReplay`,
  `TestCaseChildren`). Preconditions, steps and expected results are three tables with the same
  operations; they carry zero-padded string keys, and every change writes a history row. Undoing
  the history recovers every earlier list, and redoing it the current one (`UndoLog`). The diff sync
  reads back as the request exactly when the request names no id twice: a repeated id passes the
  service's checks and is overwritten by its last occurrence.
- **Grouped history** (`RankedPages`, `GroupedHistories`, `HistoryPages`). SQL pages over groups
  and a loop rebuilds them. Equal latest times may be ordered differently by each query, so pages
  are sure to show each group once if and only if no tie lies across a page boundary.
- **Time windows** (`RateLimiter`, `LoginLockout`). The Redis sorted set with its time to live
  stands for the window of the whole request log; the lockout bounds failed comparisons.
- **CSV export** (`AuditCsv`), with a strict reader after section 2 of RFC 4180 as its partner.
- **Credentials and leases**: `OAuthTokens` and `OAuthRuns` (sections 4.1.2 and 6 of RFC 6749),
  `EditLocks`, `AuthTables`, `RotationSteps`, `RefreshRotation` and `ResetOutcome`. In the last
  three, refreshes and password resets run statement by statement among logins, logouts and
  cleanup, with uncommitted writes, row locks and updates that see only what was committed when
  they started (the read-committed level). Each commit is shown to equal a refresh that runs alone,
  and the tokens a reset leaves unrevoked are determined.
- **Merged sessions** (`SessionMerge`, `SessionPages`). Agent sessions and OAuth tokens are queried
  apart, merged by a stable sort and cut into pages; the order this gives is stated exactly.
- **Executions** (`ExecutionTables`, `ExecutionSnapshot`, `ExecutionMirror`, `ExecutionSteps`,
  `ExecutionRuns`). A start copies the live suite; whatever is started, edited or judged afterwards,
  every snapshot stays as it was, column by column, items and results correspond one to one, and
  judgment counts sum to the expected results.
- **Indexes and aggregates**: `ChannelIndex`, `Environments`, `Organizations`.

`Wrappers` holds the shared result types and `Orders` what `ORDER BY` promises.

Some promises are kept only under a condition, and the condition is proved exact or the failure is
shown on a concrete input or run: string order of keys (`OrderKeysSortIff`, `SixDigitKeySortsFirst`),
reading a sync back (`SyncReadsBackIff`) and replaying its history (`SyncRedoIff`, `TakingBackIsNotReplayed`: it is
not recorded when an item takes back what an earlier one with its id asked for), pages under ties
(`PagesShowEachGroupOnceIff`, `PagesShowEachOnceIff`), completeness of the session list
(`CompleteIff`, `ListedIff`), distinct sort orders after a reorder, whose only check is membership,
so that it accepts a partial list (`ReorderKeepsDistinctIff`, `PartialReorderClashes`), and a
password reset that ends every token of its user (`ResetEndsAllIff`, `RefreshOutlivesReset`).

## Model

| member | source | states |
|---|---|---|
| `OrderKeys.IndexToOrderKeyParses` | apps/api/src/services/test-case-children-base.service.ts:30-32 | `parseInt` reads the printed key of index `i` back as `i + 1`, for every index |
| `OrderKeys.NextOrderKeyIsNextIndex` | apps/api/src/services/test-case-children-base.service.ts:18-23 | the key after that of index `i` is the key of index `i + 1` |
| `OrderKeys.InitialKeyIsFirstIndex` | apps/api/src/services/test-case-children-base.service.ts:10-23 | the key given to the first child is the key of index 0 |
| `OrderKeys.OrderKeysIncrease` | apps/api/src/services/test-case-children-base.service.ts:30-32 | keys of increasing indices below 99999 increase in string order |
| `OrderKeys.SixDigitKeySortsFirst` | apps/api/src/services/test-case-children-base.service.ts:30-32 | the key of index 99999 sorts before the key of index 99998 |
| `OrderKeys.OrderKeysSortIff` | apps/api/src/services/test-case-children-base.service.ts:30-32 | the keys of the first `n` indices are in string order if and only if `n` is at most 99999 |
| `ChildLists.ApplyKeepsIdsDistinct` | apps/api/src/services/test-case-steps.service.ts:31-294 | no accepted operation gives two children of a list the same id |
| `ChildLists.UndoStep` | apps/api/src/services/test-case-steps.service.ts:31-294 | the recorded detail undoes each operation, and a no-op update or reorder records nothing |
| `ChildTables.CanonicalReadsBack` | apps/api/src/services/test-case-steps.service.ts:18-25 | rows keyed 00001..n read back by `orderBy orderKey` are the list they store |
| `ChildTables.CanonicalUnique` | apps/api/src/services/test-case-steps.service.ts:18-25 | rows store one list only |
| `ChildTables.CanonicalLastKey` | apps/api/src/services/test-case-steps.service.ts:41-48 | the largest stored key is the key of the last position |
| `ChildTables.UndoLog` | apps/api/src/services/test-case-steps.service.ts:31-294 | over every run of add, update, delete and reorder the keys stay 00001..n; undoing the recorded details newest first gives the list of every earlier state, and redoing them gives the current one |
| `TestCaseChildren.CheckReorder` | apps/api/src/services/test-case-steps.service.ts:222-243 | the duplicate, length and membership checks accept exactly the permutations of the current ids, each failure with its own error |
| `TestCaseChildren.PermutesIsEnumerates` | apps/api/src/services/test-case-steps.service.ts:222-243 | an accepted id list names every row of the test case exactly once (pigeonhole) |
| `TestCaseChildren.WriteOrderKeys` | apps/api/src/services/test-case-steps.service.ts:182-195 | the i-th id gets the i-th key and nothing else changes |
| `TestCaseChildren.TestCaseService.GetChildren` | apps/api/src/services/test-case-steps.service.ts:18-25 | the rows of the test case in key order, or NotFound |
| `TestCaseChildren.TestCaseService.AddChild` | apps/api/src/services/test-case-steps.service.ts:31-83 | one row and one history entry that shows it as stored; without an explicit key the list is extended at its end |
| `TestCaseChildren.TestCaseService.UpdateChild` | apps/api/src/services/test-case-steps.service.ts:89-144 | only the content changes, and an entry is written only when it does |
| `TestCaseChildren.TestCaseService.DeleteChild` | apps/api/src/services/test-case-steps.service.ts:150-207 | the row goes, the rest is renumbered in order, and the deletion is recorded |
| `TestCaseChildren.ReorderRows` | apps/api/src/services/test-case-steps.service.ts:213-294 | accepts exactly the enumerations of the current rows, and otherwise changes nothing |
| `TestCaseChildren.TestCaseService.ReorderChildren` | apps/api/src/services/test-case-steps.service.ts:213-294 | the stored state after a reorder, its errors, and the listing it returns, which is the requested order up to 99999 children |
| `ChildSync.SyncReadsBackIff` | apps/api/src/services/test-case-children.service.ts:148-366 | after a sync the rows are canonically the requested list if and only if no id is named twice |
| `ChildSync.SyncDuplicateNotReadBack` | apps/api/src/services/test-case-children.service.ts:225-365 | a request that names an id twice is not read back |
| `ChildSync.SyncKeepsOthers` | apps/api/src/services/test-case-children.service.ts:148-366 | rows of other test cases are untouched |
| `ChildSync.SyncUndo` | apps/api/src/services/test-case-children.service.ts:172-365 | undoing the entries of a sync recovers the old id-to-content map |
| `ChildSync.SyncEntryCount` | apps/api/src/services/test-case-children.service.ts:172-365 | the entries number the rows deleted, changed and created |
| `SyncReplay.SyncRedoIff` | apps/api/src/services/test-case-children.service.ts:172-365 | replaying the entries of a sync, oldest first, on the old contents gives the new contents if and only if no item takes back what an earlier item with its id asked for |
| `SyncReplay.TakingBackIsNotReplayed` | apps/api/src/services/test-case-children.service.ts:225-365 | a request that asks for a new content and then for the stored one again is such a case |
| `SyncReplay.EntriesTell` | apps/api/src/services/test-case-children.service.ts:172-365 | each entry is true of the tables before and after: an added row as stored, a deleted one as it was, a changed one with its old content and, when ids are distinct, its new one |
| `TestCaseChildren.DeleteMissing` | apps/api/src/services/test-case-children.service.ts:172-222 | the delete loop removes the rows the request leaves out, one entry each with the content and key of the row |
| `TestCaseChildren.UpsertItem` | apps/api/src/services/test-case-children.service.ts:225-365 | one item: update, with the contents before and after in its entry, create, or fail on an unknown id |
| `TestCaseChildren.UpsertItems` | apps/api/src/services/test-case-children.service.ts:225-365 | the update-or-create loop writes the synced table and entries that are true of the tables before and after, or stops at the first unknown id |
| `TestCaseChildren.SyncChildEntitiesWithHistory` | apps/api/src/services/test-case-children.service.ts:148-366 | table and history after a whole sync, every entry true of the tables before and after; it fails exactly on an unknown id |
| `TestCaseChildren.TestCaseService.UpdateWithChildren` | apps/api/src/services/test-case.service.ts:579-735 | one transaction: the information is written, with its history entry exactly when a field differs, and all lists are synced, or an unknown id leaves everything unchanged; history grows by rows of this test case only, each true of the tables before and after |
| `TestCaseChildren.InfoUndo` | apps/api/src/services/test-case.service.ts:615-668 | the recorded fields undo and redo the change of the basic information, and there are none exactly when nothing changed |
| `TestCaseChildren.SyncedGuarantees` | apps/api/src/services/test-case.service.ts:598-735 | for each list of an accepted request: undo, redo exactly when nothing is taken back, entry count, frame, and reading back exactly when ids are distinct |
| `GroupedHistories.QueryPage` | apps/api/src/repositories/test-case.repository.ts:332-364 | the selected rows are all rows of one slice of the groups ordered by latest time; two rows of one group id are selected together |
| `GroupedHistories.BuildGroupMap` | apps/api/src/repositories/test-case.repository.ts:431-458 | the loop rebuilds, for each group seen, its categories in row order, its id and its latest time; two rows of one group id share an item |
| `GroupedHistories.BuildItems` | apps/api/src/repositories/test-case.repository.ts:431-463 | one item per group, in order of first appearance; every row is shown, and two rows share an item exactly when they have the same group id or are the same |
| `HistoryPages.GetHistoriesGrouped` | apps/api/src/repositories/test-case.repository.ts:296-466 | whole groups by `groupId`, an ungrouped record alone, each record in its category, newest first; the page has its full length, and the totals count the group ids, ungrouped records and rows |
| `HistoryPages.GroupsCounted` | apps/api/src/repositories/test-case.repository.ts:332-370 | the groups number the distinct group ids plus the ungrouped records |
| `HistoryPages.PageIsAnswer` | apps/api/src/repositories/test-case.repository.ts:296-466 | whatever order the query gives to ties, an item holds all records of its group id or one ungrouped record, no record is in two items, and no record left out of the first page is newer than its items |
| `HistoryPages.PageIsNaivePage` | apps/api/src/repositories/test-case.repository.ts:296-466 | with distinct latest times the page is the slice of group-all-and-sort |
| `HistoryPages.PagesConcatenate` | apps/api/src/repositories/test-case.repository.ts:296-466 | with distinct latest times consecutive pages concatenate to the newest-first list of all groups |
| `HistoryPages.PagesShowEachGroupOnceIff` | apps/api/src/repositories/test-case.repository.ts:332-370 | pages are sure to show every group exactly once if and only if no two groups tie across a page boundary |
| `HistoryPages.DistinctLatestPages` | apps/api/src/repositories/test-case.repository.ts:332-370 | distinct latest times leave no such tie |
| `HistoryPages.EachRecordOnce` | apps/api/src/repositories/test-case.repository.ts:431-463 | each record is shown in exactly one category of one item of one page |
| `RankedPages.RankedPagesShowOnceIff` | apps/api/src/repositories/test-case.repository.ts:332-364 | the same for any ranked list whose queries may break ties differently |
| `RateLimiter.ExecPipeline` | apps/api/src/middleware/rate-limiter.ts:75-90 | the trimmed and extended sorted set is the request log filtered to the window, and its count is the window's size |
| `RateLimiter.Limiter.Handle` | apps/api/src/middleware/rate-limiter.ts:65-117 | a request passes exactly when it and the recorded requests less than a window older number at most `max`; a failing or missing Redis lets it pass |
| `RateLimiter.Limiter.Expire` | apps/api/src/middleware/rate-limiter.ts:85-90 | when the key expires the set still stands for the window: no counted entry is lost |
| `RateLimiter.AdmittedBound` | apps/api/src/middleware/rate-limiter.ts:75-110 | no window of the configured length, wherever it ends, admits more than `max` requests |
| `RateLimiter.Limiter.PassedBound` | apps/api/src/middleware/rate-limiter.ts:75-110 | the same for the requests this limiter has let through |
| `RateLimiter.QuietWindowAdmits` | apps/api/src/middleware/rate-limiter.ts:75-110 | after a window without requests the next one is admitted |
| `LoginLockout.UserPasswordAuth.Login` | apps/api/src/services/user-password-auth.service.ts:189-330 | each answer exactly when lock, password, verification and two-factor say so; a login clears the counter, a failed comparison adds one, the fifth locks, and no refusal clears a running count |
| `LoginLockout.UserPasswordAuth.ResetPassword` | apps/api/src/services/user-password-auth.service.ts:379-443 | a valid unused token sets the password, clears counter and lock, and leaves no unrevoked token or session of the user; otherwise nothing changes |
| `LoginLockout.CounterStaysValid` | apps/api/src/services/user-password-auth.service.ts:208-259 | in every run a row without a lock has fewer than five recorded failures |
| `LoginLockout.FailuresBounded` | apps/api/src/services/user-password-auth.service.ts:208-317 | half an hour without a successful login or a reset holds at most five failed comparisons |
| `LoginLockout.FifthFailureLocks` | apps/api/src/services/user-password-auth.service.ts:238-259 | a failure locks exactly when it is the fifth, and the lock lasts exactly thirty minutes |
| `AuditCsv.FieldRoundTrip` | apps/api/src/services/audit-log.service.ts:123-131 | an escaped value, followed by a separator, reads back as itself |
| `AuditCsv.QuotesExactlyWhenNeeded` | apps/api/src/services/audit-log.service.ts:123-131 | a value is quoted exactly when it would not read back without quotes |
| `AuditCsv.RecordRoundTrip` | apps/api/src/services/audit-log.service.ts:133-150 | a row of escaped values reads back as the values |
| `AuditCsv.CsvRoundTrip` | apps/api/src/services/audit-log.service.ts:108-153 | a reader in the style of section 2 of RFC 4180 recovers the header and every nine-field row, whatever the logs hold |
| `AuditCsv.CsvShowsLogs` | apps/api/src/services/audit-log.service.ts:108-153 | the table read back has the nine headers and, per log, its nine columns with their fallbacks; the text starts with the byte order mark |
| `AuditCsv.CsvInjective` | apps/api/src/services/audit-log.service.ts:108-153 | two exports are equal exactly when all their rows are |
| `OAuthTokens.OAuthService.IssueAuthorizationCode` | apps/api/src/services/oauth.service.ts:234-259 | the stored code, valid for ten minutes and unused |
| `OAuthTokens.OAuthService.ExchangeCodeForToken` | apps/api/src/services/oauth.service.ts:265-364 | tokens are issued exactly for a stored, unused, unexpired code of this client, redirect URI, verifier and resource; the error of each refusal, the stored rows, and the revocation of all tokens on reuse |
| `OAuthTokens.OAuthService.RefreshAccessToken` | apps/api/src/services/oauth.service.ts:370-438 | an access token is issued exactly for a stored, unrevoked, unexpired token of the client and scopes it has; the refusals in order, and the new row with the same or narrower scopes |
| `OAuthTokens.OAuthService.IntrospectToken` | apps/api/src/services/oauth.service.ts:444-470 | active exactly when stored, not revoked and not expired, and then the columns of the stored row |
| `OAuthTokens.OAuthService.RevokeToken` | apps/api/src/services/oauth.service.ts:476-524 | an access token first, else a refresh token, and only of the naming client |
| `OAuthTokens.OAuthService.EndOAuthSession` | apps/api/src/services/agent-session.service.ts:174-195 | ends the session of the user's own unrevoked access token, with the error of each refusal |
| `OAuthRuns.Lineage` | apps/api/src/services/oauth.service.ts:265-438 | over every run: a code yields at most one refresh token, which carries its user, client, scopes and resource; an access token has a stored refresh token of the same user, client and audience and at least its scopes |
| `OAuthRuns.RefreshTokenGranted` | apps/api/src/services/oauth.service.ts:285-364 | over every run: each stored refresh token was granted by an exchange of a code that was unused, unexpired, of its client, redirect URI, verifier and resource, and carries its columns |
| `OAuthRuns.AccessTokenGranted` | apps/api/src/services/oauth.service.ts:285-438 | over every run: each stored access token was granted for such a code, or for an unrevoked, unexpired refresh token of its client |
| `OAuthRuns.UsedCodePresented` | apps/api/src/services/oauth.service.ts:285-297 | a used code is always refused, and revokes every token of its user and client exactly when it has not expired (or none was left) |
| `OAuthRuns.StaysRevoked` | apps/api/src/services/oauth.service.ts:370-524 | revoked tokens of a user and client stay inactive until a code of theirs is exchanged |
| `OAuthRuns.ReplayRevokes` | apps/api/src/services/oauth.service.ts:285-297 | after a replay a token of that user and client can be active only if a different, unused code was exchanged since |
| `EditLocks.FindByTarget` | apps/api/src/repositories/edit-lock.repository.ts:36-53 | the one lock of a target, if there is one |
| `EditLocks.EditLockService.AcquireLock` | apps/api/src/services/edit-lock.service.ts:62-103 | heartbeat of one's own lock, conflict with another's, or a new lock replacing an expired one, each with the row for ninety seconds |
| `EditLocks.EditLockService.GetLockStatus` | apps/api/src/services/edit-lock.service.ts:108-119 | locked exactly when an unexpired lock is stored |
| `EditLocks.EditLockService.UpdateHeartbeat` | apps/api/src/services/edit-lock.service.ts:124-141 | the owner's lease is extended by ninety seconds; NotFound and NotOwner otherwise |
| `EditLocks.EditLockService.ReleaseLock` | apps/api/src/services/edit-lock.service.ts:146-160 | only the owner's release deletes the row |
| `EditLocks.EditLockService.ForceReleaseLock` | apps/api/src/services/edit-lock.service.ts:165-174 | the row is deleted whoever owns it |
| `EditLocks.EditLockService.ProcessExpiredLocks` | apps/api/src/services/edit-lock.service.ts:179-187 | exactly the rows expired before now are deleted and returned |
| `EditLocks.OneLockPerTarget` | apps/api/src/repositories/edit-lock.repository.ts:36-46 | in every run no target has two lock rows |
| `EditLocks.RemovedIff` | apps/api/src/services/edit-lock.service.ts:62-187 | exactly which steps take a lock row away |
| `EditLocks.HeldUntil` | apps/api/src/services/edit-lock.service.ts:62-187 | in every run an unexpired lock stays until its owner releases it or it is forced |
| `EditLocks.MutualExclusion` | apps/api/src/services/edit-lock.service.ts:62-103 | while a lease lasts every other actor's acquisition conflicts with it |
| `EditLocks.HeartbeatsKeepLock` | apps/api/src/services/edit-lock.service.ts:62-141 | an owner renewing at gaps under ninety seconds keeps the lock in every run |
| `EditLocks.GoneForGood` | apps/api/src/services/edit-lock.service.ts:124-141 | the id of a lock that is gone answers NotFound for ever |
| `EditLocks.LockedIffOthersConflict` | apps/api/src/services/edit-lock.service.ts:62-119 | the status is locked exactly when some other actor's acquisition would conflict |
| `AuthTables.AuthStore.PersistAuthSession` | apps/api/src/config/auth.ts:49-75 | a token row and a session row are created together |
| `AuthTables.AuthStore.Refresh` | apps/api/src/controllers/auth.controller.ts:107-137 | succeeds exactly on a stored, unrevoked, unexpired token; then token and session are revoked and new ones stored, otherwise nothing changes |
| `AuthTables.AuthStore.Logout` | apps/api/src/controllers/auth.controller.ts:151-178 | both rows of the presented token are revoked and no other row changes |
| `AuthTables.AuthStore.RevokeUser` | apps/api/src/services/user-password-auth.service.ts:516-534 | no unrevoked token or session of the user is left but the kept one; every other row is as it was |
| `AuthTables.UserRevokedIff` | apps/api/src/services/user-password-auth.service.ts:516-534 | these conditions fix the tables: they are those with exactly the covered rows revoked |
| `AuthTables.AuthStore.RevokeSession` | apps/api/src/services/session.service.ts:82-102 | revokes the user's own active session, with the error of each refusal |
| `AuthTables.AuthStore.CleanupExpiredSessions` | apps/api/src/repositories/session.repository.ts:146-152 | a session survives if and only if it is neither expired nor revoked, and then unchanged |
| `RotationSteps.StepKeeps` | apps/api/src/controllers/auth.controller.ts:79-178 | every statement of every interleaved call, password resets and changes included, keeps the rotation invariant |
| `RefreshRotation.ConsumedOnce` | apps/api/src/controllers/auth.controller.ts:107-137 | however refreshes interleave, no token is consumed twice |
| `RefreshRotation.OneLiveToken` | apps/api/src/controllers/auth.controller.ts:107-137 | however calls interleave, at most one unrevoked token descends from each login |
| `RefreshRotation.CommitIsRefresh` | apps/api/src/controllers/auth.controller.ts:107-137 | a commit has exactly the effect of a refresh that runs alone at that moment, on a token still usable |
| `RefreshRotation.SessionsSettled` | apps/api/src/controllers/auth.controller.ts:151-178 | unless a logout is half done, the stored session of a revoked token is revoked |
| `RefreshRotation.LogoutEnds` | apps/api/src/controllers/auth.controller.ts:151-178 | when a logout answers, whatever ran beside it, the presented token and its session are revoked |
| `RefreshRotation.LogoutSteps` | apps/api/src/controllers/auth.controller.ts:158-167 | the two statements of a logout, in either order, are the logout as one step |
| `ResetOutcome.AloneIsRevokeUser` | apps/api/src/services/user-password-auth.service.ts:425-439 | with nothing running beside it, a reset revokes what it revokes as one step |
| `ResetOutcome.ResetLeaves` | apps/api/src/services/user-password-auth.service.ts:404-440 | in every run, the tokens of its user that a reset or change leaves unrevoked are exactly those a login or refresh has committed since its first update started |
| `ResetOutcome.ResetSpares` | apps/api/src/services/user-password-auth.service.ts:404-440 | a reset or change leaves alone the kept token, other users' tokens, those revoked before, and their sessions |
| `ResetOutcome.ResetEndsAllIff` | apps/api/src/services/user-password-auth.service.ts:404-440 | a reset ends all tokens of its user if and only if each it finds unrevoked at its commit was stored when its first update started |
| `ResetOutcome.RefreshOutlivesReset` | apps/api/src/services/user-password-auth.service.ts:404-440 | a concrete run in which a refreshed token is still usable after the reset, though its session is revoked |
| `ChannelIndex.JoinedIff` | apps/ws/src/server.ts:334-378 | exactly which requested channels are joined: of one of the five kinds with a UUID, not another user's, and indexed or taken by Redis |
| `ChannelIndex.ValidChannelIff` | apps/ws/src/server.ts:39-41 | a channel is well formed exactly when it is one of five kinds, a colon, and groups of 8, 4, 4, 4 and 12 lower-case hexadecimal digits |
| `ChannelIndex.RemovedTwice` | apps/ws/src/server.ts:440-471 | taking a connection off the lists again changes nothing: cleanup is idempotent |
| `ChannelIndex.RemovedUndoesAdded` | apps/ws/src/server.ts:334-402 | unsubscribing undoes subscribing on the index |
| `ChannelIndex.WebSocketServer.HandleSubscribe` | apps/ws/src/server.ts:334-378 | reply, index, connection and Redis subscriptions after a subscribe, and the index invariant |
| `ChannelIndex.WebSocketServer.HandleUnsubscribe` | apps/ws/src/server.ts:383-402 | the connection leaves exactly the named channels; channels left empty are dropped |
| `ChannelIndex.WebSocketServer.HandleAuthenticate` | apps/ws/src/server.ts:265-306 | the answer in every case; at most one login per connection and five attempts; a login registers the connection and joins the user's own channel if Redis delivers it |
| `ChannelIndex.WebSocketServer.AdmitUser` | apps/ws/src/server.ts:194-210 | the user's own channel is joined when Redis delivers it |
| `ChannelIndex.WebSocketServer.RegisterConnection` | apps/ws/src/server.ts:428-435 | the connection is listed under its user |
| `ChannelIndex.WebSocketServer.HandleConnection` | apps/ws/src/server.ts:122-158 | a new connection, logged in by cookie and in its user's channel, or not at all |
| `ChannelIndex.WebSocketServer.HandleMessage` | apps/ws/src/server.ts:215-263 | nothing but a login is served before a login, and each message has the reply and the effect of its handler |
| `ChannelIndex.WebSocketServer.HandleRedisMessage` | apps/ws/src/server.ts:407-422 | a message goes exactly to the connections whose channels contain it, and a user channel's only to that user |
| `ChannelIndex.WebSocketServer.CleanupConnection` | apps/ws/src/server.ts:440-471 | no trace of the connection is left in either index |
| `SessionMerge.FindAgentSessions` | apps/api/src/repositories/agent-session.repository.ts:17-49 | at most 1000 matching sessions, those of the latest heartbeats |
| `SessionMerge.SortIsStable` | apps/api/src/services/agent-session.service.ts:122-125 | entries of one start time keep their order in the sort |
| `SessionMerge.MergedIsList` | apps/api/src/services/agent-session.service.ts:57-125 | whatever the queries return, the list holds the shown sessions once each, newest first, then agent sessions before tokens, then the latest heartbeat first |
| `SessionMerge.MergeRealizable` | apps/api/src/services/agent-session.service.ts:57-125 | every list in that order is the merge of what some queries return |
| `SessionMerge.AnswerIffMerged` | apps/api/src/services/agent-session.service.ts:57-131 | the answers of a call are exactly the pages of such lists |
| `SessionMerge.GetSessionsByUser` | apps/api/src/services/agent-session.service.ts:57-131 | a page is a slice of a list of both sources in that order, each entry with the columns of its stored row, and the total is its length |
| `SessionMerge.LostAtTheInstantOnly` | apps/api/src/repositories/agent-session.repository.ts:68-84 | dropping revoked and expired tokens in the query loses only a token expiring at that very instant |
| `SessionMerge.CompleteIff` | apps/api/src/services/agent-session.service.ts:57-131 | the list is complete if and only if at most 1000 agent sessions match and, when only active sessions are asked for, no unrevoked token expires at the very instant of its query |
| `SessionMerge.ListedIff` | apps/api/src/services/agent-session.service.ts:57-131 | every entry listed is a stored session of the user's projects or a token of the user in a requested status, and all of them are listed under exactly the same condition |
| `SessionMerge.LeftOutIsOlder` | apps/api/src/repositories/agent-session.repository.ts:17-49 | an agent session left out was heard of no later than any that is listed |
| `SessionPages.PagesShowEachOnceIff` | apps/api/src/services/agent-session.service.ts:122-131 | for a complete list, the calls for all pages are sure to show each session exactly once, and then in order, if and only if no two entries alike in start time, source and heartbeat lie across a page boundary |
| `ExecutionTables.CreateItems` | apps/api/src/services/test-suite.service.ts:735-820 | rows are copied in order under their parent, with original id, content and order key |
| `ExecutionTables.CreateResults` | apps/api/src/services/test-suite.service.ts:798-855 | one result row for each copied row, in the initial status, naming its execution and case |
| `ExecutionSnapshot.FindLiveCases` | apps/api/src/services/test-suite.service.ts:698-713 | the undeleted cases of the suite in key order |
| `ExecutionSnapshot.CreateCase` | apps/api/src/services/test-suite.service.ts:760-846 | one test case with its title, description, priority and key, its children and their results |
| `ExecutionSnapshot.CreateExecution` | apps/api/src/services/test-suite.service.ts:695-863 | the snapshot copies the live suite, cases and children in order, column by column, under new ids only, and items and results stay in one-to-one correspondence |
| `ExecutionMirror.SnapshotIsMirror` | apps/api/src/services/test-suite.service.ts:695-863 | a snapshot holds exactly one copy of each undeleted case and of each live child, with original id, content and order key, or title, description, priority and order key, and nothing else |
| `ExecutionRuns.TestExecutions.StartExecution` | apps/api/src/services/test-suite.service.ts:695-863 | one step of the run, after which the new execution mirrors the live suite, or NotFound and no change |
| `ExecutionRuns.TestExecutions.UpdatePreconditionResult` | apps/api/src/services/execution.service.ts:125-173 | the status of the execution's own precondition result, or NotFound and no change |
| `ExecutionRuns.TestExecutions.UpdateStepResult` | apps/api/src/services/execution.service.ts:180-229 | the status of the execution's own step result, or NotFound and no change |
| `ExecutionRuns.TestExecutions.UpdateExpectedResult` | apps/api/src/services/execution.service.ts:235-285 | the judgment of the execution's own expected result, or NotFound and no change |
| `ExecutionSteps.StepKeepsInv` | apps/api/src/services/test-suite.service.ts:695-863 | starts, edits of the live suite and result updates keep every snapshot and the correspondence of items and results |
| `ExecutionRuns.SnapshotForGood` | apps/api/src/services/test-suite.service.ts:695-863 | in every run the snapshot of an execution stays that of the live suite at its start |
| `ExecutionRuns.StartMirrors` | apps/api/src/services/test-suite.service.ts:695-863 | a start makes the mirror of the live suite as it is |
| `ExecutionRuns.MirrorForGood` | apps/api/src/services/test-suite.service.ts:695-863 | in every run an execution stays the mirror of the live suite as it was right before its start, whatever is started, edited or judged later |
| `ExecutionRuns.OneResultEach` | apps/api/src/services/test-suite.service.ts:798-855 | in every reachable state an item has exactly one result, which names its execution and case |
| `ExecutionRuns.EachResultHasItem` | apps/api/src/services/test-suite.service.ts:798-855 | in every reachable state a result is that of an item of its execution |
| `ExecutionRuns.CountsSumInRun` | apps/api/src/services/test-suite.service.ts:667-687 | in every reachable state the four judgment counts of an execution sum to the number of its expected results |
| `ExecutionRuns.ExpectedItemsAreCopies` | apps/api/src/services/test-suite.service.ts:800-812 | the expected results of an execution are exactly the copies in its snapshot |
| `ExecutionRuns.JustStartedAllPending` | apps/api/src/services/test-suite.service.ts:836-846 | until one of its own results is updated, the preconditions of an execution are unchecked, its steps pending and its judgments pending |
| `ExecutionRuns.TestExecutions.JudgmentCounts` | apps/api/src/services/test-suite.service.ts:667-687 | each count is the number of the execution's results with that judgment, and together they are its expected results |
| `Environments.EnvironmentService.MaxSortOrder` | apps/api/src/services/project.service.ts:333-337 | the largest sort order of the project, or -1 |
| `Environments.EnvironmentService.CreateEnvironment` | apps/api/src/services/project.service.ts:314-349 | a new environment with the next order after the largest; a new default clears the old one; distinct sort orders stay distinct |
| `Environments.EnvironmentService.UpdateEnvironment` | apps/api/src/services/project.service.ts:354-390 | each column is as requested or as before; other rows change only in a default flag that a new default clears; at most one default remains |
| `Environments.EnvironmentService.DeleteEnvironment` | apps/api/src/services/project.service.ts:395-429 | deleting the default leaves exactly one default, the lowest sort order, whenever an environment remains |
| `Environments.EnvironmentService.ReorderEnvironments` | apps/api/src/services/project.service.ts:434-465 | each named environment gets its last position in the request; unknown ids are refused |
| `Environments.ReorderKeepsDistinctIff` | apps/api/src/services/project.service.ts:434-465 | sort orders are distinct after a reorder if and only if those left out were, and none stands at a position given away |
| `Environments.FullReorderIsDistinct` | apps/api/src/services/project.service.ts:434-465 | a request naming every environment gives distinct sort orders |
| `Environments.PartialReorderClashes` | apps/api/src/services/project.service.ts:434-465 | a request naming only some environments can make two sort orders equal |
| `Organizations.TransferKeepsOneOwner` | apps/api/src/services/organization.service.ts:638-696 | after a transfer the new owner is the only owner, and other organizations keep theirs |
| `Organizations.OrganizationService.Create` | apps/api/src/services/organization.service.ts:21-40 | a new organization has its creator as owner |
| `Organizations.OrganizationService.Invite` | apps/api/src/services/organization.service.ts:138-193 | refused exactly for members and while an undecided unexpired invitation exists; otherwise one is added |
| `Organizations.OrganizationService.AcceptInvitation` | apps/api/src/services/organization.service.ts:283-327 | an open invitation addressed to the user becomes a membership, once |
| `Organizations.OrganizationService.DeclineInvitation` | apps/api/src/services/organization.service.ts:555-583 | an open invitation addressed to the user is declined |
| `Organizations.OrganizationService.CancelInvitation` | apps/api/src/services/organization.service.ts:516-535 | only undecided invitations of the organization are deleted |
| `Organizations.OrganizationService.UpdateMemberRole` | apps/api/src/services/organization.service.ts:364-398 | the owner's role cannot be changed this way |
| `Organizations.OrganizationService.RemoveMember` | apps/api/src/services/organization.service.ts:422-446 | the owner cannot be removed |
| `Organizations.OrganizationService.TransferOwnership` | apps/api/src/services/organization.service.ts:638-696 | the refusals, and then exactly one owner, the new one |

## Left out

- Bodies of the precondition and expected-result services, and the suite's `reorderTestCases`, `reorderPreconditions` and `deletePrecondition`: the same ordered-list operations as for steps, which are modelled once for the three child tables.
- TestCaseChildren.TestCaseService.UpdateWithChildren: entries of the basic information are kept in a list of their own, so their place among the other entries is not modelled, nor `groupId` and the acting user of history rows.
- TestCaseChildren.TestCaseService.AddChild: an explicit `orderKey` from the client is stored as given, and then neither canonical keys nor the undo log are claimed.
- OrderKeys.IndexToOrderKeyParses: integers are unbounded; numbers past 2^53, where JavaScript loses digits, are not modelled.
- The history of a sync does not record order, so only the id-to-content map is recovered from it.
- RateLimiter.Limiter.Handle: the commands of one pipeline take effect together; clock differences between servers and a pipeline that fails half way are not modelled.
- AuditCsv.CsvRoundTrip: `createdAt` and `details` are the texts the row prints; the date and JSON printers, and `formatAsJSON`, are not part of this model.
- Password hashing, token hashing, PKCE and scope parsing are arbitrary functions; token signatures, the check that the user still exists before a refresh, client metadata and redirect validation are not part of this model.
- OAuthTokens.OAuthService.ExchangeCodeForToken: a request is one step; interleaving at its awaits is not modelled, and the same holds for the lock, invitation and WebSocket handlers.
- RefreshRotation.OneLiveToken: an update takes the locks of all its rows at once, and a deadlock between transactions is an abort of one of them.
- EditLocks.EditLockService.AcquireLock: two acquisitions racing past the read are not modelled; the unique constraint would fail one of them.
- ChannelIndex.WebSocketServer.HandleSubscribe: presence notifications, the ready state of sockets, the ping timer and the login timeout are not modelled.
- ExecutionRuns.TestExecutions.UpdateExpectedResult: the note, time and executor columns of results, evidence files, deletion of executions and published events are not modelled; ids are drawn in turn.
- SessionMerge.GetSessionsByUser: project and client names are joined values and are not modelled, nor is ending an agent session.
- Organizations.OrganizationService.Invite: soft deletion and restoration of organizations, audit entries, notifications and mail are not modelled.
- Routing, request parsing, cookies, role checks, labels, review comments, the user interface and deployment: they would only add easy members.
