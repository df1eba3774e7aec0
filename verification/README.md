# Verified model of the portal's stateful protocols

A Dafny model of four protocols of the portal backend and of the code that
runs them: login sessions with rotating refresh tokens, the transactional
outbox, one-time user tokens and roles, and the change-data-capture (CDC)
indexer.

Every protocol has the same three layers.

* A **state machine**: the tables as maps, the calls in flight as program
  counters that remember what they have read, and one event per atomic step of
  the code. A step is one repository read, one committed statement or one
  committed transaction, so everything read earlier may be stale. Any number
  of calls run at once, in any interleaving, and any of them may stop after
  any step.
* An **inductive invariant** with a preservation lemma per part, and
  **theorems over all runs** of the machine.
* The **services and repositories as classes**, statement by statement. Each
  repository call may fail without effect; a transaction restores the rows it
  began with. Between two steps of a method, `Yield` lets any run of the other
  actors happen. Each method is proved to take only steps of its machine, so
  the theorems about runs hold of this code.

| files | subject |
|---|---|
| `SessionTables`, `SessionProtocol`, `SessionInvariants`, `SessionTheorems`, `SessionLimits`, `AuthService` | LogIn, Refresh, reuse handling, Logout, LogoutAll, the revocation store, Authenticate |
| `OutboxTable`, `OutboxProtocol`, `OutboxInvariants`, `OutboxTheorems`, `OutboxRounds`, `OutboxWorker`, `Backoff`, `Sums` | any number of outbox workers, and the retry delay |
| `UserTokens`, `UserTokenProtocol`, `UserTokenRaces`, `UserTokenService` | Register, CreateUser, ResendVerification, ForgotPassword, VerifyEmail, SetPassword, ResetPassword |
| `RoleProtocol`, `RoleService` | roles, their permissions and the users that refer to them |
| `Cdc`, `CdcTheorems`, `CdcConsumer` | the consumer loop, the router, the two event handlers, the index |

`dafny verify dfyconfig.toml` checks everything.

## What the model assumes

* A transaction is atomic, and transactions are serialised. A repository call
  that reports an error had no effect, except that an index call of the CDC
  consumer may fail after it took effect.
* There is one clock. It never runs backwards, and times are integers.
* SHA-256 is injective. Row ids and generated tokens are fresh, and the unique
  indexes on hashes, codes and addresses hold.
* All outbox workers share one configuration. A counter is bumped in the same
  step as the statement it reports on.
* The user rows that LogIn and Refresh read, the comparison of the password, and
  the role lookup of Authenticate enter as parameters. The audit table enters only
  as one more call that may fail.
* Every failing repository call, store command, index call and generator is
  counted in a ghost field `faults`. A service method that reports an error
  without a new fault meets one of the refusals that its contract lists.
* All changes of one row go to one partition of the CDC topics.

## Where the code differs from its comments or documentation

* `docs/diagrams/authentication_flow.md` shows the session and the first
  refresh token inserted in one transaction. The code inserts the session
  through the outer context (internal/service/auth.go:236), so it commits on
  its own. `OrphanExactly` says which sessions a run leaves without a token: those
  whose login was cut short between the two inserts. A login can also fail after
  both, when the access token is not signed (internal/service/auth.go:257-268);
  it then leaves an active session with a live token that nobody was given.
  The contract of `LogIn` names the rows it has committed, on every outcome.
* `docs/architecture.md` says that reuse invalidates the session tree. The
  code revokes every active session of the user (internal/service/auth.go:637).
* Refresh compares the session's expiry with the clock before its transaction
  and not inside it (internal/service/auth.go:547-555). `RotationWasChecked`: every
  rotation was preceded by its own call's check of a session that was active then.
  The rotation itself can commit when the session has just expired; `LateExample`
  is such a run. The token it yields has expired too, and nothing accepts it.
* Logout and LogoutAll tolerate a session update that matches no row, but not
  a token update that does (internal/service/auth.go:690,
  internal/service/auth.go:730). They roll back when no token is live;
  `LogoutCommitsIffLiveToken` and `LogoutAllCommitsIffLiveToken` give the guards.
  In a reachable state an active session can be logged out exactly when it has a
  token (`LogoutExactly`), so the orphan above never can (`OrphanForever`).
* VerifyEmail, SetPassword and ResetPassword pass the outer context inside
  `WithTx` (internal/service/auth.go:305-314, internal/service/auth.go:489-516).
  Their statements commit one by one, and no rollback is claimed for them.
  `LoserOverwrites` is a run in which the call that lost the race for its token
  fails and its password stays; `LoserNeverReturns` and `LoserStillWrites` cover
  every such call, and `FailureWroteExactly` says which failed calls have written.
* ResendVerification revokes the token type it is given, but always creates an
  email verification token (internal/service/auth.go:339-345). At most one
  valid token remains exactly when the two types agree or there was none;
  `IssueKeepsOneValid` is that equivalence, and `ResendExample` a run to two valid
  tokens. The gRPC handler passes the email
  verification type (internal/handler/grpcserver/auth_server.go:79). For an
  unknown address the method dereferences a nil user inside the transaction,
  which rolls back.
* The first retry waits the initial backoff even when the configured maximum
  is smaller (internal/worker/retry.go:19-26).
* The consumer's comment says that a failed message is retried
  (internal/infrastructure/cdc/consumer.go:55). The loop fetches on, and the
  next commit in that partition covers the failed offset. `FailedChangeIsLost`
  and `FailureExample` state this, and `Converges` says exactly which keys are
  right nevertheless.
* DeleteRole with a replacement fails on an unused role, because the update of
  no user row is an error (internal/service/role.go:222-224).

## Model

| member | source | states |
|---|---|---|
| SessionTables.ReuseContains | internal/service/auth.go:636-646 | The reuse transaction leaves its user without a live token and without an active session, keeps all rows, changes only live tokens and active sessions of that user, and leaves none of the user's sessions with a live token |
| SessionTables.LogoutCommitsIffLiveToken | internal/service/auth.go:685-695 | Logout commits if and only if the session has a live token; then the session is revoked, none of its tokens is live, and every other session and token row is unchanged |
| SessionTables.LogoutAllCommitsIffLiveToken | internal/service/auth.go:725-735 | LogoutAll commits if and only if the user has a live token in some session; then no session of the user is active, no token live, and nobody else's rows change |
| SessionInvariants.StepGrows | internal/repository/impl/refresh_token_repository.go:39-97 | No step removes a row or changes its owner, session, hash or expiry, and none makes a revoked row live again |
| SessionInvariants.StepSweeps | internal/service/auth.go:636-646 | A step that revokes a session also revokes every token of that session |
| SessionInvariants.ChainRotated | internal/service/auth.go:600-614 | A rotation consumes the tail of its session's chain and extends the chain by the new token |
| SessionInvariants.ChainStep | internal/repository/impl/refresh_token_repository.go:99-114 | Every step of any call keeps each session's tokens one replacement chain, with the old chain as a prefix |
| SessionInvariants.TokensBelongStep | internal/service/auth.go:579-584 | Every token keeps the owner and the expiry of its session, and no two tokens share a hash |
| SessionInvariants.SessionsBoundedStep | internal/service/auth.go:220-228 | No session expires later than one TTL from now |
| SessionInvariants.CacheSoundStep | internal/infrastructure/redis/session_revocation_store.go:20-32 | Every key in the revocation store names a session that is revoked or expired and lapses no earlier than that session |
| SessionInvariants.StillNoToken | internal/service/auth.go:235-252 | A session that a login has opened stays without tokens until that login inserts its first one |
| SessionInvariants.ListedAreDead | internal/service/auth.go:631-646 | At the commit of Logout, LogoutAll or reuse handling every session listed earlier is revoked or expired |
| SessionInvariants.CallsSoundStep | internal/service/auth.go:528-624 | What every running call remembers from its reads stays true enough to act on; in particular a Refresh past its checks whose session was revoked meanwhile holds a dead token |
| SessionInvariants.InvStep | internal/service/auth.go:528-751 | The whole session invariant is kept by every step of every call |
| SessionTheorems.OneLiveTokenPerSession | internal/service/auth.go:600-614 | In every reachable state the refresh tokens of a session form one replacement chain and at most one of them is live |
| SessionTheorems.ChainStartsAtLogin | internal/service/auth.go:240-249 | However a run goes on, the chain of a session starts with the token that its login inserted |
| SessionTheorems.ExchangedAtMostOnce | internal/repository/impl/refresh_token_repository.go:39-57 | No two committed rotations of a run consume the same refresh token |
| SessionTheorems.NoRotationWhenRevoked | internal/service/auth.go:600-614 | A rotation can commit only for a session that is not revoked at that instant, whatever the Refresh had read before |
| SessionTheorems.RevocationIsFinal | internal/service/auth.go:685-699 | Once a session is revoked, no later rotation of the run serves it, not even by a Refresh that had already read token and session as live |
| SessionTheorems.LogoutRevokes | internal/service/auth.go:685-695 | The commit of Logout revokes the session it was called for and leaves it without a live token |
| SessionTheorems.UserRevokes | internal/service/auth.go:725-735 | The commit of LogoutAll and of reuse handling revokes every active session of the user and leaves none of them a live token |
| SessionTheorems.LifetimeIsAbsolute | internal/service/auth.go:220-245 | A session expires at its login instant plus the TTL, and so does every refresh token it ever has, after any number of refreshes |
| SessionTheorems.NothingAfterExpiry | internal/service/auth.go:547-555 | From the expiry of a session on, no Refresh passes its token or session check and no Authenticate succeeds for it; for the rotation itself see the next three rows |
| SessionLimits.RotationWasChecked | internal/service/auth.go:552-555 | Every rotation of a run, however late, was preceded by its own call's session check, which found the session unrevoked before its expiry |
| SessionLimits.LateExample | internal/service/auth.go:547-614 | From any initial state a run in which a rotation commits with its session expired |
| SessionLimits.LateRotation | internal/service/auth.go:600-614 | A remark on the guard: time alone never stops a call past that check, only the loss of its live token does; the new token expires with the session |
| SessionLimits.OrphanStep | internal/service/auth.go:235-252 | A step makes a session an orphan, without a token and without a login that will still insert one, if and only if it cuts short the login that had inserted the session |
| SessionLimits.OrphanExactly | internal/service/auth.go:235-252 | Over any run a session ends up as an orphan if and only if it was one at the start or its login was cut short between its two inserts |
| SessionLimits.OrphanForever | internal/service/auth.go:685-695 | An orphan stays one in every later run, and no logout of it ever commits |
| SessionLimits.OrphanExample | internal/service/auth.go:235-252 | From any state a login that fails between its two inserts leaves such a session, active |
| SessionLimits.SuppliedStep | internal/service/auth.go:600-614 | Every step keeps that an active session which was ever given a token has a live one |
| SessionLimits.ExactlyOneLiveToken | internal/service/auth.go:600-614 | In every reachable state an active session with any token has exactly one live one |
| SessionLimits.LogoutExactly | internal/service/auth.go:680-695 | In every reachable state the logout transaction of an active session commits if and only if the session has a token, that is, unless it is an orphan or its login still holds it |
| SessionTheorems.CacheIsTransparent | internal/infrastructure/security/authenticator.go:28-44 | With the store asked first and the session row read any number of steps later, Authenticate accepts if and only if the session row alone would be accepted; store errors and lapsed or lost keys make no difference |
| SessionTheorems.ReuseServesOwner | internal/service/auth.go:540-545 | A revoked token sends the call into reuse handling for the owner of that token's session |
| SessionTheorems.ContainedRun | internal/service/auth.go:651-655 | While store calls succeed and keys are not lost, each listed session stays pending in the marking loop, in the store, or expired |
| SessionTheorems.ReuseCommits | internal/service/auth.go:636-649 | In a reachable state the commit of reuse handling leaves the user with no live token and no active session and every other user's rows untouched |
| SessionTheorems.ReuseIsContained | internal/service/auth.go:626-655 | The same, and when store calls succeed every listed session that has not expired is in the revocation store by the end of the call |
| AuthService.Store.CreateSession | internal/repository/impl/auth_session_repository.go:22-24 | Adds exactly the given row under an unused id, or changes nothing |
| AuthService.Store.FindActiveByID | internal/repository/impl/auth_session_repository.go:26-43 | Returns the row if it is unrevoked and unexpired; NotFound only if it is not |
| AuthService.Store.ListActiveByUserID | internal/repository/impl/auth_session_repository.go:86-101 | Lists exactly the active sessions of the user |
| AuthService.Store.RevokeSessionByID | internal/repository/impl/auth_session_repository.go:45-63 | Revokes the row if it is unrevoked; success means that it matched, NotFound that it did not |
| AuthService.Store.RevokeAllByUserID | internal/repository/impl/auth_session_repository.go:65-84 | Revokes exactly the user's active sessions; NotFound when there was none |
| AuthService.Store.CreateToken | internal/repository/impl/refresh_token_repository.go:22-24 | Adds exactly the given row under an unused id with an unused hash, or changes nothing |
| AuthService.Store.FindByTokenHash | internal/repository/impl/refresh_token_repository.go:26-37 | Returns a row with that hash; NotFound only if there is none |
| AuthService.Store.RevokeTokenByID | internal/repository/impl/refresh_token_repository.go:39-57 | Compare-and-swap: succeeds only on a live token and revokes just that one |
| AuthService.Store.RevokeTokensByUserID | internal/repository/impl/refresh_token_repository.go:59-77 | Revokes exactly the user's live tokens; NotFound when there was none |
| AuthService.Store.RevokeTokensBySessionID | internal/repository/impl/refresh_token_repository.go:79-97 | Revokes exactly the session's live tokens; NotFound when there was none |
| AuthService.Store.MarkReplacement | internal/repository/impl/refresh_token_repository.go:99-114 | Sets the successor of one row, or changes nothing |
| AuthService.Store.RotateInTx | internal/service/auth.go:600-614 | Commits the whole rotation, only on a live token, or leaves the table as it was |
| AuthService.Store.LogoutInTx | internal/service/auth.go:685-695 | Commits both updates or rolls both back; NotFound only for a session without a live token, which never commits |
| AuthService.Store.LogoutAllInTx | internal/service/auth.go:725-735 | Commits both updates or rolls both back; NotFound only for a user without a live token, which never commits |
| AuthService.Store.ReuseInTx | internal/service/auth.go:636-646 | Commits both updates, tolerating empty ones, or fails with a fault and rolls both back |
| AuthService.Service.LogIn | internal/service/auth.go:184-281 | Commits anything only for a user that was found, has a password, matches it, is verified and not deleted; such a login fails only on a fault or a token hash that is taken; takes only steps of the machine and names the session and the token it has committed, and no others, on success and failure alike: a session with a token has it as its live and only one, a session without one is an orphan |
| AuthService.Service.Issue | internal/service/auth.go:240-268 | The second half of LogIn: tells a token that was not inserted, which leaves the session an orphan, from one that was, also when the signature then fails; without a fault it fails only on a hash that is taken |
| AuthService.Service.Refresh | internal/service/auth.go:528-624 | Says what the token was read as, and where: unread only when blank or on a fault, absent, or a row with its hash; a revoked row always goes to reuse handling, with exactly that row, and reuse handling runs to its end unless a fault stopped it; a live row is exchanged for a live token of the same unrevoked session with the drawn hash, expiring with it, for a usable owner only; without a fault a live row is refused only if at some reached instant it could not be exchanged |
| AuthService.HandledIsContained | internal/service/auth.go:626-655 | When such a call returns, every token of the owner that existed at the commit is dead and every session revoked or expired; if no store command failed and no key was lost, every listed unexpired session is in the store |
| AuthService.CommittedIsStored | internal/service/auth.go:740-744 | The same for the store after Logout and LogoutAll |
| AuthService.Service.Exchange | internal/service/auth.go:552-597 | Success means a usable owner and the rotation; without a fault it refuses only if at some reached instant the session was inactive, the owner not usable, the token dead or the new hash taken |
| AuthService.Service.Rotate | internal/service/auth.go:600-623 | The same for a token whose session was read as active: the presented token dies, its successor is live, in one commit |
| AuthService.Service.HandleReuse | internal/service/auth.go:626-669 | Success means that the owner's reuse transaction committed and the marking loop then ran to its end without being cut short; an error is a fault, and without one no store command failed |
| AuthService.Service.RevokeAndMark | internal/service/auth.go:636-655 | The same from the listing on, with the commit on the state that the call started in; an error is a fault, and without one no store command failed |
| AuthService.Service.Logout | internal/service/auth.go:671-709 | Success means that the logout transaction of this session committed and its marking ran to its end; without a fault it fails only without an actor, for the nil session, or if at a reached instant the session was inactive or without a live token |
| AuthService.Service.EndSession | internal/service/auth.go:685-709 | The same from the session read on, with the commit on the state that the call started in |
| AuthService.Service.LogoutAll | internal/service/auth.go:711-751 | Success means that the transaction of this user committed and the marking loop ran to its end; without a fault it fails only without an actor, for the nil user, or if at a reached instant the user had no live token |
| AuthService.Service.MarkRevoked | internal/infrastructure/redis/session_revocation_store.go:20-32 | Disposes of one listed entry: skipped only for a nil id or no time left, and surely then; a key that the store took lapses no earlier than the session |
| AuthService.Service.SetKey | internal/infrastructure/redis/session_revocation_store.go:31-31 | The store command: taken, and then lapsing no earlier than the session, or recorded as failed |
| AuthService.Service.MarkAll | internal/service/auth.go:740-744 | Disposes of all listed entries in order, whatever others do meanwhile, and tells whether a store command failed and whether the store lost a key |
| AuthService.Authenticator.Authenticate | internal/infrastructure/security/authenticator.go:22-69 | Success means that the session is unrevoked, unexpired and the claimed user's, with exactly the role's permissions; without a fault it fails only if one of these or the role is missing, whatever the revocation store answers |
| AuthService.Authenticator.CheckSession | internal/infrastructure/security/authenticator.go:37-69 | The same from the session row on |
| OutboxInvariants.OtherWorkerKept | internal/worker/worker.go:89-114 | A step leaves the batch of every other worker and all that is known about its rows unchanged |
| OutboxInvariants.ClaimFieldsStep | internal/repository/impl/outbox_repository.go:54-80 | Claimed-at and claimed-by are set exactly on rows in publishing, after every step |
| OutboxInvariants.TalliesStep | internal/worker/worker.go:156-197 | Every step keeps the relation between status, retry count and Publish calls of each row |
| OutboxInvariants.StatusMoves | internal/repository/impl/outbox_repository.go:82-104 | A row that leaves publishing adds one to the number of rows in its new status and nothing to another terminal one |
| OutboxInvariants.SettleRow | internal/repository/impl/outbox_repository.go:82-159 | A settling statement that succeeds rewrites exactly the worker's own row, which is in publishing, and the counters follow its new status |
| OutboxInvariants.CountersStep | internal/worker/worker.go:87-107 | The counters keep agreeing with the table and with the batches after every step |
| OutboxInvariants.InvStep | internal/worker/worker.go:81-198 | The whole outbox invariant is kept by every step of every worker |
| OutboxTheorems.ExclusiveOwnership | internal/worker/worker.go:119-154 | In every reachable state an event lies in at most one place of at most one batch, and its row is in publishing, claimed by that worker |
| OutboxTheorems.PublishesStoredMessage | internal/worker/worker.go:98-98 | A worker publishes the stored message of a row that it has claimed |
| OutboxTheorems.CountRun | internal/worker/worker.go:89-105 | The per-row counts of the state equal the Publish calls and successes counted on the run itself |
| OutboxTheorems.PublishBounds | internal/worker/worker.go:156-197 | Over any run an event is published successfully at most once and handed to Publish at most max(1, M) times; a dead letter failed exactly max(1, M) times; the retry count is the number of recorded failures without the final one, and a claimed row has seen at most one call more |
| OutboxTheorems.TerminalIsFinal | internal/repository/impl/outbox_repository.go:82-104 | A published or dead-lettered row never changes again |
| OutboxTheorems.CountersAgree | internal/worker/worker.go:87-107 | published_total and dead_lettered_total equal the numbers of such rows in every reachable state; without crashes and failing statements claimed = published + failed + remaining |
| OutboxTheorems.WorkOfSettle | internal/worker/worker.go:156-198 | Settling an event spends at least one of the Publish calls that were left in total |
| OutboxTheorems.ClaimsSomething | internal/repository/impl/outbox_repository.go:32-52 | With nothing locked a claim is empty only when no row is eligible |
| OutboxTheorems.TurnSpends | internal/worker/worker.go:81-117 | One tick of a lone worker never adds work, and with an eligible row leaves strictly less, whatever the publisher answers |
| OutboxTheorems.DueInTime | internal/repository/impl/outbox_repository.go:36-41 | While a lone idle worker has an unsettled row, some row is eligible at every instant from a certain one on |
| OutboxTheorems.WorkDrains | internal/worker/worker.go:64-79 | Over any number of ticks the work falls by at least the number of ticks that found an eligible row |
| OutboxTheorems.Drains | internal/worker/worker.go:64-117 | After as many ticks with an eligible row as calls were left, whatever other ticks lie between, every event is published or dead-lettered |
| OutboxTheorems.DrainsWithoutIdling | internal/worker/worker.go:64-117 | If every tick finds an eligible row or nothing left to do, as many ticks as calls were left settle everything |
| OutboxRounds.CalmIsTurn | internal/worker/worker.go:81-117 | A pass of the loop in which the claim and every settling statement succeeded, nothing was locked and only the clock moved besides is a tick of the theorems above |
| OutboxRounds.LoopDrains | internal/worker/worker.go:64-117 | A lone worker whose passes are calm and always find an eligible row or nothing left has settled every event after as many passes as calls were left |
| OutboxRounds.AckedWasAccepted | internal/worker/worker.go:98-103 | Along any run a worker comes to mark an event published only after the broker took its message from that worker |
| OutboxRounds.PublishedWasAccepted | internal/worker/worker.go:98-103 | Along any run that a worker starts idle, every row that it marks published had its stored message taken by the broker |
| OutboxWorker.Store.ListPendingForUpdate | internal/repository/impl/outbox_repository.go:32-52 | Returns the oldest eligible unlocked rows in creation order, up to the limit, and fewer only if there are no more |
| OutboxWorker.Store.MarkPublishingRows | internal/repository/impl/outbox_repository.go:54-80 | Afterwards none of the ids is waiting; exactly the rows that change were waiting among them and are now claimed by this worker; on an error nothing changes |
| OutboxWorker.Store.MarkPublishedRow | internal/repository/impl/outbox_repository.go:82-104 | Publishes the row if it is in publishing and succeeds silently on no row |
| OutboxWorker.Store.MarkRetryScheduledRow | internal/repository/impl/outbox_repository.go:106-128 | Reschedules the row if it is in publishing and succeeds silently on no row |
| OutboxWorker.Store.MarkDeadLetterRow | internal/repository/impl/outbox_repository.go:130-159 | Dead-letters the row if it is in publishing; no row is an error |
| OutboxWorker.Worker.ClaimPendingEvents | internal/worker/worker.go:119-154 | Claims the listed rows in one transaction and returns copies as they were before the claim, or changes nothing |
| OutboxWorker.Publisher.Publish | internal/infrastructure/kafka/publisher.go:19-38 | Refuses a message without a topic or a key, and records every call with its answer |
| OutboxWorker.Worker.HandlePublishFailed | internal/worker/worker.go:156-207 | Dead-letters at the bound with the retry count untouched, otherwise adds one and schedules the retry at now plus the jittered backoff, with the error text; the row stays as it was only on a fault |
| OutboxWorker.Worker.PublishPending | internal/worker/worker.go:81-117 | One tick is a round, given event by event: what others did before the claim, the claim, and then only publishing and settling until the worker is idle; the broker was asked exactly what the round says, with these answers; without a fault the claim and all settling went through |
| OutboxWorker.Worker.PublishClaimed | internal/worker/worker.go:89-116 | The loop offers the claimed events to the broker, each once and in order, all of them unless a MarkPublished failed, and ends with the worker idle |
| OutboxWorker.Worker.PublishOne | internal/worker/worker.go:98-107 | Offers the stored message once; taken, the row is published unless that statement failed; refused, the row is not published, and is scheduled again or dead-lettered unless that statement failed |
| OutboxWorker.Worker.FailOne | internal/worker/worker.go:98-101 | The record of a refusal, with others running before it |
| OutboxWorker.Worker.SettleAcked | internal/worker/worker.go:103-107 | Without an error the row of the acknowledged event is published now, with its last error cleared; an error is a fault |
| OutboxWorker.Worker.Run | internal/worker/worker.go:64-79 | Any number of ticks is as many rounds from idle to idle; if they are calm and never idle, the worker is alone, and there are as many as calls were left, every event is published or dead-lettered; without a fault every claim and every settling went through |
| Backoff.Delay | internal/worker/retry.go:8-26 | The loop computes the specified capped doubling of the effective initial backoff |
| Backoff.OverflowExactly | internal/worker/retry.go:20-26 | No doubling leaves 64 bits if and only if every uncapped delay under the cap leaves room to double, or, for a first delay above the cap, if it is not doubled or its double fits |
| Backoff.DelayIsCappedExponential | internal/worker/retry.go:19-26 | With both settings within half the range the delay equals min(initial * 2^steps, max) if and only if initial does not exceed max or there was a doubling; it never overflows |
| Backoff.DelayGrows | internal/worker/retry.go:19-26 | Later retries never wait less |
| Backoff.OverflowExample | internal/worker/retry.go:21-22 | Beyond half the range the delay can wrap to a negative number |
| Backoff.JitterBounds | internal/worker/retry.go:33-52 | Without a ratio the delay stays as it is; otherwise it lies between (1 - r) and (1 + r) times the base, in whole nanoseconds, but never below one millisecond |
| Backoff.JitterFollowsDraw | internal/worker/retry.go:42-51 | The draw 0 gives the lower end, a half the base itself, each from one millisecond on, and a larger draw never a shorter delay |
| Backoff.Defaults | internal/worker/retry.go:9-17 | Settings that are not positive stand for 30 seconds and 30 minutes, others for themselves |
| Backoff.NextRetryAt | internal/worker/retry.go:28-31 | Returns now plus the jittered delay of that retry, within the jitter's bounds around the capped delay |
| Backoff.RetryIsLater | internal/worker/retry.go:28-31 | The next attempt is strictly after now, and the wait fits in 64 bits |
| UserTokens.IssueKeepsOneValid | internal/service/auth.go:337-352 | Issuing keeps at most one valid token per user and type if and only if it revokes the type it creates or there was no valid token of that type |
| UserTokenProtocol.ResendExample | internal/service/auth.go:337-352 | From any initial state a registration and a resend with the password reset type leave two valid verification tokens |
| UserTokens.IssueLeavesExactlyOne | internal/service/auth.go:394-412 | Revoking the created type leaves exactly the new token valid and touches no other user or type |
| UserTokens.IssueKeepsOneToOne | internal/service/auth.go:146-175 | An issuing transaction keeps user tokens and notification rows in one-to-one correspondence by hash, user and type |
| UserTokenProtocol.InvStep | internal/service/auth.go:443-526 | The correspondence, and that a call past MarkUsed alone owns its used token, is kept by every step |
| UserTokenProtocol.ReachableOneToOne | internal/service/admin.go:186-219 | In every reachable state user tokens and notification rows correspond one to one |
| UserTokenProtocol.SpentAtMostOnce | internal/repository/impl/user_token_repository.go:49-67 | After one spending call has returned success for a token, no later return of the run is for that token |
| UserTokenRaces.LoserNeverReturns | internal/service/auth.go:506-508 | A call whose token was used before its own MarkUsed never returns success, in any run |
| UserTokenRaces.LoserStillWrites | internal/service/auth.go:497-508 | Such a call at UpdatePassword replaces the password if and only if the user row exists, and fails in every run afterwards |
| UserTokenRaces.FailureWroteExactly | internal/service/auth.go:486-517 | A call that ends in an error has written the user row if and only if it got past its first write, and the error takes nothing back |
| UserTokenRaces.LoserOverwrites | internal/service/auth.go:487-508 | From any initial state a run of two SetPassword calls on one token: the first succeeds, the second fails and its password stays |
| UserTokenProtocol.OneValidAlways | internal/repository/impl/user_token_repository.go:89-100 | When resending uses its own type, a user has at most one valid token of each type in every state of every run |
| UserTokenService.Store.FindByEmail | internal/repository/impl/user_repository.go:87-103 | Returns an undeleted user with that address, or none when there is none |
| UserTokenService.Store.CreateNotice | internal/service/publisher.go:79-108 | Adds exactly one notification row, or none; an empty topic is an error |
| UserTokenService.Store.FindValidToken | internal/repository/impl/user_token_repository.go:28-47 | Returns an unused, unrevoked, unexpired token of that hash and type; NotFound only if there is none |
| UserTokenService.Store.RevokeTokens | internal/repository/impl/user_token_repository.go:89-100 | Afterwards the user has no valid token of the type; only tokens that were valid, of this user and type change, and only by their revocation date |
| UserTokenService.Store.MarkTokenUsed | internal/repository/impl/user_token_repository.go:49-67 | Compare-and-swap on an unused token |
| UserTokenService.Store.UpdatePassword | internal/repository/impl/user_repository.go:118-131 | Sets the password of one undeleted user, or changes nothing |
| UserTokenService.Store.MarkEmailVerified | internal/repository/impl/user_repository.go:163-180 | Verifies and activates one undeleted user, or changes nothing |
| UserTokenService.Store.IssueInTx | internal/service/auth.go:394-423 | Commits the revocation, the token and its notification together, or nothing, whichever call fails |
| UserTokenService.Store.OpenAccountInTx | internal/service/auth.go:146-175 | The same with the user row inserted first |
| UserTokenService.Service.Register | internal/service/auth.go:146-182 | Success is exactly one committed account with its token and notification; failure wrote nothing; the token lives for 24 hours; without a fault it fails only if unprepared, without a topic, or if the address or the token was taken |
| UserTokenService.Service.CreateUser | internal/service/admin.go:134-226 | Success is exactly one committed account with its token and notification; failure wrote nothing; the token lives for 24 hours; without a fault it fails only if unprepared, without a topic, or if the address or the token was taken |
| UserTokenService.Service.ResendVerification | internal/service/auth.go:323-370 | Success is exactly one committed token with its notification, for the undeleted user that the call had read by the address; failure wrote nothing; the token lives for 24 hours; without a fault it fails only without a topic, for an address of nobody, or if the token was taken |
| UserTokenService.Service.ForgotPassword | internal/service/auth.go:372-433 | Sending is one committed token with its notification for the user that the call had read by the address; success without sending wrote nothing and means that the address then belonged to nobody or to a deleted user; the token lives for one hour; without a fault it fails only without a topic or if the token was taken |
| UserTokenService.Service.ApplyPasswordByToken | internal/service/auth.go:443-526 | Writes only for input that passes the checks, a token that was read as valid for this type, and an owner then read as not deleted and, for a first password, without one; the write stores this password for that owner and nothing takes it back; a first password that succeeds has also verified the address; success is a Return step for a used token with the presented hash; without a fault it fails only on bad input, a wrong type, no valid token at a reached instant, an unfit owner before the write, or an owner or token gone after it |
| UserTokenService.Service.ChangePassword | internal/service/auth.go:465-526 | The same from the token on |
| UserTokenService.Service.WriteAndSpend | internal/service/auth.go:486-517 | The same from the checked owner on |
| UserTokenService.Service.Write | internal/service/auth.go:489-500 | Without an error UpdatePassword was one step of its own on the state that everybody had reached; with one the call has written nothing, and without a fault the owner was gone |
| UserTokenService.Service.Settle | internal/service/auth.go:493-517 | From that step on the call has written, whatever it returns; success of a first password includes the verification; without a fault it fails only if the owner was gone or the token used |
| UserTokenService.Service.Verify | internal/service/auth.go:305-307 | Without an error the verification is written as a step of its own and the user is verified and active; without a fault it fails only if the user was gone |
| UserTokenService.Service.Spend | internal/service/auth.go:506-517 | Success is a Return step for a used token with the presented hash; without a fault it fails only if the token was used |
| UserTokenService.Service.VerifyEmail | internal/service/auth.go:283-321 | Acts only on a token that was read as valid for this type; spends it by a Return step, or answers success without writing when its owner was active already; without a fault it fails only if no such token was valid, the owner was gone or deleted, or the token used |
| UserTokenService.Service.Confirm | internal/service/auth.go:291-320 | The same from the token on |
| RoleProtocol.InvStep | internal/model/users.go:19-20 | Every step keeps all references from users and permissions to existing roles, and no deletion in flight is about a system role |
| RoleProtocol.RefsHoldAlways | internal/model/users.go:19-20 | In every later state every user, soft-deleted ones included, refers to an existing role |
| RoleProtocol.DeleteCommitsIff | internal/service/role.go:208-229 | The deletion commits if and only if the role is unused and no replacement is named, or another existing role is named and the role is used |
| RoleProtocol.DeleteMovesExactly | internal/repository/impl/user_repository.go:147-161 | A committed deletion moves exactly the users of the role to the replacement and removes exactly the role and its permissions |
| RoleProtocol.AssignEffect | internal/repository/impl/role_repository.go:86-95 | Assigning adds exactly this pair, if it is not there already |
| RoleProtocol.RemoveEffect | internal/repository/impl/role_repository.go:97-101 | Removing takes away exactly this pair, if it is there |
| RoleProtocol.SystemRolesAreFixed | internal/service/role.go:118-120 | A system role and its permission set never change in any run |
| RoleService.Store.ExistsByRoleIDUnscoped | internal/repository/impl/user_repository.go:44-55 | A yes means that some user row, soft-deleted ones included, has the role and that deleting it would be refused; a no that it would not |
| RoleService.Store.UpdateRoleByRoleIDUnscoped | internal/repository/impl/user_repository.go:147-161 | Moves all users of a role, soft-deleted ones included, to an existing role; NotFound only when there was none; a missing target is refused |
| RoleService.Store.DeleteRoleRow | internal/repository/impl/role_repository.go:103-107 | Removes an unreferenced role with its permission rows, or changes nothing |
| RoleService.Service.CreateRole | internal/service/role.go:47-90 | Success is one creation step on a reached state, with a non-empty unused code; failure wrote nothing, and without a fault means an empty input or a code that was taken |
| RoleService.Service.AssignPermission | internal/service/role.go:100-141 | Success leaves the permission assigned to an existing custom role, and all other pairs as they were; failure changes nothing, and without a fault means that the role is missing or a system role or the permission missing |
| RoleService.Service.RemovePermission | internal/service/role.go:143-184 | Success leaves the permission unassigned to an existing custom role, and all other pairs as they were; failure changes nothing, and without a fault means that the role is missing or a system role or the permission missing |
| RoleService.Service.DeleteInTx | internal/service/role.go:208-249 | Commits reassignment and deletion together or leaves all three tables as they were; without a fault it fails only if the transaction cannot commit on these tables |
| RoleService.Service.DeleteRole | internal/service/role.go:186-250 | Success is the deletion's commit on a reached state, despite stale reads before it; failure wrote nothing; without a fault it fails only if the role was missing, a system role, in use without a replacement, or the transaction could not commit |
| Cdc.ApplyAt | internal/infrastructure/cdc/user_event_handler.go:27-75 | A message decides the contents of the key it writes and of no other |
| Cdc.ApplyAllIsProjection | internal/infrastructure/cdc/audit_event_handler.go:27-63 | Applying a log once leaves under each key what the last message that writes it leaves there, and nothing without such a message |
| Cdc.LastDeleteLeavesNothing | internal/infrastructure/cdc/user_event_handler.go:60-75 | After a log that ends with a delete of a row, its document is absent from the index of its topic |
| Cdc.LastUpsertLeavesDocument | internal/infrastructure/cdc/user_event_handler.go:39-58 | After a log that ends with a read, create or update of a row that maps, its document is the image of that change |
| Cdc.OtherMessagesLeaveEntry | internal/infrastructure/cdc/user_event_handler.go:27-37 | Messages of other topics or rows, undecodable ones, unknown operations and unmappable rows leave the entry as it was |
| CdcTheorems.DeliverCurrent | internal/infrastructure/cdc/consumer.go:35-57 | A delivery leaves the key it writes current unless the index failed to store it and held something else; the other keys of its partition stay as they were |
| CdcTheorems.InvStep | internal/infrastructure/cdc/consumer.go:35-69 | Through deliveries, restarts and new changes a key that the pending redelivery does not write is current exactly when it was not missed |
| CdcTheorems.Converges | internal/infrastructure/cdc/consumer.go:35-69 | After any redeliveries and failures, once a partition is read to its end, a key of it holds what applying the log once would leave if and only if its latest delivery was stored or, when it failed, the index already held what it would have left |
| CdcTheorems.HoldsLastStored | internal/infrastructure/cdc/user_event_handler.go:39-75 | In every run the index holds, under each key, the outcome of the last delivery of it that was stored |
| CdcTheorems.ConvergesOnLastStored | internal/infrastructure/cdc/consumer.go:35-69 | At the end of its partition a key was not missed if and only if the last stored delivery left what the log's last change demands |
| CdcTheorems.SameLogsSameIndex | internal/infrastructure/cdc/consumer.go:35-69 | When the index never fails, two consumers that have read the same logs to their ends hold the same index, whatever their restarts and commits |
| CdcTheorems.NeverRetried | internal/infrastructure/cdc/consumer.go:59-68 | A key whose changes all lie below the commits keeps its contents in every run until its row changes again |
| CdcTheorems.FailedChangeIsLost | internal/infrastructure/cdc/consumer.go:47-57 | If any later commit of the partition passes a failed change before a redelivery of it is stored, its key keeps the old contents in every run until its row changes again |
| CdcTheorems.FailureExample | internal/infrastructure/cdc/consumer.go:47-57 | A concrete log after which everything is committed and the index is wrong |
| CdcConsumer.Cluster.Put | internal/infrastructure/elasticsearch/user_indexer.go:137-160 | Stores the document under its id, or not at all; success means stored |
| CdcConsumer.Cluster.Remove | internal/infrastructure/elasticsearch/user_indexer.go:162-183 | Removes the document, present or not, or changes nothing; success means removed |
| CdcConsumer.UserEventHandler.Handle | internal/infrastructure/cdc/user_event_handler.go:21-37 | An acknowledged delete with an id has removed that entry; an acknowledged read, create or update has stored the image; unknown operations and rows without an id are acknowledged without effect; undecodable values and unmappable rows are refused; anything else not acknowledged is a failed index call |
| CdcConsumer.UserEventHandler.HandleUpsert | internal/infrastructure/cdc/user_event_handler.go:39-58 | The same for upserts |
| CdcConsumer.UserEventHandler.HandleDelete | internal/infrastructure/cdc/user_event_handler.go:60-75 | The same for deletions |
| CdcConsumer.AuditLogEventHandler.Handle | internal/infrastructure/cdc/audit_event_handler.go:21-37 | The same for audit log changes |
| CdcConsumer.AuditLogEventHandler.HandleUpsert | internal/infrastructure/cdc/audit_event_handler.go:39-50 | The same for audit log upserts |
| CdcConsumer.AuditLogEventHandler.HandleDelete | internal/infrastructure/cdc/audit_event_handler.go:52-63 | The same for audit log deletions |
| CdcConsumer.Router.Handle | internal/infrastructure/cdc/router.go:22-29 | Sends the two known topics to their handlers and refuses any other without touching the index |
| CdcConsumer.Consumer.Consume | internal/infrastructure/cdc/consumer.go:47-68 | Handling and then committing one fetched message is one delivery step; no commit after a failure, and without a failing call a commit exactly for messages that can be handled |
| CdcConsumer.Consumer.Run | internal/infrastructure/cdc/consumer.go:29-70 | The loop is a run of the machine, and where a partition is read to its end exactly the keys that were not missed hold what the log demands; without failing calls every delivery is stored, and every round delivers a message unless there once was none left |

## Left out

- SQL isolation below serialisable transactions, deadlocks, and lost acknowledgements of database statements: a failing call has no effect.
- Column rounding of timestamps in the database, and clocks that differ between processes.
- JWT signing and parsing, bcrypt, SHA-256 and random generation: opaque, injective or fresh values.
- Rollback in VerifyEmail, SetPassword, ResetPassword and of LogIn's session row: the code does not give it.
- Recovery of outbox rows left in publishing by a crash or a failed statement: the code has none.
- An order of settling and publishing across a lost publisher acknowledgement: a Publish call that reports an error counts as a failure, although the broker may have the message.
- SessionTheorems.NothingAfterExpiry: does not cover the rotation itself, which may commit after the expiry; `SessionLimits` gives the run and the exact condition.
- SessionTheorems.ReuseIsContained: presence in the revocation store needs store calls that succeed and keys that are not lost, because errors are only logged.
- OutboxTheorems.Drains: one worker and no failing statement, and a clock that keeps passing some retry time; several workers share safety only.
- OutboxWorker.Worker.Run: the endless ticker loop is cut after any number of ticks; so are the rounds of CdcConsumer.Consumer.Run.
- CdcConsumer.Consumer.Run: one consumer of the group; a partition that moves to another consumer while a message is being handled is not modelled.
- Backoff.JitterBounds: reals instead of floating point.
- UserTokenService.Service.Register: normalisation, validation, hashing and the lookups of user name and role are one flag that enters as a parameter; the same holds for CreateUser.
- Error codes: a refusal carries no more than the condition that its contract lists.
- Columns that no property mentions: user agent, IP address, last use, audit metadata, update times.
- The document mappers and the date conversion: a function from row image to document that may refuse.
- Notification payloads other than the token they carry, and the expiry they announce.
- Roles and permissions listing, profile update, user listing and pagination, user deletion and restoration beyond the soft-delete flag.
- gRPC servers, gateway, generated code, configuration, metrics export, logging, health checks, the rate limiter.
