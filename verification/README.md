# Rate limits, cached users, shutdown and one-time credentials: a Dafny model

This project models the shared-state core of the Go backend: the two Redis rate limiters and the Retry-After path, the
cached user store over its two SQL tables, the shutdown protocols, and the one-time passwords and OAuth states. It
states what that core promises over every input, every run and every schedule. `dafny verify dfyconfig.toml` checks all
of it.

## How the code is modelled

Code that updates state in place is a class whose methods say the whole new state through a function of the old one:
the stores of both limiters, the OTP and OAuth state stores, the user cache, the user tables, the cached store, the
rate-limit middleware, the stream metrics and the observed stream. The promises are then proved about those functions.
Where several goroutines or requests interleave, a module has a state machine: `Enabled` and `Apply` give the steps of
every actor, `After` the state that a schedule leads to, and an inductive invariant holds of all of them.

| file | models |
|---|---|
| `token_bucket.dfy`, `token_bucket_runs.dfy`, `token_bucket_store.dfy` | the token bucket: its log rule, its runs, its script and Go method |
| `sliding_window.dfy`, `sliding_window_runs.dfy`, `sliding_window_store.dfy` | the sliding window, its runs, its scripts and Go methods |
| `tiered_window.dfy`, `tiered_window_runs.dfy`, `tiered_rejections.dfy` | calls on several keys: limits, expiry, and what a rejected call costs |
| `rate_limit_http.dfy` | the way from a bucket decision to the HTTP answer and its Retry-After header |
| `users.dfy`, `cached_users.dfy` | the users and oauth_connections tables, and the cache-aside store over them |
| `health_reporter.dfy`, `lifecycle.dfy` | the gRPC health reporter, and the process around it |
| `stream_metrics.dfy` | the active-stream gauge of observed client streams |
| `one_time_records.dfy`, `otp_protocol.dfy`, `otp_outcomes.dfy`, `otp_survival.dfy`, `oauth_protocol.dfy` | single-use records, the two protocols over them, what a verification comes to, and when a code survives |
| `key_space.dfy` | the six key families that share one Redis client |

Assumptions, all of them visible in the contracts:

- Each Lua script, Redis command and SQL statement is one atomic step. Each remote call also takes a `Link`: it is
  answered, it never arrives, or it takes effect and its answer is lost.
- Arithmetic is exact. A bucket's tokens are a real number; the level is tokens times the refill interval, so it counts
  milliseconds. Durations are whole nanoseconds, cut to milliseconds toward zero as Go cuts them.
- A key's parameters do not change during a run. Clock readings do not go back, except in `LedgerUnderAnyClock`, which
  takes any readings. A sliding-window member is new, as its random part makes it.
- Clock readings, random members, codes and the values of the identity column are parameters. The hash is any function,
  so the credential properties speak of equal hashes. Values that pass through JSON come back unchanged.
- Every store has a map of its own, under its own suffixes; `SharedRunIsSixRuns` is the reason this loses nothing.
- In the protocols a record may expire at any moment, which covers every time to live.

What the code does where one might expect otherwise, and exactly when:

- A tiered call that is rejected has still charged the tiers before the one that rejects it, so it can make a later call
  fail. It is free exactly when its first tier was full (`UnobservableIffFirstTierWasFull`).
- A request without a client address gets the too-many-requests error, without a Retry-After header, and is counted as
  `backend_unavailable`; no other request gets that answer without the header (`GlobalRateLimitMiddleware.Handle`).
- After cancellation the reporter's select may still pick the ticker, and a reporter that gave up waiting can leave a
  check running while Redis and the pool close (`CheckMayOutliveResources`). `CancelledIsQuietIff` and
  `ClosedIsQuietIff` say in which states no more work follows; a nil answer of `Shutdown` ensures one of them.
- When sending an email fails, the cleanup deletes whatever code the email has then, perhaps a newer one that was already
  delivered. A live code is safe exactly when no SendCode for its email is under way
  (`CodeSurvivesIffNoSendIsPending`).
- An OAuth state does not record its provider, so a callback may exchange with another configured one. That cannot
  happen exactly when no two are configured (`ProvidersMatchIffOnlyOne`).

## Model

| member | source | states |
|---|---|---|
| TokenBucket.TwoNumbersDecideAsTheLog | internal/infra/kvstore/redis/store/token_bucket_store.go:20-43 | On every nondecreasing run, a sequence of decisions obeys the rule over the whole log of past calls (every suffix of it has room for one more token) if and only if it is the sequence the two stored numbers produce. |
| TokenBucket.LevelIsLeastSlack | internal/infra/kvstore/redis/store/token_bucket_store.go:29-32 | The level a call finds is the least slack over all suffixes of the call history, and some suffix attains it. |
| TokenBucketRuns.RejectedCallIsUnobservable | internal/infra/kvstore/redis/store/token_bucket_store.go:29-43 | Taking any rejected call out of a run leaves every other call's decision, hint and remaining count unchanged. |
| TokenBucketRuns.ExpiryIsTransparent | internal/infra/kvstore/redis/store/token_bucket_store.go:24-44 | A store that drops keys once their time to live has passed answers and stores as one that never expires. |
| TokenBucketRuns.TimeToLiveIsLeast | internal/infra/kvstore/redis/store/token_bucket_store.go:44 | Losing the key after an idle time goes unnoticed for every possible bucket if and only if the idle time is at least capacity times the refill interval. |
| TokenBucketRuns.LedgerUnderAnyClock | internal/infra/kvstore/redis/store/token_bucket_store.go:29-43 | For any clock readings, backward jumps included: level, spending and overflow add up to a full bucket plus the forward clock steps, so admissions are bounded by them, and the level stays between empty and full. |
| TokenBucketRuns.RetryHintIsExact | internal/infra/kvstore/redis/store/token_bucket_store.go:34-41 | In a run, while nothing is admitted after a rejection, a call succeeds if and only if it comes no earlier than the hint says. |
| TokenBucketRuns.EarlyPollsAreRejected | internal/infra/kvstore/redis/store/token_bucket_store.go:34-41 | After a rejection every call before the hinted time is rejected too. |
| TokenBucketRuns.RemainingIsExact | internal/infra/kvstore/redis/store/token_bucket_store.go:36-46 | After a call, exactly as many further calls at the same instant are allowed as it reported remaining. |
| TokenBucketStores.TokenBucketStore.Script | internal/infra/kvstore/redis/store/token_bucket_store.go:14-46 | The script on stored tokens is one step of the level arithmetic for that key, with the same decision, hint and remaining count; it renews the key's time to live and touches no other key. |
| TokenBucketStores.TokenBucketStore.Allow | internal/infra/kvstore/redis/store/token_bucket_store.go:54-80 | Invalid arguments change nothing; an unanswered call fails, with or without its effect. An answered one is allowed iff the level found holds a token, which it then takes; remaining counts the whole tokens left; and a rejection names the least number of milliseconds that brings the next one. |
| RateLimitHttp.RetryAfterSeconds | internal/delivery/http/middleware/ratelimit/global_rate_limit_middleware.go:56-63 | The header is the least positive whole number of seconds that is not shorter than the wait. |
| RateLimitHttp.RetryAfterHeaderIsExact | internal/delivery/http/middleware/ratelimit/global_rate_limit_middleware.go:43-63 | End to end: after a rejection with header n a call n seconds later is allowed, and among calls whole seconds later exactly those from n on are. |
| RateLimitHttp.HeaderSurvivesRounding | internal/delivery/http/middleware/ratelimit/global_rate_limit_middleware.go:56-63 | For a wait of whole milliseconds, taking the ceiling of floating-point seconds gives the same header under any rounding error below a millisecond that leaves whole seconds exact. |
| RateLimitHttp.AllowIP | internal/usecase/globalratelimit/global_rate_limit_usecase.go:39-49 | An empty address is refused without a lookup, a failed lookup is an unavailable backend, and otherwise the address's own bucket decides and every other bucket is untouched. |
| RateLimitHttp.GlobalRateLimitMiddleware.Handle | internal/delivery/http/middleware/ratelimit/global_rate_limit_middleware.go:35-54 | From any valid store: a request passes iff the level found holds a token, and on a nondecreasing run iff the whole log of past calls allows it; a rejection's header is the least number of seconds after which the bucket it leaves admits a call; a too-many-requests answer lacks the header iff there is no address; the bucket takes one step even when the answer is lost, and no other bucket changes; each request is counted under exactly one outcome. |
| SlidingWindow.StoredSetIsTheLastWindow | internal/infra/kvstore/redis/store/sliding_window_store.go:17-34 | On every run the stored set is exactly the admitted events in (now - window, now], holds at most limit of them, and no window of the whole history holds more than limit admissions. |
| SlidingWindow.AdmitSees | internal/infra/kvstore/redis/store/sliding_window_store.go:17-34 | A call's outcome, seen from the admission log: admitted iff the last window has room, with the places left, else rejected with the time until the oldest event leaves. |
| SlidingWindow.RecentIsExact | internal/infra/kvstore/redis/store/sliding_window_store.go:18 | A purge keeps exactly the events whose score is above the cutoff. |
| SlidingWindowRuns.AdmissionIsMaximum | internal/infra/kvstore/redis/store/sliding_window_store.go:17-34 | What was admitted respects the limit in every window, and no choice of requests that does is larger. |
| SlidingWindowRuns.RejectedCallIsUnobservable | internal/infra/kvstore/redis/store/sliding_window_store.go:18-33 | Taking any rejected call out of a run leaves every other call's decision, hint and remaining count unchanged. |
| SlidingWindowRuns.DropIsUnobservable | internal/infra/kvstore/redis/store/sliding_window_store.go:32 | Losing the set before a call changes its outcome if and only if the last admission is less than one window old. |
| SlidingWindowRuns.ExpiryIsTransparent | internal/infra/kvstore/redis/store/sliding_window_store.go:18-32 | A store whose keys expire one window after their last admission yields the same run as one whose keys never expire. |
| SlidingWindowRuns.RetryHintIsExact | internal/infra/kvstore/redis/store/sliding_window_store.go:22-28 | While nothing is admitted after a rejection, a call succeeds if and only if it comes no earlier than the hint says. |
| SlidingWindowStores.SlidingWindowStore.AdmitKey | internal/infra/kvstore/redis/store/sliding_window_store.go:17-34 | The Lua function purges and extends the key's set as the model's admission does, renews the key only on admission, and touches no other key. |
| SlidingWindowStores.SlidingWindowStore.Allow | internal/infra/kvstore/redis/store/sliding_window_store.go:61-91 | Invalid arguments and missing randomness change nothing. Otherwise, for any stored set: allowed iff fewer than limit events lie in the window, reporting the places left and adding the member once with its score; else the set is only purged and the hint is the time until its first event leaves. |
| SlidingWindowStores.SlidingWindowStore.TieredScript | internal/infra/kvstore/redis/store/sliding_window_store.go:42-54 | The script charges the tiers that its argument list encodes in order up to the first full one, numbers that one from 1, and renews exactly the charged keys. |
| SlidingWindowStores.SlidingWindowStore.AllowTiered | internal/infra/kvstore/redis/store/sliding_window_store.go:92-140 | For any number of tiers with distinct keys: allowed iff every tier has fewer than its own limit of events in its own window; a rejection names the first tier without room and the time until that key's first event leaves; the tiers before it are charged and renewed for their own windows, it is purged, and every other key is as it was. The first invalid tier is named and nothing changes. |
| TieredWindow.FirstFullTierRejects | internal/infra/kvstore/redis/store/sliding_window_store.go:47-52 | With distinct keys a call is allowed iff every tier has room, and a rejection carries the number and the hint of the first full tier. |
| TieredWindow.ReachedTierIsCharged | internal/infra/kvstore/redis/store/sliding_window_store.go:47-52 | Every tier the call reaches, the rejecting one included, is left as its own admission or rejection leaves it, even when a later tier rejects. |
| TieredWindowRuns.RejectionIsFreeIffFirstTierIsFull | internal/infra/kvstore/redis/store/sliding_window_store.go:47-52 | With distinct keys and a new member, a rejected call leaves what later calls find on every tier iff its first tier was full; it shows on exactly the tiers before the one that rejects. |
| TieredWindowRuns.FirstTierRejectionIsUnobservable | internal/infra/kvstore/redis/store/sliding_window_store.go:42-54 | Taking a call rejected by its first tier out of any run leaves every other call's verdict and all admissions as they were. |
| TieredRejections.UnobservableIffFirstTierWasFull | internal/infra/kvstore/redis/store/sliding_window_store.go:42-54 | A rejected call, plain or tiered, changes no other call's verdict, whatever calls follow, if and only if its first tier was full when it came. |
| TieredWindowRuns.LaterTierRejectionIsObservable | internal/infra/kvstore/redis/store/sliding_window_store.go:47-52 | A run of three calls in which a call rejected by its second tier turns the next call from allowed to rejected. |
| TieredWindow.OtherKeysUntouched | internal/infra/kvstore/redis/store/sliding_window_store.go:47-52 | Tiers after the one that rejects, and all other keys, keep what they held. |
| TieredWindow.EveryKeyHolds | internal/infra/kvstore/redis/store/sliding_window_store.go:16-54 | Over any run of plain and tiered calls each key's set tracks all admissions charged to it, and no window of those exceeds its limit. |
| TieredWindow.AllowedCallsWithinEveryTier | internal/infra/kvstore/redis/store/sliding_window_store.go:42-54 | Over any run the allowed calls that name a key never exceed its limit in any of its windows. |
| TieredWindowRuns.DropIsUnseen | internal/infra/kvstore/redis/store/sliding_window_store.go:32 | Losing the sets of some keys before a call goes unseen by it and all later ones iff none of those keys was charged within its window. |
| TieredWindowRuns.ExpiryIsTransparent | internal/infra/kvstore/redis/store/sliding_window_store.go:18-54 | Over any run of plain and tiered calls, a store whose keys expire one window after their last admission gives the verdicts of one whose keys never expire. |
| Users.UserTables.CreateUser | internal/infra/db/postgres/sqlc/gen/user.sql.go:12-16 | The insert fails iff some row has the email, and otherwise adds one active row under a new id and answers with it; no other row or link changes. |
| Users.UserTables.UpsertOAuthConnection | internal/infra/db/postgres/sqlc/gen/user.sql.go:69-95 | The upsert answers with a row and makes the account lead to it: the user it led to before, else the one with the passed email, else the one new row, which has that email; no other row or link changes. |
| Users.StatementPreserves | internal/infra/db/postgres/sqlc/gen/user.sql.go:12-95 | No statement changes, removes or relinks what was there, whether or not its answer arrives. |
| Users.LookupsAreExact | internal/infra/db/postgres/sqlc/gen/user.sql.go:31-67 | A lookup by id or email answers with a user iff that user is a row with that id or email. |
| Users.LinkHidesOnly | internal/infra/db/postgres/sqlc/gen/user.sql.go:24-29 | A lost answer hides the effect of a statement, and a lost request has none. |
| Users.EmailsAreUnique | internal/infra/db/postgres/sqlc/schema/auth.sql:1-17 | Two rows with one email are the same row. |
| Users.AccountLinkIsStable | internal/infra/db/postgres/sqlc/gen/user.sql.go:69-95 | Once linked, a provider account leads to one existing user for good: every later upsert of it returns that user and changes nothing, whatever email it passes. |
| CachedUsers.UserCacheStore.GetByID | internal/infra/cache/redis/store/user_store.go:28-42 | A missing key and a failed read both yield no user; otherwise the entry. |
| CachedUsers.CachedUserStore.GetByID | internal/infra/composed/user/user_cached_store.go:37-62 | The answer is the base's answer whether or not the cache hit, and the cache ends as it was or with that row filled in. |
| CachedUsers.CachedUserStore.CreateByEmail | internal/infra/composed/user/user_cached_store.go:69-71 | The base creates the user, nothing existing changes, and the cache stays coherent. |
| CachedUsers.CachedUserStore.UpsertOAuthUser | internal/infra/composed/user/user_cached_store.go:73-82 | The base upserts the user, nothing existing changes, the user's entry goes unless the delete failed, and the cache stays coherent either way. |
| CachedUsers.GetByIDStepsAreTheMethod | internal/infra/composed/user/user_cached_store.go:37-62 | Taken alone, the interleaving model's steps of GetByID do to the cache, and answer, what the method promises. |
| CachedUsers.UpsertStepsAreTheMethod | internal/infra/composed/user/user_cached_store.go:73-82 | Taken alone, the steps of UpsertOAuthUser do to tables and cache what the method promises. |
| CachedUsers.CreateStepIsTheMethod | internal/infra/composed/user/user_cached_store.go:69-71 | The one step of CreateByEmail does what the method promises and leaves the cache alone. |
| CachedUsers.CachedStoreRefinesBase | internal/infra/composed/user/user_cached_store.go:37-82 | Under every interleaving, with failing caches and lost entries, every entry equals its row and every GetByID that answers returns what the base returns, from then on when it found a user. |
| HealthReporter.NilShutdownMeansQuiet | internal/delivery/grpc/service/health/standard_health_reporter.go:136-158 | Once any Shutdown has returned nil, in every continuation no background readiness check or publication is running and none starts. |
| HealthReporter.ClosedAtMostOnce | internal/delivery/grpc/service/health/standard_health_reporter.go:82-158 | Each channel is closed at most once, the health server is shut down at most once and before any Shutdown returns, and outside a publication all services were last told the same. |
| HealthReporter.ServicesAreToldTheLastResult | internal/delivery/grpc/service/health/standard_health_reporter.go:120-133 | In every schedule, between publications every service has been told the result of the last readiness check, or not serving before the first, and during one those already reached have. |
| HealthReporter.ShutdownAnswers | internal/delivery/grpc/service/health/standard_health_reporter.go:136-158 | Counted over the schedule, each channel is closed at most once and the health server shut down at most once; a Shutdown answers with an error iff its own context expired while it waited, and without a Start it does not wait but answers nil. |
| HealthReporter.CancelledIsQuietIff | internal/delivery/grpc/service/health/standard_health_reporter.go:89-107 | Once cancelled, no continuation holds another background check or publication iff the goroutine does not exist, has not yet tested its context, or is past its loop. |
| HealthReporter.ErrorShutdownMayNotBeQuiet | internal/delivery/grpc/service/health/standard_health_reporter.go:99-106 | A schedule in which Shutdown returned an error, the context is cancelled and a readiness check is still running. |
| Lifecycle.ExitAfterOneShutdown | internal/app/runtime/lifecycle.go:36-58 | For every order of events RunLifecycle returns only after exactly one Shutdown, if it has one, and its code is 0 iff Start and every part of that Shutdown succeeded. |
| Lifecycle.ExitCodeTellsTheRun | internal/app/runtime/lifecycle.go:36-58 | The code is 0 iff the schedule holds no failed Start and, with a Shutdown, no server, Redis or telemetry part that failed and no reporter that gave up; otherwise it is 1. |
| Lifecycle.StepsAreInOrder | internal/app/grpcapi/grpcapi_app.go:56-73 | In every schedule the closing goroutine shuts down the reporter, then the server, closes Redis, then the pool, and stops telemetry, each at most once and all before the process exits; the main one starts the reporter, serves, stops and joins. |
| Lifecycle.AtMostOneShutdown | internal/app/runtime/runtime.go:43-51 | Shutdown finishes at most once, the reporter's Shutdown has returned before Redis closes, and Redis closes before the pool. |
| Lifecycle.ClosedIsQuietIff | internal/app/runtime/runtime.go:43-51 | Once Redis is closed, no background check or publication follows iff the reporter's goroutine does not exist, has not tested its context, or is past its loop; that is so whenever the reporter's Shutdown did not fail. |
| Lifecycle.CheckMayOutliveResources | internal/app/grpcapi/grpcapi_app.go:61-72 | A schedule in which the reporter's Shutdown gave up and Redis and the pool close under a running readiness check. |
| Lifecycle.NoCheckOverlapsClosing | internal/app/grpcapi/grpcapi_app.go:61-73 | From a nil return of the reporter's Shutdown on, and so before, while and after Redis and the pool close, no background readiness check runs or starts. |
| Lifecycle.ClosingFollowsReporter | internal/app/grpcapi/grpcapi_app.go:61-72 | Resources closed without a recorded reporter failure were closed in quiet, and an exit code of 0 means quiet. |
| Lifecycle.RunLifecycleReturns | internal/app/runtime/lifecycle.go:25-58 | In every schedule the goroutines of RunLifecycle take at most 21 steps, and they are out of steps exactly when it has returned, so it returns whatever the background does. |
| Lifecycle.CleanExit | internal/app/runtime/lifecycle.go:36-58 | A schedule that serves, is signalled, closes everything and exits with code 0, so the promises about clean exits are about something. |
| StreamMetrics.RequestMetrics.StreamStarted | internal/infra/grpcclient/interceptor/observability/observability_request_metrics.go:43-45 | The gauge of those labels goes up by one and nothing else changes. |
| StreamMetrics.RequestMetrics.StreamFinished | internal/infra/grpcclient/interceptor/observability/observability_request_metrics.go:48-51 | The gauge of those labels goes down by one and the request is recorded with its status and duration. |
| StreamMetrics.RequestMetrics.Record | internal/infra/grpcclient/interceptor/observability/observability_request_metrics.go:33-40 | Under the call's labels and its status: one more request and its duration, and one more error unless the status is OK. |
| StreamMetrics.ObservedClientStream.AfterMessage | internal/infra/grpcclient/interceptor/observability/observability_interceptor.go:115-167 | Only the first failing message of a stream finishes it, and the end of the stream counts as status OK. |
| StreamMetrics.GaugeCountsOpenStreams | internal/infra/grpcclient/interceptor/observability/observability_interceptor.go:95-167 | For any streams and any interleaving each stream is finished and recorded at most once, the gauge of every label set is the number begun minus the number finished, and the counters and the histogram of every status count its recorded streams. |
| StreamMetrics.FinishedIffFailed | internal/infra/grpcclient/interceptor/observability/observability_interceptor.go:110-167 | Once no goroutine is inside the interceptor, a stream has been finished and recorded, once, iff it failed or ended, with a status it failed with, or OK when it ended with io.EOF. |
| OneTimeRecords.StoresAreConserved | internal/infra/kvstore/redis/store/otp_store.go:15-27 | In every lawful history each store of a key was taken once, went unused, or is the live record. |
| OneTimeRecords.TakenWasLatestStored | internal/infra/kvstore/redis/store/otp_store.go:15-27 | Whatever was taken is what the latest store of that key put there, with nothing in between. |
| OneTimeRecords.TakingsNeedStoreBetween | internal/infra/kvstore/redis/store/otp_store.go:15-27 | No replay: between two takings of one key there is a store of it, of the value the second one took. |
| OneTimeRecords.TakenIsGone | internal/infra/kvstore/redis/store/oauth_state_store.go:17-24 | After a record is taken or removed there is none under its key until the next store. |
| OneTimeRecords.OTPStore.Store | internal/infra/kvstore/redis/store/otp_store.go:38-43 | The email's record becomes the hash and the history gains this store, or nothing when the command is lost; only an answered call succeeds. |
| OneTimeRecords.OTPStore.Consume | internal/infra/kvstore/redis/store/otp_store.go:45-65 | A match, and only a match, removes the record and adds a taking to the history; missing, mismatch and match are told apart by the record there was, and an unanswered call is an error. |
| OneTimeRecords.OTPStore.Delete | internal/infra/kvstore/redis/store/otp_store.go:67-72 | The record is gone unless the command is lost, and the history gains a removal if there was one. |
| OneTimeRecords.OAuthStateStore.Store | internal/infra/kvstore/redis/store/oauth_state_store.go:35-40 | The state's record becomes the hash and the history gains this store, or nothing when the command is lost; only an answered call succeeds. |
| OneTimeRecords.OAuthStateStore.Consume | internal/infra/kvstore/redis/store/oauth_state_store.go:43-52 | Whatever is stored is removed, answered and added to the history as taken, unless the command is lost; a missing state is told apart from an error. |
| OtpProtocol.OtpIsConserved | internal/usecase/auth/otp/otp_usecase.go:93-181 | Over every interleaving identities issued for an email never exceed its matches, matches never exceed stores, every store was matched once, went unused or is live, and each identity names a row with that email. |
| OtpProtocol.MatchUsesLatestStore | internal/usecase/auth/otp/otp_usecase.go:144-153 | Each match took what the latest store of that email had put there, untouched in between. |
| OtpProtocol.VerifyMatchesExactly | internal/usecase/auth/otp/otp_usecase.go:144-154 | A verification goes on exactly when the last event about that email stored the hash of the presented code; otherwise it leaves every record as it was. |
| OtpOutcomes.MatchingVerificationIdentifies | internal/usecase/auth/otp/otp_usecase.go:144-181 | From any reachable state, a request that presents the live code gets an identity with that email once its calls are answered, of the one existing user, if active, or of a new one, and the code is gone. |
| OtpOutcomes.KnownUserIsIdentified | internal/usecase/auth/otp/otp_usecase.go:155-181 | A match of a known email identifies that user iff the account is active. |
| OtpOutcomes.NewUserIsIdentified | internal/usecase/auth/otp/otp_usecase.go:160-181 | A match of an unknown email creates and identifies one active user, unless the email was taken meanwhile, when nothing is created or issued. |
| OtpOutcomes.CodeIsTouchedOnlyBy | internal/usecase/auth/otp/otp_usecase.go:113-153 | A code goes only by expiry, a match or the cleanup of a failed send, and is replaced only by the hash of another stored code. |
| OtpOutcomes.CleanupFollowsFailedSend | internal/usecase/auth/otp/otp_usecase.go:118-123 | A request cleans up only right after its own email could not be sent. |
| OtpOutcomes.SendLeavesTheCode | internal/usecase/auth/otp/otp_usecase.go:118-126 | Sending changes no code, user or identity, and only a failed send goes on to clean up. |
| OtpOutcomes.LostAnswers | internal/usecase/auth/otp/otp_usecase.go:113-154 | Storing and consuming have their effect unless the command is lost, and the request goes on only when answered. |
| OtpSurvival.CodeSurvivesIffNoSendIsPending | internal/usecase/auth/otp/otp_usecase.go:113-123 | A live code stays until a match takes it, through every continuation without a further SendCode for its email or its expiry, iff no SendCode for that email is still under way. |
| OtpSurvival.CodeCanVanish | internal/usecase/auth/otp/otp_usecase.go:113-123 | Whenever a SendCode for an email is under way, some continuation removes the email's record without a match. |
| OtpProtocol.FailedSendMayDeleteNewerCode | internal/usecase/auth/otp/otp_usecase.go:113-123 | A schedule in which an older request's failed email removes a newer code that was sent. |
| OtpProtocol.FlowCompletes | internal/usecase/auth/otp/otp_usecase.go:93-181 | For every email and code there is a schedule in which a new user sends the code back and gets an identity with that email. |
| OAuthProtocol.ExchangesNeverExceedStores | internal/usecase/auth/oauth/oauth_usecase.go:92-148 | Over every interleaving exchanges per state never exceed the times it was taken, nor these its stores, and every store is accounted for. |
| OAuthProtocol.ExchangeIsBound | internal/usecase/auth/oauth/oauth_usecase.go:134-148 | Before each exchange an Authorize stored the hash of the presented binding under that state, as the latest store when it was taken; section 10.12 of RFC 6749 and section 4 of RFC 7636 rest on this. |
| OAuthProtocol.AnyBindingSpendsTheState | internal/usecase/auth/oauth/oauth_usecase.go:134-146 | A callback that reaches the store spends the state whatever its binding, exchanges exactly when the binding's hash is the live one, and leaves other states alone. |
| OAuthProtocol.ProvidersMatchIffOnlyOne | internal/usecase/auth/oauth/oauth_usecase.go:101-148 | Every exchange of every schedule is with a provider its state was issued for iff no two providers are configured, because the provider is not part of what is stored. |
| OAuthProtocol.FlowCompletes | internal/usecase/auth/oauth/oauth_usecase.go:92-148 | For every state, binding, code and configured providers there is a schedule in which the browser comes back with both and reaches the exchange. |
| KeySpace.KeysNeverCollide | internal/infra/kvstore/redis/store/otp_store.go:13 | For all suffixes two keys are equal iff family and suffix are. |
| KeySpace.UserKeysAreInjective | internal/infra/cache/redis/store/user_store.go:28-29 | Two user ids have one cache key iff they are equal, negative ids included. |
| KeySpace.DecimalReadsBack | internal/infra/cache/redis/store/user_store.go:29 | Round trip: the decimal notation of a number stands for that number. |
| KeySpace.SharedRunIsSixRuns | internal/app/httpapi/httpapi_stores_wiring.go:22-32 | Every run of the stores on one client gives each operation the reply, and each key the entry, of the same run on six maps. |
| KeySpace.EveryKeyHasAFamily | internal/app/httpapi/httpapi_stores_wiring.go:22-32 | Every key on the client is one of the six families' keys, and in that family's own map. |

## Left out

- HealthReporter.NilShutdownMeansQuiet: the goroutines are steps on values, not methods on a shared object, so update in place and aliasing are not part of it; the same holds for the machines of Lifecycle, StreamMetrics, CachedUsers, OtpProtocol and OAuthProtocol.
- TokenBucketStores.TokenBucketStore.Script: Lua doubles and the digits that tostring keeps are replaced by exact reals.
- RateLimitHttp.RetryAfterSeconds: the seconds are an exact real; HeaderSurvivesRounding says which rounding errors change nothing, but floating-point arithmetic itself is not modelled.
- Lifecycle.RunLifecycleReturns: how long serving or a part of Shutdown takes is left open; their ending is a step that is always possible and whose time is not modelled.
- The health server's own handling of statuses set after its shutdown; `published` records what the reporter told it.
- The user lookup and upsert after a successful OAuth exchange; AccountLinkIsStable covers what that upsert does.
- Session values and their expiry; only the session key family is modelled.
- PostgreSQL isolation between overlapping statements, column lengths, timestamps, and writes to users from outside this program.
- JSON encoding, hashing, random generation, email delivery, the provider's side of the code exchange.
- Error-code mapping and HTTP status, configuration, TLS, access logs and traces.
- The HTTP application's own start and stop, and the Runtime without a Redis client.
- Retry and normalisation helpers, request ids, the profile selector and the bootstrap script.
