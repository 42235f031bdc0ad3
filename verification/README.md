# Verified models of summer's rate limiter, sessions, SQL tools and menu service

This project models five parts of the repository in Dafny and proves what they
are for, over all inputs and whole runs.

1. **The in-memory rate limiter** (`I64`, `RateConfig`, `CacheKeys`, `Gcra`, `GcraMetadata`,
   `CasLoop`, `GcraRuns`, `RatePolicy`, `Refunds`, `RateLimitEngine`, `ReservationLedger`,
   `ConcurrentRefunds`, `SlotScheduler`, `SlidingWindow`). The 64-bit saturating and wrapping
   arithmetic is written out and shown never to act on a reachable state. The
   load / compare-and-swap loops are methods on shared cells, with the other
   threads as a parameter, and also a state machine whose every interleaving is
   proved linearizable. On top stand the admission bound over whole histories and for
   concurrent callers, judged by what they were told and gave back,
   the exactness of `remaining`, `retry_after` and `reset_after`, what refunds
   and reservations do, the slot scheduler as GCRA with unit costs, and the
   timestamp log as the exact window of accepted requests.
2. **Sessions over a TTL store** (`Decimal`, `SessionKeys`, `MemoryStorage`,
   `SessionSpec`, `SessionManager`, `SessionRuns`, `SessionTokens`, `SessionPairs`,
   `SessionLife`, `RefreshLife`, `SessionExamples`, `SessionDriver`). The store and the
   manager are classes; runs are sequences of operations at clock readings that never go
   back, and every call on the manager continues a run. The answer to every access token is
   given exactly by the operations of the run, and so is that to every refresh token until
   a session under a name with a colon is refreshed; until then refresh keys match device
   records. Revocation, the device limit and single use of refresh tokens hold over every
   run, and a ban holds for its lifetime unless a later step rewrites the deny entry.
3. **The filter-to-SQL compiler** (`SqlConditions`, `FilterSpec`, `FilterLaws`,
   `UpdateSpec`, `QueryBuilder`). The emitted clause is a list of tokens. A
   recursive-descent parser with SQL's precedence reads it back as the filter
   tree, and its three-valued value on every row is the filter's own meaning,
   for every database behaviour of casts and comparisons.
4. **The SQL scanner and its gates** (`Text`, `SqlScanner`, `SqlScannerLaws`,
   `SqlGates`, `SqlCase`, `SqlVerdicts`). Scanning composes at boundary characters and undoes
   rendering, and the read-only and exec gates depend on a statement's bare words alone,
   whatever their case.
5. **Menu synchronisation, permission bits and enum variant names**
   (`SyncPlan`, `MenuSpec`, `MenuTasks`, `MenuSync`, `MenuFields`, `MenuReplan`,
   `MenuKeys`, `MenuKeyClashes`, `PlanKeyClashes`, `MenuExamples`, `MenuValidation`, `MenuPlanning`,
   `MenuDomain`, `MenuBits`, `BitHandouts`, `MenuTree`, `PermissionBitmap`, `PermissionTokens`,
   `Counting`, `VariantNames`). Applying a configuration puts its tree into the table
   field by field and does what its plan lists and nothing else, planning again lists no
   change, bit positions stay distinct and the permission map current over every run, the
   menu tree is finite and exact even beside parent cycles, and the permission bitmap
   decodes to what was encoded, also later unless one of its positions was handed out again.

Where the source is imperative (atomic cells, the timestamp deque, the storage
map, the pushed parameter vector, the scanner's index, the menu table, the bitmap
bytes) the model is a class or a method with a loop, proved equal to a
specification function; the theorems are about that function.

Assumptions that the source makes are preconditions: clocks in [0, 2^62) for the
limiter, and for the slot scheduler a `max_wait` below 2^61 ms or at most 2^35
requests; non-decreasing clock readings at the lock for the sliding window and for
sessions; no cache eviction; reservations that were really charged.

Results where the source falls short of its own promise, each with an input and its
exact condition:

- `release` can give back more than it took: `Refunds.ReleaseMayOverpay` is the
  case, and `Refunds.RefundIsExactIffBusy` says when a refund is exact.
- The slot scheduler equals GCRA with cost 1 in every decision and state, but its
  `retry_after` is GCRA's only for `leaky_bucket` (`SlotScheduler.SameRetryIffLeaky`),
  and is the least wait only for a `max_wait` of 0 (`SlotScheduler.RetryIsLeastWaitIff`).
  `SlotScheduler.RetryTimesDiffer` is the case.
- A device name with a colon breaks token rotation: exactly then the device's own record
  does not follow (`SessionPairs.RotationFindsRecordIff`), another device's record may be
  overwritten (`SessionPairs.RotationMayHitAnotherRecord`), and over a run records and keys
  stop matching (`SessionPairs.AlwaysCorrespondIff`). Such a session outlives logout_all
  (`SessionExamples.ColonSessionOutlivesLogoutAll`, with the condition in
  `SessionPairs.OutlivesLogoutAllIff`).
- A logout or forced refresh of a banned user replaces the ban: `SessionExamples.BanMayBeReplaced`
  is the case, and `SessionRuns.BanHoldsIff` says when a ban holds.
- Two changes of a plan can have one key (`MenuExamples.MenusMayShareAKey`,
  `MenuExamples.ButtonAndMenuMayShareAKey`); `MenuKeyClashes.MenuKeysDistinctIff` for the
  menus and `PlanKeyClashes.PlanKeysDistinctIff` for all changes say when, by the tree alone.
- A short user key that spells the hash of a long one shares its bucket
  (`CacheKeys.ShortKeyMaySpellAHash`, with the condition in `CacheKeys.CacheKeySeparatesBuckets`).
- The bit of a deleted button is handed out again, so an issued token can come to grant
  another permission: `PermissionTokens.DeletedBitMayBeReused` is the case, and
  `BitHandouts.PositionChangesIff` says when, by the positions that the calls hand out.
- A menu plan can succeed although applying it fails
  (`MenuReplan.PlanMayPromiseTooMuch`, with the condition in `MenuReplan.AppliesIff`).
- A read-only `WITH` that mentions `analyze` passes both SQL gates
  (`SqlGates.BothGatesMayPass`, with the condition in `SqlGates.GatesOverlapOnlyOnAnalyze`).

Code and comments disagree in one place, and the model follows the code: the
comments at `crates/summer-auth/src/session/manager.rs:286` and `:517` let a token
with `iat >= deny_ts` pass, the test at `:431` refuses `iat <= deny_ts`. A token is
taken as unexpired while `now <= exp`, as the JWT library does with leeway 0.

## Model

| member | source | states |
|---|---|---|
| RateConfig.EmissionIsCeiling | crates/summer-common/src/rate_limit/config.rs:136-141 | the interval is the window of 1 000, 60 000, 3 600 000 or 86 400 000 ms divided by the rate (0 counts as 1) and rounded up, the least interval with which `rate` units span the window |
| CacheKeys.CacheKeySeparatesBuckets | crates/summer-common/src/rate_limit/config.rs:188-203 | the texts of two cache keys are equal iff all signature fields agree and the user keys are the same or clash by hashing; kept keys never clash |
| CacheKeys.StructuredKeyStandsForText | crates/summer-common/src/rate_limit/config.rs:200-203 | for user keys of at most 200 bytes the structured key of the bucket maps is as good as the text |
| CacheKeys.SignatureReadsBack | crates/summer-common/src/rate_limit/config.rs:188-197 | the signature is the algorithm's name and the decimal texts of rate, window in seconds, burst and max_wait, joined by colons |
| CacheKeys.SanitizedFits | crates/summer-common/src/rate_limit/algorithms.rs:28-48 | the user part is at most 200 bytes, and is the key itself iff the key is |
| CacheKeys.CharBytesIsUtf8 | crates/summer-common/src/rate_limit/algorithms.rs:31-31 | a key's length counts the bytes of each character's shortest UTF-8 form |
| CacheKeys.ShortKeyMaySpellAHash | crates/summer-common/src/rate_limit/algorithms.rs:28-48 | a key that spells the hash of a long key has its text |
| Gcra.CheckIsExact | crates/summer-common/src/rate_limit/algorithms.rs:93-146 | for clocks in [0, 2^62) no saturation or cast changes a value: decision, metadata and new TAT are the exact mathematical ones and the TAT stays in range |
| Gcra.DecideIsExact | crates/summer-common/src/rate_limit/algorithms.rs:109-146 | the same for any capacity and cost span below the 2^62 margin |
| GcraMetadata.RemainingIsExact | crates/summer-common/src/rate_limit/algorithms.rs:130-145 | after an accepted check, a next check of cost k at the same clock is accepted iff k <= remaining |
| GcraMetadata.RetryAfterIsExact | crates/summer-common/src/rate_limit/algorithms.rs:115-124 | after refusing a cost within the burst, the cost is refused for every wait below retry_after and accepted for every wait from it on |
| GcraMetadata.ResetAfterIsExact | crates/summer-common/src/rate_limit/algorithms.rs:138-145 | reset_after is the least wait after which a full burst passes |
| GcraMetadata.AcceptedSomewhereIffWithinBurst | crates/summer-common/src/rate_limit/algorithms.rs:95-124 | a cost is accepted in some state at some clock iff it is at most the burst |
| CasLoop.EveryRunIsLinearizable | crates/summer-common/src/rate_limit/algorithms.rs:109-147 | every interleaving of load / compare-and-swap loops and atomic updates has one sequential order with the same results and final value, each call once, respecting real time, also when values recur |
| CasLoop.RunIsExplained | crates/summer-common/src/rate_limit/algorithms.rs:109-147 | the inductive statement: at every moment the cell and all returned results are those of the order built so far |
| CasLoop.RealTimeOrder | crates/summer-common/src/rate_limit/algorithms.rs:109-147 | a call that returned before another was invoked precedes it in that order |
| GcraRuns.ThreadsActInSomeOrder | crates/summer-common/src/rate_limit/algorithms.rs:109-147 | the linearization for GCRA checks with stale clocks and `fetch_sub` refunds, tied to the sequential bucket history |
| GcraRuns.HistoryInRange | crates/summer-common/src/rate_limit/engine.rs:195-205 | while refunds never exceed charges the TAT stays in range and at or above the creation time plus the span of the balance, so `fetch_sub` never wraps |
| GcraRuns.PotentialGrows | crates/summer-common/src/rate_limit/algorithms.rs:109-147 | TAT minus the span of charged and not refunded units never decreases |
| GcraRuns.AdmissionBound | crates/summer-common/src/rate_limit/algorithms.rs:93-147 | accepted minus refunded cost between two accepted checks is at most burst plus elapsed clock over the interval, for non-monotone clocks too |
| RatePolicy.AdmissionPerWindow | crates/summer-common/src/rate_limit/config.rs:136-161 | within one window that is at most the configured burst (1 for leaky_bucket, 0 counts as 1) plus the configured rate |
| RatePolicy.BurstIsSpent | crates/summer-common/src/rate_limit/config.rs:136-161 | for every configuration a fresh bucket spends its configured burst on the checks of one clock, each cost in full or not at all; limit, remaining, reset_after and retry_after are what is left of the burst and the spans of what is spent or lacking |
| RatePolicy.FirstBurstPasses | crates/summer-common/src/rate_limit/config.rs:156-161 | exactly the first `burst` unit checks at one clock pass, the limit reported is the burst, and the next check is told to wait one interval |
| GcraRuns.BoundIsAttained | crates/summer-common/src/rate_limit/algorithms.rs:93-147 | a greedy history of any length attains the bound, so it cannot be improved |
| ConcurrentRefunds.ChargesAreConserved | crates/summer-common/src/rate_limit/algorithms.rs:93-147 | in every interleaving the cost charged minus units refunded is what was reported allowed, minus what was asked back, plus what threads have in flight |
| ConcurrentRefunds.ConcurrentHistoryIsValid | crates/summer-common/src/rate_limit/engine.rs:191-205 | if at every invocation of a refund all refunds so far are covered by checks already returned as allowed, every interleaving is a valid bucket history |
| ConcurrentRefunds.ConcurrentAdmissionBound | crates/summer-common/src/rate_limit/algorithms.rs:93-147 | under that condition on the callers alone, the admission bound for what they are told, and the cell never falls below its creation time |
| ConcurrentRefunds.BoundBetweenCalls | crates/summer-common/src/rate_limit/algorithms.rs:93-147 | the bound holds between any check that had returned and one invoked later, in that order |
| ConcurrentRefunds.ReservationsAreDisciplined | crates/summer-common/src/rate_limit/reservation.rs:33-91 | reservations held and given back concurrently, each at most once and within its charge, meet that condition |
| Refunds.RunIsExact | crates/summer-common/src/rate_limit/engine.rs:191-205 | runs over unbounded integers equal the i64 runs of valid histories |
| Refunds.BehindStaysBehind | crates/summer-common/src/rate_limit/algorithms.rs:109-125 | a bucket with an earlier TAT stays earlier, by no more than at the start, and accepts all the other accepts |
| Refunds.CommitIsNoLater | crates/summer-common/src/rate_limit/reservation.rs:33-43 | commit(a) after any accepted traffic leaves a TAT no later than charging min(a, c) at the start, and that traffic would have been accepted too |
| Refunds.RefundIsExactIffBusy | crates/summer-common/src/rate_limit/reservation.rs:33-53 | the refund restores exactly the cheaper bucket iff no check in between found that bucket idle |
| Refunds.ReleaseLeavesNoTrace | crates/summer-common/src/rate_limit/reservation.rs:45-53 | after release no later check is refused that would have passed without the reservation |
| Refunds.ReleaseMayOverpay | crates/summer-common/src/rate_limit/reservation.rs:45-53 | a concrete run in which the released bucket accepts what the untouched one refuses |
| RateLimitEngineModel.RateLimitEngine.CheckMemoryGcra | crates/summer-common/src/rate_limit/algorithms.rs:87-148 | the retry loop ends after as many rounds as others interfered and leaves cell and answer of one atomic check under the configuration (`RatePolicy`) at its last load |
| RateLimitEngineModel.RateLimitEngine.CheckMemoryScheduledSlot | crates/summer-common/src/rate_limit/algorithms.rs:243-296 | the same for the slot scheduler's loop |
| RateLimitEngineModel.RateLimitEngine.CheckMemorySlidingWindow | crates/summer-common/src/rate_limit/algorithms.rs:194-241 | the deque after the call and the answer are those of the call with the configured window and rate on the log |
| RateLimitEngineModel.RateLimitEngine.Refund | crates/summer-common/src/rate_limit/engine.rs:191-230 | for token_bucket and gcra an existing bucket's TAT falls by the wrapped span and the counter grows; other buckets and other algorithms are untouched |
| RateLimitEngineModel.Reservation.Commit | crates/summer-common/src/rate_limit/reservation.rs:33-43 | gives back exactly the unused part once and consumes the reservation |
| RateLimitEngineModel.Reservation.Release | crates/summer-common/src/rate_limit/reservation.rs:45-53 | gives back everything once |
| RateLimitEngineModel.Reservation.Drop | crates/summer-common/src/rate_limit/reservation.rs:56-91 | gives back everything unless consumed before or no runtime is left |
| RateLimitEngineModel.Reserve | crates/summer-common/src/rate_limit/context.rs:134-162 | a reservation exists only for an accepted charge and records what was charged |
| ReservationLedger.StepKeepsCover | crates/summer-common/src/rate_limit/reservation.rs:33-91 | every check, reservation, commit, release or drop keeps open reservations covered by charges |
| ReservationLedger.RefundsNeverExceedCharges | crates/summer-common/src/rate_limit/reservation.rs:33-91 | over every sequence of calls the history stays valid and the TAT stays above creation time plus the span of what open reservations hold |
| ReservationLedger.UnitsAreConserved | crates/summer-common/src/rate_limit/reservation.rs:33-91 | over every sequence of calls what was charged and not given back is what plain checks and commits used and drops without refund kept, plus what open reservations hold |
| SlotScheduler.SlotIsExact | crates/summer-common/src/rate_limit/algorithms.rs:243-296 | for every u64 max_wait acceptance, delay, next slot and all reported numbers are the exact ones; refusals change nothing |
| SlotScheduler.SlotIsGcra | crates/summer-common/src/rate_limit/algorithms.rs:243-296 | with max_wait = (b-1) intervals it accepts and moves exactly as GCRA with burst b and cost 1 |
| SlotScheduler.SameRuns | crates/summer-common/src/rate_limit/mod.rs:20-21 | over whole runs both stay in the same state and accept the same requests; b = 1 is the documented leaky bucket |
| SlotScheduler.SameRetryIffLeaky | crates/summer-common/src/rate_limit/algorithms.rs:261-268 | the two report the same retry_after on refusal iff b = 1 |
| SlotScheduler.RetryIsLeastWaitIff | crates/summer-common/src/rate_limit/algorithms.rs:261-268 | a refused request passes iff its wait plus max_wait reaches retry_after, so retry_after is the least wait iff max_wait is 0 |
| SlotScheduler.RetryTimesDiffer | crates/summer-common/src/rate_limit/algorithms.rs:261-268 | a state in which the scheduler asks for twice the wait that GCRA asks for and that is enough |
| SlotScheduler.ReleasesAreSpaced | crates/summer-common/src/rate_limit/algorithms.rs:254-296 | accepted release times grow by at least one interval per accepted request and nobody waits longer than max_wait, for max_wait below 2^61 or up to 2^35 requests |
| SlotScheduler.ThreadsActInSomeOrder | crates/summer-common/src/rate_limit/algorithms.rs:254-296 | every interleaving is decided as one sequential history |
| SlotScheduler.ConcurrentReleasesAreSpaced | crates/summer-common/src/rate_limit/algorithms.rs:254-296 | spacing and bounded wait in every interleaving, by the clocks of the invoked calls |
| SlidingWindow.OneCall | crates/summer-common/src/rate_limit/algorithms.rs:208-240 | a call on a log of accepted times keeps exactly the window and accepts iff fewer than the limit lie in it |
| SlidingWindow.LogIsTheWindow | crates/summer-common/src/rate_limit/algorithms.rs:194-241 | after every call of a run the deque is the accepted timestamps in (now - W, now], and acceptance depends on exactly those |
| SlidingWindow.RetryIsLeastWait | crates/summer-common/src/rate_limit/algorithms.rs:213-231 | retry_after is the least wait after which the request is accepted |
| SlidingWindow.CallsRemaining | crates/summer-common/src/rate_limit/algorithms.rs:234-240 | after an accepted call exactly `remaining` more calls at the same clock pass |
| SlidingWindow.ResetIsLeastWait | crates/summer-common/src/rate_limit/algorithms.rs:213-240 | reset_after is the least wait after which the oldest timestamp of the log has left it |
| Decimal.IntRoundTrip | crates/summer-auth/src/user_type.rs:22-37 | every i64 reads back from its decimal text |
| Decimal.ParsesIff | crates/summer-auth/src/user_type.rs:22-37 | a text reads as an i64 iff it is an optional sign and digits in range, and then as that number |
| SessionKeys.KeyTextInjective | crates/summer-auth/src/session/manager.rs:15-29 | no two refresh, device and deny keys share a text |
| SessionKeys.DevicePrefixSelects | crates/summer-auth/src/session/manager.rs:165-169 | the device prefix matches exactly the user's device keys |
| SessionKeys.LoginRoundTrip | crates/summer-auth/src/user_type.rs:22-37 | a login id decodes from its encoding |
| SessionKeys.DeviceNameRoundTrip | crates/summer-auth/src/user_type.rs:59-86 | a device type written as text reads back as the same text |
| SessionKeys.DeviceTypeReadsBackIff | crates/summer-auth/src/user_type.rs:59-86 | a device type reads back from its text unless it is an unknown type whose name spells a known one |
| SessionKeys.DeviceReadsBackIff | crates/summer-auth/src/session/manager.rs:342-346 | the last-colon split of a refresh value gives the device back iff its name has no colon |
| MemoryStorageModel.MemoryStorage.SetString | crates/summer-auth/src/storage/memory.rs:67-82 | the live map gains exactly the entry, also when the hundredth write purges |
| MemoryStorageModel.MemoryStorage.GetString | crates/summer-auth/src/storage/memory.rs:84-95 | returns what is live and leaves the live map alone |
| MemoryStorageModel.MemoryStorage.KeysByPrefix | crates/summer-auth/src/storage/memory.rs:102-113 | lists exactly the live keys with the prefix, each once |
| SessionManagerModel.SessionManager.HandleDevicePolicy | crates/summer-auth/src/session/manager.rs:172-222 | after the concurrency rule, as many oldest devices go as the limit asks, and nothing else |
| SessionManagerModel.SessionManager.OldestEvicted | crates/summer-auth/src/session/manager.rs:201-217 | the first records by login time are a set of oldest ones of the required size |
| SessionManagerModel.SessionManager.Login | crates/summer-auth/src/session/manager.rs:226-277 | the live map becomes that of the specified login; tokens carry its times |
| SessionManagerModel.SessionManager.Logout | crates/summer-auth/src/session/manager.rs:281-295 | the live map becomes that of the specified logout: `SessionLife.RevokingRemovesExactly` says what goes, `SessionRuns.RevocationIsExact` what the deny entry does |
| SessionManagerModel.SessionManager.LogoutAll | crates/summer-auth/src/session/manager.rs:297-319 | all devices and their refresh keys go, the deny entry is written |
| SessionManagerModel.SessionManager.Refresh | crates/summer-auth/src/session/manager.rs:324-411 | errors in the source's order, else the key is rotated and the device record follows |
| SessionManagerModel.SessionManager.ValidateToken | crates/summer-auth/src/session/manager.rs:416-453 | the specified verdict on expiry and deny entry |
| SessionManagerModel.SessionManager.BanUser | crates/summer-auth/src/session/manager.rs:486-507 | all devices go and the ban is written for 365 days |
| SessionRuns.RevokedForGood | crates/summer-auth/src/session/manager.rs:281-319 | after logout, logout_all or force_refresh at T no token with iat <= T validates later in any run without unban |
| SessionRuns.AccessAnswer | crates/summer-auth/src/session/manager.rs:416-453 | over any run an unexpired access token is answered by the user's ban, then by whether it was issued by the second of a logout, logout_all or force_refresh that no unban forgave, and is accepted otherwise |
| SessionRuns.CoverLasts | crates/summer-auth/src/storage/memory.rs:17-24 | the deny entry covers such tokens for as long as they can live, over any run |
| SessionRuns.TokensExpireOnTime | crates/summer-auth/src/token/jwt.rs:112-119 | every token of a run was issued no later than now and expires access_timeout later |
| SessionRuns.RevocationIsExact | crates/summer-auth/src/session/manager.rs:425-434 | while the deny entry lives a token is refused iff it was issued by then |
| SessionRuns.DenyTexts | crates/summer-auth/src/session/manager.rs:421-453 | every deny text is a ban, a revocation by its second, or malformed |
| SessionRuns.BanShutsOut | crates/summer-auth/src/session/manager.rs:486-507 | from a ban at second T on, over any run in which nothing lifts it, no access token of the user validates and no refresh succeeds up to T + 365 days |
| SessionRuns.BanHoldsIff | crates/summer-auth/src/session/manager.rs:281-319 | until the next ban of the user, the ban holds later in a run iff its lifetime is not over and no logout, logout_all, unban or force_refresh of the user came in between |
| SessionRuns.BanEndsExactlyWhen | crates/summer-auth/src/session/manager.rs:486-525 | a step leaves a user banned iff the ban is alive at its clock reading and the step is no unban, logout, logout_all or force_refresh of that user |
| SessionExamples.BanMayBeReplaced | crates/summer-auth/src/session/manager.rs:281-295 | a run in which a banned user is logged out or forced to refresh, logs in and holds a valid token |
| SessionPairs.AlwaysCorrespondIff | crates/summer-auth/src/session/manager.rs:155-163 | over a run refresh keys and device records match throughout iff no session under a name with a colon is refreshed |
| SessionPairs.PlainLoginsSuffice | crates/summer-auth/src/session/manager.rs:226-277 | that is so when no login uses such a name |
| SessionPairs.RefreshKeysMatchDevices | crates/summer-auth/src/session/manager.rs:155-163 | until such a refresh, live refresh keys and live device records correspond one to one at every later second |
| SessionPairs.RefreshRevokedForGood | crates/summer-auth/src/session/manager.rs:297-319 | after logout_all or a ban no refresh token issued to the user before ever succeeds, if no such refresh came before |
| SessionPairs.OutlivesLogoutAllIff | crates/summer-auth/src/session/manager.rs:297-319 | in any state a refresh succeeds after logout_all iff the token is unexpired, its key is live and readable and no device record of the user named it |
| SessionExamples.ColonSessionOutlivesLogoutAll | crates/summer-auth/src/session/manager.rs:297-319 | a run in which a refresh token issued before logout_all succeeds after it |
| SessionTokens.RefreshSucceedsOnce | crates/summer-auth/src/session/manager.rs:324-402 | a refresh token succeeds at most once in any run, whatever the devices are called |
| SessionTokens.DeviceLimitHolds | crates/summer-auth/src/session/manager.rs:193-219 | in any run a user never has more live devices than the maximum |
| SessionLife.RevokingRemovesExactly | crates/summer-auth/src/session/manager.rs:155-163 | logout takes away the one device record and the refresh key it holds, logout_all and ban all of the user's, unban and force_refresh none; every other record and refresh key of every user stays as it is |
| SessionLife.LoggedOutForGood | crates/summer-auth/src/session/manager.rs:281-295 | over any run, after logout the record is gone and no refresh with the id it held ever succeeds, whatever the devices are called |
| SessionLife.DevicesAfterLogin | crates/summer-auth/src/session/manager.rs:172-222 | a login leaves none of the user's other devices without concurrent login, all of them below the maximum, and otherwise one fewer than the maximum with none that went newer than one that stayed; other users keep theirs |
| RefreshLife.RefreshAnswer | crates/summer-auth/src/session/manager.rs:324-411 | over any run, from any moment at which the record of a colon-free device holds a token's id, the token is answered by its expiry, then by whether it was used, logged out, replaced or evicted since, then by a ban, and otherwise continues that user and device |
| RefreshLife.AnswerAfterLogin | crates/summer-auth/src/session/manager.rs:226-277 | the same from a login on: its refresh token is good for refresh_timeout seconds until something ends the session |
| RefreshLife.LoginOpens | crates/summer-auth/src/session/manager.rs:226-277 | a login stores the record with its data and issues tokens with the times of its second |
| RefreshLife.RotationContinues | crates/summer-auth/src/session/manager.rs:369-402 | an accepted refresh goes on under the new id; the record keeps its login time, address and agent |
| SessionPairs.RotationFindsRecordIff | crates/summer-auth/src/session/manager.rs:342-402 | in every store, rotating a session leaves the new id in its own device record iff the device name has no colon |
| SessionPairs.RotationMayHitAnotherRecord | crates/summer-auth/src/session/manager.rs:342-402 | a store in which rotating `x:web` writes the new id into the record of `web` |
| SessionDriver.Continue | crates/summer-auth/src/session/manager.rs:226-525 | a call on the manager continues any run that the manager shows; its answer is the tokens of that step |
| SessionDriver.Check | crates/summer-auth/src/session/manager.rs:416-453 | a validation answers by the last state of the run and lets it go on |
| SqlConditions.ClausesParse | crates/summer-mcp/src/table_tools/query_builder.rs:231-316 | clauses joined by AND read back, under SQL precedence, as their conjunction |
| SqlConditions.CondParses | crates/summer-mcp/src/table_tools/query_builder.rs:290-316 | a printed tree reads back whatever follows it |
| FilterLaws.AcceptedIff | crates/summer-mcp/src/table_tools/query_builder.rs:271-345 | a filter compiles iff its columns are known, visible identifiers and every group and value fits its operator |
| FilterLaws.WhyRefused | crates/summer-mcp/src/table_tools/query_builder.rs:271-345 | each refusal of a single filter is by what is wrong with its name, column or values |
| FilterLaws.WhyGroupRefused | crates/summer-mcp/src/table_tools/query_builder.rs:256-316 | a group is refused for having both lists, none or an empty one, else as its items are |
| FilterLaws.BuildIsCanonical | crates/summer-mcp/src/table_tools/query_builder.rs:306-316 | one-item groups collapse, so the tree has no trivial group |
| FilterLaws.OnColumnMeans | crates/summer-mcp/src/table_tools/query_builder.rs:487-612 | each operator's SQL has, on every row including NULL cells, the operator's own meaning |
| FilterLaws.FilterMeans | crates/summer-mcp/src/table_tools/query_builder.rs:256-316 | the same for trees, with the parameters anywhere in the vector |
| FilterLaws.FilterNumbers | crates/summer-mcp/src/table_tools/query_builder.rs:487-612 | placeholders in reading order are consecutive from the current parameter count |
| FilterLaws.ClauseKeepsMeaning | crates/summer-mcp/src/table_tools/query_builder.rs:231-254 | the whole clause: reads back as the tree, placeholders are $1..$n, and its value on every row is the conjunction of the filters' meanings, which know JSON values and truth values but no SQL |
| QueryBuilder.BindCastValue | crates/summer-mcp/src/table_tools/schema.rs:712-723 | null binds nothing and prints NULL; true, false, a number, a text and a nested value push "true", "false", the number, the text and the JSON text, and the cast placeholder has the index given |
| QueryBuilder.BuildFilterClause | crates/summer-mcp/src/table_tools/query_builder.rs:487-551 | emits the print of the specified condition and pushes its parameters, or the specified error |
| QueryBuilder.BuildMultiValueExpressions | crates/summer-mcp/src/table_tools/query_builder.rs:553-573 | one cast placeholder per value in order, an error for null |
| QueryBuilder.BuildFilterInputClause | crates/summer-mcp/src/table_tools/query_builder.rs:256-288 | the same for structured, grouped and shorthand filters |
| QueryBuilder.BuildFilterGroupItems | crates/summer-mcp/src/table_tools/query_builder.rs:290-316 | parentheses around two or more joined items, none around one |
| QueryBuilder.BuildFiltersClause | crates/summer-mcp/src/table_tools/query_builder.rs:231-254 | clause and parameters of the whole list, or the first error |
| QueryBuilder.BuildUpdateAssignments | crates/summer-mcp/src/table_tools/query_builder.rs:132-174 | assignments in order with their parameters, or the first error |
| QueryBuilder.BuildKeyClause | crates/summer-mcp/src/table_tools/query_builder.rs:176-229 | the key condition, continuing the given parameters |
| UpdateSpec.UpdateAcceptedIff | crates/summer-mcp/src/table_tools/query_builder.rs:132-174 | an update compiles iff it is not empty and every column is a known writable identifier |
| UpdateSpec.KeyAcceptedIff | crates/summer-mcp/src/table_tools/query_builder.rs:176-229 | a key compiles iff its size is the primary key's and every key column has a value that is not null |
| UpdateSpec.KeyNamesExactly | crates/summer-mcp/src/table_tools/query_builder.rs:189-209 | an accepted key names the primary key columns and nothing else |
| UpdateSpec.WhyAssignmentsRefused | crates/summer-mcp/src/table_tools/query_builder.rs:132-174 | a refused update names its first entry that may not be written and why |
| UpdateSpec.WhyKeyRefused | crates/summer-mcp/src/table_tools/query_builder.rs:176-229 | a refused key lacks a primary key, has another size, or names a missing or null column |
| UpdateSpec.UpdateKeepsMeaning | crates/summer-mcp/src/table_tools/query_builder.rs:132-229 | across both clauses placeholders are $1..$n, each column gets the value asked for, and exactly the rows with the key are reached |
| SqlScanner.CollectSqlTokens | crates/summer-mcp/src/table_tools/sql_scanner.rs:200-363 | the indexed loop returns the tokens or the error of the specified scan |
| SqlScanner.ParseDollarQuoteTag | crates/summer-mcp/src/table_tools/sql_scanner.rs:370-385 | finds the tag of the specified form at a position, or none |
| SqlScannerLaws.ScanningComposes | crates/summer-mcp/src/table_tools/sql_scanner.rs:218-342 | scanning p then t equals scanning p + t whenever t starts with a boundary character, in every mode and with errors |
| SqlScannerLaws.LinesAreIndependent | crates/summer-mcp/src/table_tools/sql_scanner.rs:200-363 | p + newline + s gives tokens(p) then tokens(s), or s's error |
| SqlScannerLaws.SecondStatementIsFound | crates/summer-mcp/src/table_tools/sql_scanner.rs:269-274 | a semicolon behind a complete line is always refused |
| SqlScannerLaws.ScanInvertsRender | crates/summer-mcp/src/table_tools/sql_scanner.rs:187-199 | rendering words, quoted strings and names, nested comments, dollar quotes and symbols and scanning returns exactly the words, lower case, in order |
| SqlScannerLaws.NoteScans | crates/summer-mcp/src/table_tools/sql_scanner.rs:319-332 | properly nested comments are skipped at any depth |
| SqlScannerLaws.DollarBodyScans | crates/summer-mcp/src/table_tools/sql_scanner.rs:333-340 | a dollar-quoted body ends at the first closing tag |
| SqlScannerLaws.UnfinishedIsRefused | crates/summer-mcp/src/table_tools/sql_scanner.rs:344-362 | a string, name, comment or dollar quote without its end is refused with its own error |
| SqlCase.TokensAreLowerNames | crates/summer-mcp/src/table_tools/sql_scanner.rs:275-285 | every token of a readable text is a name of lower case letters, digits and underscores; no token holds a character in A..Z |
| SqlCase.RenderedWordsAreFolded | crates/summer-mcp/src/table_tools/sql_scanner.rs:275-285 | scanning a rendered text gives its bare words one by one, A..Z moved by 32 and all else unchanged |
| SqlCase.CaseDoesNotMatter | crates/summer-mcp/src/table_tools/sql_scanner.rs:200-363 | two texts that differ only in the ASCII case of bare words scan to the same words and mode, or to the same error, in every mode |
| SqlCase.RenderedCaseDoesNotMatter | crates/summer-mcp/src/table_tools/sql_scanner.rs:187-199 | writing the bare words of a rendered statement in another case changes neither tokens nor verdicts |
| SqlGates.NormalizeReadonlySql | crates/summer-mcp/src/table_tools/sql_scanner.rs:100-139 | the verdict of the specified gate |
| SqlGates.NormalizeExecSql | crates/summer-mcp/src/table_tools/sql_scanner.rs:141-170 | the verdict of the specified gate |
| SqlGates.NormalizingKeepsWords | crates/summer-mcp/src/table_tools/sql_scanner.rs:172-185 | trimming and taking off a final semicolon do not change the words of a readable text |
| SqlGates.FinalSemicolonIsForgiven | crates/summer-mcp/src/table_tools/sql_scanner.rs:172-185 | with one semicolon appended the normalized text has the words of the text |
| SqlGates.GatesReadBareWords | crates/summer-mcp/src/table_tools/sql_scanner.rs:100-170 | for every rendered text, with or without a final semicolon, each gate accepts iff the bare words meet its rule |
| SqlGates.GatesOverlapOnlyOnAnalyze | crates/summer-mcp/src/table_tools/sql_scanner.rs:7-73 | a text that the read-only gate accepts passes the exec gate iff it starts with `with` and mentions `analyze` |
| SqlGates.BothGatesMayPass | crates/summer-mcp/src/table_tools/sql_scanner.rs:7-73 | a statement that both gates let pass |
| SqlCase.GatesIgnoreCase | crates/summer-mcp/src/table_tools/sql_scanner.rs:100-170 | on such texts each gate lets both pass or refuses both for the same reason |
| SqlVerdicts.OneStatement | crates/summer-mcp/src/table_tools/sql_scanner.rs:172-185 | the statement taken is the text without the white space around it and one final semicolon |
| SqlVerdicts.ReadonlyAnswer | crates/summer-mcp/src/table_tools/sql_scanner.rs:100-139 | the read-only gate returns that statement when its words are allowed, else the first thing wrong with them, with the first forbidden word |
| SqlVerdicts.ExecAnswer | crates/summer-mcp/src/table_tools/sql_scanner.rs:141-170 | the same for the exec gate |
| SqlVerdicts.UnreadableAnswer | crates/summer-mcp/src/table_tools/sql_scanner.rs:172-185 | blank and unreadable texts are refused as such by both |
| SyncPlanModel.NewPlan | crates/summer-domain/src/sync.rs:37-48 | the summary counts each action and the counts add up |
| MenuValidation.ValidateMenuNodes | crates/summer-domain/src/menu.rs:466-528 | accepts iff sibling paths differ, no field is blank and names and marks are used once, given those used before |
| MenuValidation.ValidateMenuConfigSpec | crates/summer-domain/src/menu.rs:460-464 | accepts iff the specified tree is valid |
| MenuTasks.ValidSpecGivesValidTasks | crates/summer-domain/src/menu.rs:466-528 | in the visiting order parents come first and no two tasks share place, name or mark |
| MenuTasks.CleanIff | crates/summer-domain/src/menu.rs:466-528 | a task list is clean iff no field is blank after trimming and no name or mark is used twice or was used before |
| MenuPlanning.PlanMenuNodes | crates/summer-domain/src/menu.rs:544-568 | the recursive planner pushes the change of every task in visiting order, or the first refusal |
| MenuPlanning.PlanButtonSpecs | crates/summer-domain/src/menu.rs:584-603 | the same for the buttons of an existing menu |
| MenuPlanning.PlanAllCreateForNodes | crates/summer-domain/src/menu.rs:570-582 | below a new menu every task is planned as a creation, unchecked |
| MenuDomain.MenuDomainService.ApplyMenuNodes | crates/summer-domain/src/menu.rs:838-883 | table, ids, next bit position and flag after the recursion are those of the task list |
| MenuDomain.MenuDomainService.ApplyButtonSpecs | crates/summer-domain/src/menu.rs:961-991 | the same for buttons |
| MenuDomain.MenuDomainService.PlanMenuConfig | crates/summer-domain/src/menu.rs:225-235 | the plan of a valid configuration or its first refusal, and an error for an invalid one |
| MenuDomain.MenuDomainService.ApplyMenuConfig | crates/summer-domain/src/menu.rs:237-274 | all or nothing; on success the plan, the table of the task list, and the permission map reloaded when permissions changed |
| MenuDomain.MenuDomainService.CreateButton | crates/summer-domain/src/menu.rs:298-325 | a button with the next bit position below an existing parent |
| MenuDomain.MenuDomainService.DeleteMenu | crates/summer-domain/src/menu.rs:388-435 | deletes iff the row exists, has no children and no role holds it |
| MenuSync.PatchSettles | crates/summer-domain/src/menu.rs:690-761 | after an update no field differs, and a row changes iff some field differed |
| MenuSync.CreationListsEveryField | crates/summer-domain/src/menu.rs:617-661 | a menu's creation lists exactly the fields of a row that differs everywhere, in the same order |
| MenuSync.CreationListsEveryButtonField | crates/summer-domain/src/menu.rs:663-688 | the same for a button |
| MenuSync.ApplyDoesWhatThePlanLists | crates/summer-domain/src/menu.rs:530-1058 | on success the plan has one change per task, each task's row was created, updated or left alone as listed, no row serves two tasks, every other row is untouched, the table grew by the creations |
| MenuFields.AppliedTreeIsStored | crates/summer-domain/src/menu.rs:68-140 | after a successful application every menu and button of the tree has its row below its parent's row, each field as asked for, or its default |
| MenuFields.RestAfterApply | crates/summer-domain/src/menu.rs:885-1058 | what is not asked for stays as it was or is empty in a new row; a button's title follows its name exactly when some field is written |
| MenuFields.FieldsAreListed | crates/summer-domain/src/menu.rs:690-775 | a plan lists the fields in which the row differs from what is asked for, in the documented order |
| MenuFields.ChangeDescribes | crates/summer-domain/src/menu.rs:617-688 | a change names its kind and key; an update or noop lists what differs, a creation every field in the same order |
| MenuReplan.TableStaysValid | crates/summer-domain/src/menu.rs:838-1058 | ids, parents and unique places survive an application |
| MenuReplan.ReplanChangesNothing | crates/summer-domain/src/menu.rs:530-615 | planning the applied configuration again, on any reading of the table, lists only Noop |
| MenuReplan.AppliesIff | crates/summer-domain/src/menu.rs:570-615 | applying succeeds iff planning does and no task below a new menu asks for a taken name or mark |
| MenuReplan.PlanMayPromiseTooMuch | crates/summer-domain/src/menu.rs:561-582 | a configuration whose plan succeeds and whose application fails |
| MenuKeys.KeysSpellPaths | crates/summer-domain/src/menu.rs:820-827 | in a valid configuration root keys are paths and every other key is the parent's key, a separator, and path or mark |
| MenuKeyClashes.MenuKeysDistinctIff | crates/summer-domain/src/menu.rs:820-827 | in a valid configuration the menus of a plan have distinct keys iff no path in a sibling list goes on from a sibling's path with what is found below that sibling |
| PlanKeyClashes.PlanKeysDistinctIff | crates/summer-domain/src/menu.rs:551-615 | in a valid configuration all changes of a plan, buttons included, have distinct keys iff no path in a sibling list goes on from a sibling's path as something that hangs on that sibling does |
| PlanKeyClashes.WithoutHashMenusDecide | crates/summer-domain/src/menu.rs:551-615 | when no path holds a `#` the menus alone decide |
| PlanKeyClashes.SeparatePathsDoNotMeet | crates/summer-domain/src/menu.rs:820-827 | it is enough that no path extends a sibling's by `/` or `#` |
| MenuKeyClashes.SeparatePathsDoNotSplit | crates/summer-domain/src/menu.rs:820-827 | it is enough that no path extends a sibling's by a separator, whatever separators the paths hold |
| MenuExamples.MenusMayShareAKey | crates/summer-domain/src/menu.rs:820-827 | a valid configuration in which two menus have one key |
| MenuExamples.ButtonAndMenuMayShareAKey | crates/summer-domain/src/menu.rs:820-827 | a valid configuration in which a button and a menu have one key |
| MenuSpec.NextButtonBitPosition | crates/summer-domain/src/menu.rs:829-836 | one above the greatest position in use, 0 if there is none |
| MenuBits.BitPositionsStayDistinct | crates/summer-domain/src/menu.rs:298-435 | over every run of applications, button creations and deletions bit positions stay pairwise distinct |
| MenuBits.PermissionMapStaysCurrent | crates/summer-domain/src/menu.rs:269-271 | over every such run the permission map shows the table's buttons, although it is reloaded only when a call reports a change |
| MenuBits.MappingsHaveDistinctPositions | crates/summer-domain/src/menu.rs:443-457 | the mappings loaded from such a table give no position twice |
| MenuBits.GrantedIff | crates/summer-domain/src/menu.rs:443-457 | with positions below 2^31 a pair is in the permission map iff an enabled button with that mark holds the position |
| MenuBits.GrantedWhileEnabled | crates/summer-domain/src/menu.rs:443-457 | after any run the permission map grants a marked button iff it is enabled |
| MenuTree.TreeHoldsReachableRowsOnce | crates/summer-domain/src/menu.rs:1060-1122 | the tree from 0 holds exactly the Menu rows whose parents lead to 0, each once |
| MenuTree.TreeIsPlaced | crates/summer-domain/src/menu.rs:1060-1122 | at every depth a node's children are the Menu rows below it and its buttons are its Button rows, each once and in the table's order |
| MenuTree.ChainFits | crates/summer-domain/src/menu.rs:1060-1122 | a chain of parents is no longer than the table, which is why the recursion ends |
| MenuTree.ChainIsUnique | crates/summer-domain/src/menu.rs:1060-1122 | a row is reached in one way |
| PermissionBitmap.NewPermissionMap | crates/summer-auth/src/bitmap.rs:15-20 | both maps hold the last pair given for a key |
| PermissionBitmap.Encode | crates/summer-auth/src/bitmap.rs:34-49 | nothing iff no permission is known, else exactly the bits of the known positions in the fewest bytes |
| PermissionBitmap.Decode | crates/summer-auth/src/bitmap.rs:53-67 | the mapped permissions of the set bits from low to high |
| PermissionBitmap.LowestBitFirst | crates/summer-auth/src/bitmap.rs:42-48 | position p is bit p mod 8 of byte p / 8, counted from the lowest |
| PermissionBitmap.DecodeInvertsEncode | crates/summer-auth/src/bitmap.rs:34-67 | decoding gives exactly the known permissions, each once, in position order |
| PermissionBitmap.DistinctPositionsAreConsistent | crates/summer-auth/src/bitmap.rs:15-20 | distinct positions make the two maps inverse to each other |
| PermissionBitmap.InconsistentLoses | crates/summer-auth/src/bitmap.rs:15-67 | a permission whose position leads elsewhere is lost, so the condition is needed |
| PermissionTokens.RowsKeepBadges | crates/summer-domain/src/menu.rs:298-435 | over every run of applications, button creations and deletions a row that is still there has its kind, bit and mark, and no id comes back |
| PermissionTokens.TokenKeepsItsMeaning | crates/summer-auth/src/bitmap.rs:34-67 | read after a run, a bitmap gives exactly the permissions put in whose buttons are still there and enabled, unless a call gave one of its positions to a button with another mark |
| BitHandouts.CallHandsOutIff | crates/summer-domain/src/menu.rs:829-836 | a call gives a position to a new button iff it lies in the range from the next position on that is as long as the number of buttons created, and the button is the one in that place |
| BitHandouts.PlanListsNewButtons | crates/summer-domain/src/menu.rs:961-991 | on a valid table the buttons that an application creates are those whose creation its plan lists, in order |
| BitHandouts.PositionChangesIff | crates/summer-domain/src/menu.rs:829-836 | over a run a position comes to belong to a button with another mark iff before some call the position lies in that call's range and its place is taken by a button with another mark |
| BitHandouts.PositionsBelowNextStay | crates/summer-domain/src/menu.rs:829-836 | a position below the next one at every reading never changes its mark, whatever is deleted |
| PermissionTokens.DeletedBitMayBeReused | crates/summer-domain/src/menu.rs:829-836 | a run after which a bitmap issued for one permission grants another |
| VariantNames.DedupeVariantName | crates/summer-mcp/src/tools/entity_enum_upgrader.rs:575-588 | ends, and returns the candidate if free, else the first free number from 2 on |
| VariantNames.TakenNumbersFit | crates/summer-mcp/src/tools/entity_enum_upgrader.rs:580-587 | the pigeonhole behind termination |
| VariantNames.BuildVariantPlans | crates/summer-mcp/src/tools/entity_enum_upgrader.rs:486-522 | names are pairwise distinct and in order; each option gets the name suggested by an override, else its meaning, else its ASCII words, else its value, made unique among the earlier names |

## Left out

- Redis: the Lua scripts, `check_redis`, `RedisStorage` and backend failure policies; the server is foreign code.
- Cache eviction, idle expiry and `reset_key`; bucket lookup is a total map.
- Fixed windows, the dispatch over algorithms, allow and block lists, shadow mode, statistics other than the cost counters, sleeping for delayed requests, HTTP headers.
- RateLimitEngineModel.RateLimitEngine.CheckMemoryGcra: buckets are kept under structured keys, which are as good as the texts for user keys of at most 200 bytes (`CacheKeys`); MD5 itself is a parameter.
- RateLimitEngineModel.Reservation.Drop: the refund that the source spawns runs at once in the model.
- Reservations that were never charged (allow list, shadow mode, fail-open).
- JWT signing and verification, UUIDs, JSON texts of device records; the claims and records are values. Profiles, roles and permissions inside tokens.
- Interleaving of single storage calls inside one session operation; each operation is one atomic step. Storage failures.
- Session listing, QR login and permission wildcard matching.
- SqlConditions.ClausesParse: lexing is not modelled, a clause is its tokens; quoted names and type names are single tokens.
- The text of shorthand filters: a shorthand is what its text parses to, or a parse error. Order clauses, insert statements and JSON serialization of bound arrays and objects.
- Run-time errors of casts in the database; a cast is a total function.
- Error messages; errors are told apart by kind.
- Parameter conversion for raw SQL (`convert_sql_params`).
- MenuDomain.MenuDomainService.CreateButton: the form's other fields are a parameter, and positions do not overflow 32 bits.
- `create_menu`, `update_menu` and `update_button`: their forms are defined elsewhere. Time stamps of rows.
- MenuDomain.MenuDomainService.ApplyMenuConfig: the order in which the database returns rows is arbitrary in the model, and ids handed out before a rollback are free again.
- The view objects of the menu tree other than row, children and buttons; role codes.
- Base64 text of the bitmap.
- VariantNames.BuildVariantPlans: how a label or value suggests a name is a parameter.
- Proc macros, generators, plugins, command line tools and the other domain services.
