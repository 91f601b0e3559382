# A verified model of the MikroTik bot's router access and its algorithmic cores

The bot talks to RouterOS devices through one stack: a connection pool, a circuit breaker per
router, a throttle, and a retry template that drives all three. Beside the stack it has a few
self-contained algorithms: two caches with expiry, a neighbour-discovery decoder, the generation
of hotspot cards, a page layout, two readers of uptime texts, two tables that hold users back, and
the watchdog's alerts. This project models that code in Dafny and proves what it keeps and
computes. `dafny verify dfyconfig.toml` checks everything.

## How it is built

| file | module | models |
|---|---|---|
| `CircuitBreaker.dfy` | `Breaker` | the state machine behind the breaker's five dictionaries; the class that updates them |
| `Throttle.dfy` | `Throttle` | the slots that the throttle reserves |
| `PoolLedger.dfy` | `PoolLedger` | one router's share of the pool; every critical section is a step, every interleaving a run |
| `ConnectionPool.dfy` | `Pool` | the pool's methods, each proved to take such steps while other threads take any of theirs |
| `Environment.dfy` | `Environment` | scripted outcomes of lookups, connects, health checks and commands, and a clock |
| `MikrotikApi.dfy` | `Stack` | the command template over pool, breaker and throttle |
| `WriteLocks.dfy` | `WriteLocks` | which commands are writes; the per-router locks as a machine over thread steps |
| `LruTtl.dfy`, `Caches.dfy` | `LruTtl`, `Caches` | least-recently-used caches with expiry, against the map of last writes |
| `RateTables.dfy` | `RateTables` | the rate limiter and the double-click filter, against histories that forget nothing |
| `Watchdog.dfy` | `Watchdog` | alerts, against the edges of the sequence of check results |
| `Cards.dfy` | `Cards` | card batches and their chunked insertion |
| `Uptime.dfy`, `Decimal.dfy` | `Uptime`, `Decimal` | the uptime texts the bot writes and the two parsers |
| `Mndp.dfy` | `Mndp` | the MNDP decoder, against an encoder |
| `PdfGrid.dfy` | `PdfGrid` | the card grid and the page loop |
| `Basics.dfy`, `Logs.dfy`, `FiniteSets.dfy` | | shared helpers: options, call histories of threads, counting |

Code that changes dictionaries step by step is a class with the same fields; each method is proved
to move the abstract state as a specification function says, and the lemmas are about that
function. Locks are modelled by making every critical section one step. `OthersRun`, in the pool,
the breaker, the throttle and the stack, stands for what other threads do between two critical
sections of the caller: its contract allows any steps that are not the caller's. (Where a member
takes `alone`, a true value restricts the others to other routers.) Time is exact
(`real`) and never runs backwards; the breaker's attempts read the clock twice, as the code does.

## What the proofs found

* **The cap on connections can be passed.** The replacement of a stale pooled connection is counted
  only after it is open (`core/connection_pool.py:214-225`). A thread that enters meanwhile may take
  the freed place, and the counter ends above the cap without any reconnect.
  `PoolLedger.CappedIffNoOverfill` says exactly when: a run stays within the cap if and only if no
  replacement comes back to a counter already at the cap. If replacing were one step it would always
  stay within (`PoolLedger.CappedIfReplacedAtOnce`).
* **The counter can go below zero.** Two decrements are unguarded: that of a failed connect
  (`core/connection_pool.py:190-192,299-302`) and that of a full queue
  (`core/connection_pool.py:268`). After pinned reconnects either may meet a counter that guarded
  decrements have brought to zero (`PoolLedger.PinnedFailureGoesNegative`,
  `PoolLedger.FullQueueGoesNegative`). `PoolLedger.NeverNegativeIffNoUnderflow` says exactly when:
  the counter stays non-negative if and only if neither of them meets a counter that is not
  positive. Without pinned reconnects it never goes negative (`PoolLedger.UnpinnedRuns`).
* **The branch marked "should not happen" happens.** A pinned reconnect makes the full queue of
  `core/connection_pool.py:265` reachable (`PoolLedger.PinnedReconnectFillsTheQueue`). Returning
  connections meets it exactly when more are idle or lent than the queue holds
  (`PoolLedger.CanFillIff`); without pinned reconnects and overfilling replacements it is never met
  (`PoolLedger.CleanRuns`).
* **A second claim of a half-open circuit is dead code** (`core/circuit_breaker.py:102-104`): a
  half-open circuit always has its trial slot taken.
* **The two uptime parsers disagree on days with a clock part.** `_parse_uptime_seconds` drops the
  clock part of a text such as `1d02:30:00`; they agree on such texts exactly when it is zero, and
  the bot itself writes no others (`Uptime.ParsersAgreeIff`, `Uptime.RoundTrip`). Every text with
  unit letters, such as `1d2h3m4s`, is 0 for `_parse_uptime_to_seconds` (`Uptime.UnitTexts`).
* **The rate limiter's grace period renews itself.** A caller who never pauses for 0.05 s is never
  held back, whatever the limit (`RateTables.FastCallersAreNeverHeldBack`); and since 0.0 stands for
  "never", first requests are held back while the clock is below the limit
  (`RateTables.FirstRequestWaitsForTheClock`).
* **A router that is still offline after a restart raises no alert.** The comment at
  `core/watchdog.py:219-237` promises a new one, but the loaded status already says offline, so there
  is no edge (`Watchdog.StillOfflineAfterRestart`). The model follows the code.
* **Card spacing is not validated.** The size check passes for negative spacing too, and then cards
  overlap or leave the margins: `PdfGrid.LayoutIsRightIff` gives the exact condition for every number
  of cards.
* **A late clock reading can see the rate limiter's clean-up.** The clock is read before the lock is
  taken (`utils/admin_decorator.py:83-87`), so a request may use a reading older than one that has
  already cleaned up. `RateTables.InvisibleIffSoonEnough` says exactly when this cannot matter,
  whatever the limiter has been through: when the clock has not passed 300 s, when the reading is
  below 0.05 s, or when it is late by no more than 60 s minus the limit (minus 0.05 s instead, for a
  reading below the limit). Otherwise some run answers differently because of the clean-up.
* **A health check that raises something unlisted costs a connection for good.** It stays counted but
  is neither queued nor lent (`core/connection_pool.py:202-206`). After as many as the cap allows,
  nobody reserves a connection again unless a reconnect is pinned (`PoolLedger.FullyLost`).

## Model

| member | source | states |
|---|---|---|
| Breaker.ClosedIffFewFailures | core/circuit_breaker.py:63-167 | in every run from a fresh circuit, CLOSED holds exactly while fewer than the threshold failures were reported since the last success or reset, and the counter is that number |
| Breaker.StampsInThePast | core/circuit_breaker.py:63-167 | in every run in time order the stored opening or trial time is never later than the clock |
| Breaker.RateBound | core/circuit_breaker.py:63-167 | after a circuit opened at t0 and until the next success or reset, the n-th admitted request comes no earlier than t0 + n timeouts, for every interleaving of attempts, straggling failures and leaked trials |
| Breaker.RateBoundInHistory | core/circuit_breaker.py:63-167 | the same for any reachable circuit: whatever history left it open, and whatever follows |
| Breaker.RateBoundIsTight | core/circuit_breaker.py:69-100 | the rate bound is attained for every n, so it cannot be improved |
| Breaker.SilentTrialExcludesOthers | core/circuit_breaker.py:85-101 | while the admitted trial of a half-open circuit does not report, nobody else is admitted for two whole timeouts |
| Breaker.OpenForOneTimeout | core/circuit_breaker.py:69-83 | an open circuit stays shut for exactly one timeout: whatever failures and early attempts straggle in, the next attempt is admitted if and only if the timeout has passed since it opened |
| Breaker.OpensFromTheFailure | core/circuit_breaker.py:138-159 | the failure that reaches the threshold or ends a trial shuts the circuit for exactly one timeout from its own time on |
| Breaker.SilentTrialLeaks | core/circuit_breaker.py:85-101 | a silent trial holds others off for exactly one timeout, then the circuit is shut for exactly one more from the time at which that is noticed |
| Breaker.NoWedge | core/circuit_breaker.py:69-101 | from every reachable circuit one of two attempts spaced by the timeout is admitted, even if a claimed trial never reports |
| Breaker.CircuitBreaker.constructor | core/circuit_breaker.py:46-58 | every router starts closed, with an empty history |
| Breaker.CircuitBreaker.CanAttempt | core/circuit_breaker.py:63-104 | closed: admits and writes nothing; open: admits exactly when the timeout has passed since the stored failure, and then starts a trial; half-open: refuses, and re-opens when the trial is a timeout old; one step of the machine, other routers untouched, and the claim after the leak test is unreachable |
| Breaker.CircuitBreaker.OnSuccess | core/circuit_breaker.py:121-136 | closed with a zero count and no trial, whatever it was; one step of the machine, other routers untouched |
| Breaker.CircuitBreaker.OnFailure | core/circuit_breaker.py:138-167 | a half-open circuit re-opens now with a zero count; otherwise one more is counted, and only a closed circuit that reaches the threshold opens now; an open one keeps its opening time; one step of the machine, other routers untouched |
| Breaker.CircuitBreaker.ResetKey | core/circuit_breaker.py:179-186 | the router is fresh again, the others are as before |
| Throttle.SlotsAreLegal | core/mikrotik_api.py:234-242 | reserved slots are never before the caller's clock reading and at least the minimal interval apart |
| Throttle.SlotsAreLeast | core/mikrotik_api.py:234-242 | no schedule with those two properties starts any caller earlier |
| Throttle.SlotsSpread | core/mikrotik_api.py:234-242 | slots i and j are at least j - i intervals apart |
| Throttle.SlotsClosedForm | core/mikrotik_api.py:234-242 | the n-th slot is the largest of n intervals from 0.0 and, for every earlier caller, its reading plus the intervals since |
| Throttle.WindowHoldsAtMost | core/mikrotik_api.py:234-242 | a half-open window of k intervals holds at most k slots |
| Throttle.Throttle.Reserve | core/mikrotik_api.py:234-242 | the caller sleeps exactly until the slot that the schedule of all readings gives it, that is until 0.1 s after the last slot if that is later than now; other routers' schedules are untouched |
| PoolLedger.NextInv | core/connection_pool.py:166-325 | every critical section keeps the ledger: counter + debt = idle + lent + being opened + lost, debt is never negative, the queue is within its bound, every connection is in one place |
| PoolLedger.LedgerOverRuns | core/connection_pool.py:166-325 | so does every interleaving of any number of threads |
| PoolLedger.DebtMoves | core/connection_pool.py:214-325 | the debt rises exactly at reconnects pinned at the cap without an idle connection, by one from the cap, and falls exactly where guarded decrements are skipped: by one for a stale or broken connection, by the shortfall of the counter when all idle ones are closed |
| PoolLedger.NeverNegativeIffNoUnderflow | core/connection_pool.py:190-302 | the counter stays non-negative throughout a run if and only if no failed connect and no return to a full queue decrements a counter that is not positive |
| PoolLedger.UnpinnedRuns | core/connection_pool.py:166-302 | in runs without pinned reconnects the counter is the number of live connections, and so never negative, even when the cap is passed |
| PoolLedger.CappedIffNoOverfill | core/connection_pool.py:166-302 | the counter stays within the cap throughout a run if and only if no replacement of a stale connection returns to a counter at the cap |
| PoolLedger.CappedIfReplacedAtOnce | core/connection_pool.py:206-228 | in runs where every replacement directly follows its stale check the counter never exceeds the cap, pinned reconnects or not |
| PoolLedger.LiveBound | core/connection_pool.py:166-302 | live connections never exceed the cap plus the pinned reconnects and overfilling replacements made so far |
| PoolLedger.CleanRuns | core/connection_pool.py:166-302 | without pinned reconnects and overfilling replacements moreover live connections never exceed the cap, and the full-queue branch is never taken |
| PoolLedger.CleanIfReplacedAtOnce | core/connection_pool.py:166-302 | in runs without pinned reconnects where every replacement directly follows its stale check, 0 <= counter = live connections <= cap, and the full-queue branch is never taken |
| PoolLedger.CanFillIff | core/connection_pool.py:261-268 | giving connections back can meet the full-queue branch if and only if more connections are idle or lent than the queue holds |
| PoolLedger.ClosedForGood | core/connection_pool.py:195-325 | a closed connection is never queued or lent again |
| PoolLedger.LostForGood | core/connection_pool.py:202-233 | a connection whose health check raised an unlisted exception stays lost, and counted, over all runs |
| PoolLedger.FullyLost | core/connection_pool.py:174-294 | once as many as the cap are lost in a run without pinned reconnects, nobody reserves a count again without one |
| PoolLedger.OverlappedReplacementPassesTheCap | core/connection_pool.py:214-225 | witness: a run without any reconnect that brings the counter above the cap |
| PoolLedger.PinnedFailureGoesNegative | core/connection_pool.py:285-302 | witness: a pinned reconnect whose connect fails leaves the counter at -1 (the exact condition is NeverNegativeIffNoUnderflow) |
| PoolLedger.FullQueueGoesNegative | core/connection_pool.py:265-268 | witness: without any failed connect, returns to a full queue leave the counter at -1 |
| PoolLedger.PinnedReconnectFillsTheQueue | core/connection_pool.py:261-292 | witness: a pinned reconnect makes a healthy connection find the queue full |
| Pool.OthersKeepMyShare | core/connection_pool.py:166-302 | whatever other threads do, in any number of steps, a thread keeps the connections and reservations it has and gains none |
| Pool.StepIsOneStep | core/connection_pool.py:166-302 | a step moves the acting thread's share of one router only, and what it gives the thread did not hold before |
| Pool.ConnectionPool.constructor | core/connection_pool.py:52-67 | no router has connections at first |
| Pool.ConnectionPool.ConnectWithRetry | core/connection_pool.py:103-158 | dials one to three times, a second apart; retries exactly after LibRouterosError; the result is that of the last dial and the attempt, success and failure counters are exact |
| Pool.ConnectionPool.Enter | core/connection_pool.py:166-180 | reserves a count exactly when the queue is empty and fewer than three are counted; the queue is left alone |
| Pool.ConnectionPool.OpenReserved | core/connection_pool.py:182-192 | one lookup and one to three connects decide the result: a success lends a new connection, any failure takes the reservation back |
| Pool.ConnectionPool.TakeOldest | core/connection_pool.py:195 | hands the connection queued longest to the caller; the rest of the queue and the counter are left alone |
| Pool.ConnectionPool.Discard | core/connection_pool.py:214-220 | the stale connection is closed and discounted under the guard |
| Pool.ConnectionPool.OpenReplacement | core/connection_pool.py:221-228 | one lookup and one to three connects decide the result; the replacement is counted only once it is open, and a failure counts nothing |
| Pool.ConnectionPool.ReplaceStale | core/connection_pool.py:206-228 | the stale connection leaves the caller's hands; the caller gets a newly opened one, or the error, while others run in between |
| Pool.ConnectionPool.CheckOut | core/connection_pool.py:193-233 | checks the connection queued longest: a healthy one is handed out, a stale one replaced, and after an unlisted exception the caller gets that error and nothing else |
| Pool.ConnectionPool.AwaitIdle | core/connection_pool.py:193-245 | either a health check decides the result, or the wait ended at an empty queue, with TimeoutError and nothing asked of the router |
| Pool.ConnectionPool.GetConnection | core/connection_pool.py:160-245 | however threads interleave, the caller ends up with exactly one connection more, one it did not hold, or with what it held; with a free count and an empty queue one lookup and its connects decide which, otherwise a health check with its replacement does, or a wait that ended at an empty queue; while a connection is idle nothing is dialled unless one was found stale |
| Pool.ConnectionPool.ReserveOrReuse | core/connection_pool.py:275-294 | at the cap an idle connection is reused, or the counter pinned; below the cap a count is reserved |
| Pool.ConnectionPool.Reconnect | core/connection_pool.py:270-302 | as for GetConnection; at the cap with an idle connection it returns the oldest one and asks the router nothing, otherwise one lookup and its connects decide the result |
| Pool.ConnectionPool.ReleaseConnection | core/connection_pool.py:247-268 | the caller gives back exactly this connection: a broken one is closed and discounted (guarded), a healthy one goes to the back of the queue, or is closed and discounted (unguarded) when the queue is full |
| Pool.ConnectionPool.CloseConnection | core/connection_pool.py:304-325 | closes every idle connection of the router and lowers the counter by their number, but not below zero; nothing changes for an unknown router |
| Stack.MikrotikApi.constructor | core/mikrotik_api.py:61-67 | threshold 3 and timeout 30 s, nothing leased, reported or reserved yet |
| Stack.MikrotikApi.Attempt | core/mikrotik_api.py:172-195 | whatever the outcome, the caller's leases are as before; the lease is what pool and environment decide, the answer is the one command's on the leased connection, or the lease's error; the last step gives the connection back, broken exactly after an exception that is not fatal |
| Stack.MikrotikApi.BeforeRequest | core/circuit_breaker.py:106-119 | admits exactly when the circuit at the call does; the caller told the breaker about this one attempt |
| Stack.MikrotikApi.Retry | core/mikrotik_api.py:324-376 | up to three attempts, all but the last failed retryably, each decided by the scripts from where the one before stopped, the later ones after the back-off delays on forced reconnects; leases as before |
| Stack.MikrotikApi.Perform | core/mikrotik_api.py:323-376 | an admitted command: one slot, the recorded attempts, one report or none, with other threads on breaker and throttle in between |
| Stack.MikrotikApi.AwaitSlot | core/mikrotik_api.py:234-242 | one slot is reserved and the caller continues exactly at it, or at once if it has passed |
| Stack.MikrotikApi.Report | core/mikrotik_api.py:343-372 | one success report for an answer, a reboot's loss of connection or a fatal error; one failure report after the last retryable error; none for other exceptions |
| Stack.MikrotikApi.ExecuteLocked | core/mikrotik_api.py:317-376 | for every outcome and every interleaving: leases as before; a short-circuited command touches neither throttle, pool nor network; an admitted one gets one slot and at most three attempts with their back-off, which account for all it asked of the router; it returns the rows of its last request, or nothing for a reboot whose connection was lost, or raises the error of its last attempt, the third one if that could be retried; the breaker hears of a success for what is returned and for fatal errors, of a failure for other transport errors, and of nothing else |
| Stack.ReportsByOutcome | core/mikrotik_api.py:343-372 | what is reported depends on the outcome of the command only |
| Stack.OutcomeOf | core/mikrotik_api.py:325-376 | the outcome of a command is that of its last attempt |
| Stack.TriesAreFew | core/mikrotik_api.py:325-376 | the attempts of one command make at most three connects each, nine in all, and send at most three requests |
| Stack.MikrotikApi.ExecuteNonBlocking | core/mikrotik_api.py:413-445 | one recorded attempt, leases as before, breaker and throttle untouched; the connection is given back broken also when the name lookup or the log raises after the command's success |
| Stack.MikrotikApi.CheckConnectionHealth | core/mikrotik_api.py:197-228 | healthy exactly if the one attempt answered with rows; one slot, leases as before, breaker untouched |
| Stack.MikrotikApi.SerialCaller | core/mikrotik_api.py:317-376 | a caller alone at an unreachable router with a fresh circuit gets exactly `threshold` commands admitted; every later command that ends within the timeout since the circuit opened, which was during the last admitted one, is short-circuited and leaves lookups, connects, health checks, requests, slots and the router's pool as that one left them |
| Stack.BookedTotals | core/mikrotik_api.py:317-376 | so such a caller makes at most nine connects and three requests for each admitted command, and none beyond the admitted ones until the timeout has passed |
| Stack.MikrotikApi.CallUnreachable | core/mikrotik_api.py:317-376 | one command of such a caller: short-circuited without touching pool, slots or network, or raised with one failure report |
| WriteLocks.PathDoesNotMatter | core/mikrotik_api.py:49-52 | whether a command is a write depends on what follows its last slash only |
| WriteLocks.BlanksAndCaseDoNotMatter | core/mikrotik_api.py:49-52 | a command is a read exactly when its verb, in lower case and without surrounding blanks, is a known read verb |
| WriteLocks.ToLowerAt | core/mikrotik_api.py:51 | lower-casing turns capital letters into small ones, place by place, and changes nothing else |
| Basics.Blanks | core/mikrotik_api.py:51 | the characters that stripping removes, one by one |
| WriteLocks.NextInv | core/mikrotik_api.py:293-315 | every thread step keeps: locks of different routers differ, a thread waits for or holds exactly its own router's lock, and an owner is executing under it |
| WriteLocks.WritesAreSerialized | core/mikrotik_api.py:293-315 | in every interleaving two writes on one router never overlap, from taking the lock to releasing it, however many attempts, retries and sleeps lie between |
| WriteLocks.LockIsForever | core/mikrotik_api.py:293-298 | a router's lock, once made, is never replaced |
| WriteLocks.BlockedIffSameRouterWritten | core/mikrotik_api.py:300-315 | a waiting writer is blocked if and only if another thread is writing to the same router |
| WriteLocks.ReadsNeverWait | core/mikrotik_api.py:308-315 | in every state of every run a thread outside may begin a read and then executes at once without taking a lock, and a thread inside with a read may go on and finish, whatever others hold |
| WriteLocks.OnlyWritesLock | core/mikrotik_api.py:308-315 | in every state only writes wait, and a thread owns a lock exactly while it executes a write on the router whose lock it is |
| WriteLocks.CommandLocks.GetCmdLock | core/mikrotik_api.py:293-298 | returns the router's lock, making it on first use and never again |
| LruTtl.RunIsRecorded | core/cache.py:18-43 | after every sequence of operations the entries stand in the order of their last touch, and each is the last write of its key that was not invalidated |
| LruTtl.SizeIsBounded | core/cache.py:29-35 | there are never more entries than `max_size` |
| LruTtl.AnswersAreLastWrites | core/cache.py:18-27 | whatever is answered is the latest write that was not invalidated, younger than the ttl |
| LruTtl.EvictionNeedsTouches | core/cache.py:33-34 | a key is evicted only after `max_size` other keys were touched since its own last touch |
| LruTtl.RecentKeysAreKept | core/cache.py:18-35 | a key with a young last write and fewer than `max_size` other keys touched since its own last touch is still there |
| LruTtl.AgreesWithLastWrites | core/cache.py:18-43 | under that capacity condition the cache answers exactly as the map of last writes does |
| LruTtl.FreshKeysAreFound | core/cache.py:45-54 | the keys listed are, without repetition, exactly those that `get` would find |
| Caches.TTLCache.Get | core/cache.py:18-27 | a key is found exactly if it has an entry younger than the ttl; the entry found moves to the young end, an expired one goes; answers as the design says |
| Caches.TTLCache.Set | core/cache.py:29-35 | stores at the young end, with the time, evicting the old end for a new key when full; KeyError, and no change, exactly when there is no room for any entry |
| Caches.TTLCache.Invalidate | core/cache.py:37-39 | the key's entry goes, nothing else does; the dictionary stays equal to its history |
| Caches.TTLCache.Clear | core/cache.py:41-43 | every entry goes; the dictionary stays equal to its history |
| Caches.TTLCache.GetKeys | core/cache.py:45-49 | lists, each once, exactly the keys that a reading at that time would find |
| Caches.TTLCache.Len | core/cache.py:51-54 | counts exactly the keys that a reading at that time would find |
| Caches.ProfileCache.Get | core/profile_cache.py:31-43 | as TTLCache, but an entry whose age equals the ttl is still found |
| Caches.ProfileCache.Set | core/profile_cache.py:45-52 | as TTLCache; moving an existing key to the end and storing it is the same history step |
| Caches.ProfileCache.Invalidate | core/profile_cache.py:54-57 | the router's entry goes, nothing else does; the dictionary stays equal to its history |
| Caches.ProfileCache.Clear | core/profile_cache.py:59-62 | every entry goes; the dictionary stays equal to its history |
| RateTables.SameAnswer | utils/admin_decorator.py:87-99 | a table from which entries older than 60 s may be missing answers every request as the whole history would, if its reading is late by no more than 60 s minus its limit |
| RateTables.SweepKeeps | utils/admin_decorator.py:88-94 | dropping every entry older than 60 s keeps the table faithful to the history |
| RateTables.AskKeeps | utils/admin_decorator.py:96-102 | so does answering a request |
| RateTables.ForgetKeeps | utils/admin_decorator.py:66-70 | so does resetting keys |
| RateTables.CleanUpIsInvisible | utils/admin_decorator.py:66-102 | on every history in which no reading was later than that, the limiter answers exactly as one that never cleans up |
| RateTables.InvisibleIffSoonEnough | utils/admin_decorator.py:79-102 | for a request with a given limit and reading, at a given latest clock: over all runs of the limiter until then the answer is the never-cleaned one if and only if the clock is within 300 s, the reading below 0.05 s, or late by no more than 60 s minus the limit (minus 0.05 s for a reading below the limit) |
| RateTables.SuccessiveAdmissionsSpaced | utils/admin_decorator.py:96-102 | successive admissions of one key, no reset between, are less than 0.05 s or at least the limit apart, in whatever order the clock was read |
| RateTables.AdmissionsSpaced | utils/callback_utils.py:30-33 | without a grace period any two admissions of one key are at least the window apart |
| RateTables.FirstRequestWaitsForTheClock | utils/admin_decorator.py:96-99 | a key never admitted is held back exactly while the clock is between 0.05 s and its limit |
| RateTables.FastCallersAreNeverHeldBack | utils/admin_decorator.py:97-102 | once admitted, a caller who asks again within every 0.05 s is always admitted |
| RateTables.GetRateLimit | utils/admin_decorator.py:48-63 | the limit of the first table word that the name contains, written out word by word, or 1.0; between 0 and 60 s |
| RateTables.ContainsIff | utils/admin_decorator.py:61 | a name contains a word exactly if it is the word with something before and something after it |
| RateTables.RateLimitIsUnique | utils/admin_decorator.py:59-63 | only one limit meets that description |
| RateTables.RateLimiter.CheckRateLimit | utils/admin_decorator.py:79-102 | for every reading of the clock: let through exactly if less than 0.05 s or at least the limit have passed since the entry that the table holds after its clean-up, due every 300 s and dropping what is older than 60 s; only this key's entry is written; as long as no reading was too late the answer is that of the never-cleaned history |
| RateTables.RateLimiter.ResetUser | utils/admin_decorator.py:66-70 | forgets exactly the user's keys |
| RateTables.UsersDoNotCollide | utils/callback_utils.py:29 | clicks of two users share a key exactly when user and data are the same |
| RateTables.ClickKeyIs | utils/callback_utils.py:29 | no user and user 0 leave the data as it is, any other stands before it in decimal |
| RateTables.ClickFilter.IsDuplicate | utils/callback_utils.py:24-42 | a click without data is never a duplicate and leaves no trace; any other is one exactly if its key was let through less than 1 s ago, which is what the never-cleaned history says; entries older than 60 s are dropped only when 30 s have passed |
| Watchdog.ArmedIffEdges | core/watchdog.py:26-40 | every possible next result raises exactly its edge if and only if no alert is on record for a router known online |
| Watchdog.OnlyDisarmingWritesDisarm | core/watchdog.py:26-238 | that condition is left exactly by marking an alert while online, or reloading as online while one is on record |
| Watchdog.AlertsAreEdges | core/watchdog.py:26-100 | in every run without those writes, the alerts are exactly the changes in (initial status :: results), whatever health checks write in between |
| Watchdog.AlertsAreEdgesIff | core/watchdog.py:26-100 | over every run without clearing and reloading, the alerts are exactly the edges if and only if no failed check met a router known online with an alert on record; each such check is one alert less |
| Watchdog.EdgesAlternate | core/watchdog.py:26-40 | such alerts strictly alternate |
| Watchdog.FreshRouterAlerts | core/watchdog.py:26-40 | from a fresh router outages and recoveries alternate, and outages minus recoveries is 1 when last known offline and 0 otherwise |
| Watchdog.CalmWithoutMarks | core/watchdog.py:191-209 | without `mark_alert_sent`, clearing and reloading, every run meets the condition |
| Watchdog.MarkSwallowsTheOutage | core/watchdog.py:191-195 | marking an alert as sent while the router is online swallows the next outage |
| Watchdog.HealthCheckRearms | core/watchdog.py:63-68 | after a successful health check the next outage is alerted even if it had been marked |
| Watchdog.StillOfflineAfterRestart | core/watchdog.py:220-238 | a router loaded as offline on startup and still offline raises no alert |
| Watchdog.Watchdog.RecordCheckResult | core/watchdog.py:26-40 | offline is alerted for a router known online without an alert on record, recovery for one known offline; the result is remembered, the record set or cleared accordingly, and other routers are untouched |
| Watchdog.Watchdog.RecordHealth | core/watchdog.py:63-100 | the status writes of a health check clear the alert flag exactly when the check succeeded |
| Watchdog.Watchdog.WasAlertSent | core/watchdog.py:185-188 | tells whether an alert is on record |
| Watchdog.Watchdog.MarkAlertSent | core/watchdog.py:191-195 | records an alert only for a router with a status |
| Watchdog.Watchdog.ClearAlertSent | core/watchdog.py:198-202 | clears the record only for a router with a status |
| Watchdog.Watchdog.ClearStatus | core/watchdog.py:205-209 | the router is fresh again, the others are as before |
| Watchdog.Watchdog.LoadStatus | core/watchdog.py:212-238 | every listed router takes one reload step, every other router none |
| Cards.FirstFreeIsFree | core/hotspot_manager.py:130-138 | a generated name is free and has the form prefix + digits; failure means that all the names drawn were taken |
| Cards.FirstFreeIsFirst | core/hotspot_manager.py:130-138 | the name found is the first free one of the names drawn back to back, and the source is read up to its end |
| Cards.DrawIs | core/hotspot_manager.py:130-136 | names are drawn back to back, each of the given length |
| Cards.PoolSize | core/hotspot_manager.py:130-138 | there are at most 10^length names of that form |
| Cards.BatchFitsPool | core/hotspot_manager.py:352-407 | the prepared cards and the snapshot's names of that form never exceed 10^length together |
| Cards.ParamsSent | core/hotspot_manager.py:387-397 | the parameters sent for a card: name, profile and comment always; password and limits exactly when not empty; nothing else |
| Cards.InsertedCards | core/hotspot_manager.py:446-467 | the returned cards are, in order, exactly the prepared ones whose insertion succeeded; names stay distinct and numbers strictly increasing |
| Cards.Random.Number | core/hotspot_manager.py:70-72 | the next digits of the random source, one by one; none for a length that is not positive |
| Cards.GenerateUniqueUsername | core/hotspot_manager.py:130-138 | the first of up to 100 names, drawn back to back, that is not taken, or ValueError if all are |
| Cards.PrepareCardUsers | core/hotspot_manager.py:352-407 | for every random source: names distinct, absent from the snapshot and of the right form, numbers 1, 2, 3, ..., passwords as the card system says, each card with the batch's profile, limits and comment, parameters without empty values; as many as asked for, unless the last 100 names drawn were all taken |
| Cards.CreateCards | core/hotspot_manager.py:415-473 | as many cards as asked for are prepared, unless the last 100 names drawn were all taken, all with the given profile and limits and the comment made of prefix and time; one request is sent for each, in order, and the successful ones are returned, in order |
| Uptime.RoundTrip | bot/handlers/hotspot_flow_utils.py:18-27 | for every positive number both parsers read what the bot writes in hours as 3600 n and in any other unit as 86400 n |
| Uptime.WrittenTexts | bot/handlers/hotspot_flow_utils.py:18-27 | the texts written: HH:00:00 with two digits at least, Nd00:00:00, and nothing for a negative number; blanks and a plus sign are ignored |
| Uptime.RejectedInput | bot/handlers/hotspot_flow_utils.py:19-24 | input that is no positive number is written as the empty text, which both parsers read as 0 |
| Uptime.PlainClockAgrees | core/hotspot_manager.py:25-52 | on HH:MM:SS both parsers give h*3600 + m*60 + s |
| Uptime.DaysAndClock | core/hotspot_expiry.py:19-39 | on days followed by a clock one parser gives the days only, the other the whole time |
| Uptime.ParsersAgreeIff | core/hotspot_expiry.py:19-39 | so they agree on such texts if and only if the clock part is zero |
| Uptime.UnitTexts | core/hotspot_manager.py:25-43 | on texts of amounts with unit letters, any parts missing, one parser adds up the parts and the other gives 0 |
| Uptime.ShortClockAgrees | core/hotspot_manager.py:48-49 | both parsers read MM:SS as 60 m + s |
| Uptime.BareNumber | core/hotspot_manager.py:50 | a bare number is seconds for one parser and 0 for the other |
| Uptime.GarbageIsNothing | core/hotspot_manager.py:44-52 | without unit letters, a text with a character that no numeral has, or with more than two colons, is 0 |
| Decimal.SignedNumerals | bot/handlers/hotspot_flow_utils.py:20 | numerals are read with or without a sign, between blanks |
| Decimal.UnderscoreIsSkipped | bot/handlers/hotspot_flow_utils.py:20 | a single underscore may stand between digits |
| Decimal.MisplacedUnderscore | bot/handlers/hotspot_flow_utils.py:20-22 | an underscore at an end, or two together, make no number |
| Decimal.NoNumber | bot/handlers/hotspot_flow_utils.py:20-22 | neither does any character but digits, blanks, signs and underscores |
| Decimal.DigitsAreTheDigits | bot/handlers/hotspot_flow_utils.py:26-27 | the ten digits are printed as themselves |
| Decimal.Pad2Is | bot/handlers/hotspot_flow_utils.py:26 | padding puts a zero before single digits and changes nothing else |
| Decimal.PrintThenValue | bot/handlers/hotspot_flow_utils.py:27 | reading a printed number gives it back |
| Decimal.Pad2ThenValue | bot/handlers/hotspot_flow_utils.py:26 | so does reading a number padded to two digits |
| Mndp.RecordsOfEncoded | core/network_probe.py:61-78 | the records of any encoded list followed by any incomplete record are that list |
| Mndp.WireFormat | core/network_probe.py:71-74 | type and length stand in two bytes each, most significant first |
| Mndp.AttributeOf | core/network_probe.py:62-97 | which attribute each type number sets, and which records set none |
| Mndp.BodySplits | core/network_probe.py:70-78 | conversely, every body is its records, encoded, followed by one incomplete record, which is ignored |
| Mndp.UptimeIsRoundedDown | core/network_probe.py:87-92 | the printed days, hours and minutes are the seconds rounded down to a minute, with hours below 24 and minutes below 60 |
| Mndp.LastUpdateWins | core/network_probe.py:79-97 | each attribute has the value of the last record that sets it |
| Mndp.MacTextIsInjective | core/network_probe.py:79-80 | different addresses are printed differently |
| Mndp.MacTextAt | core/network_probe.py:80 | a MAC address is shown byte by byte in lower-case hexadecimal with colons between |
| Mndp.Ipv4TextIs | core/network_probe.py:93-95 | an IPv4 address is shown as its four bytes in decimal with dots between |
| Mndp.UptimeBytes | core/network_probe.py:88 | the first four bytes of an uptime are its seconds, least significant first, whatever follows |
| Mndp.UptimeIsDecoded | core/network_probe.py:87-92 | a packet that ends with an uptime record of n seconds decodes to the days, hours and minutes of n |
| Mndp.Ipv4TextIsInjective | core/network_probe.py:93-95 | different IPv4 addresses are printed differently |
| Mndp.DecodeMndpPacket | core/network_probe.py:52-98 | the decoding loop computes the fold of the records' updates; data shorter than its header decodes to nothing |
| Mndp.DecodeInvertsEncode | core/network_probe.py:52-98 | header, any records and any incomplete record decode to each attribute's last value, absent if none |
| PdfGrid.LineFitsIff | pdf/pdf_renderer.py:36-47 | cells of positive size stay inside their length and apart if and only if the gap is not negative or there is one cell |
| PdfGrid.CellsFill | pdf/pdf_renderer.py:40-41 | the last cell ends exactly where the usable length does |
| PdfGrid.PerPageIs | pdf/pdf_renderer.py:24-27 | a page holds the most full rows that the requested number has room for, and at least one row |
| PdfGrid.CellsAreDistinct | pdf/pdf_renderer.py:72-79 | no two cards share page, row and column |
| PdfGrid.CellIsUsed | pdf/pdf_renderer.py:72-79 | every cell of every page is some card's |
| PdfGrid.PlaceIs | pdf/pdf_renderer.py:72-84 | card i carries the number i + 1 and stands on page i // per-page, left to right and then top to bottom |
| PdfGrid.LayoutIsRightIff | pdf/pdf_renderer.py:24-82 | once the size check passes, n cards all lie inside the margins and none overlap if and only if in each direction the spacing is not negative where several cells are used, and else a cell is no longer than the usable length |
| PdfGrid.LoneCellHasRoom | pdf/pdf_renderer.py:36-41 | a lone used cell is no longer than the usable length exactly when it is the only one or spacing is not below minus that length |
| PdfGrid.GenerateCardsPdf | pdf/pdf_renderer.py:24-86 | ValueError exactly when the size check fails; otherwise the i-th drawn card is at the i-th place with number i + 1, and n cards take n / per-page pages, rounded up |
| PdfGrid.PageTurns | pdf/pdf_renderer.py:73-76 | card i is drawn after exactly i // per-page page breaks |

## Left out

- Breaker.CircuitBreaker.CanAttempt: `wrap`, which repeats before_request, on_success and on_failure around a function, is not modelled.
- Pool.ConnectionPool.CloseConnection: closing a connection is taken not to raise anything but what the code swallows.
- Pool.ConnectionPool.GetConnection: the health-check executor, its shutdown and the length of the 30 s wait are not modelled, only their outcomes.
- Stack.MikrotikApi.SerialCaller: the bound on admitted commands is stated for a caller alone at its router; with other callers the breaker's own bounds hold, over all their attempts together.
- Stack.MikrotikApi.ExecuteLocked: the write lock around it is modelled separately, in `WriteLocks`; after a success the code reports to the breaker just before giving the connection back, the model just after; the two objects share no state.
- Stack.MikrotikApi.Report: CircuitBreakerOpenError raised inside an attempt does not occur, since the breaker is asked only before the attempts.
- WriteLocks.PathDoesNotMatter: stripping and lower-casing are those of ASCII text.
- WriteLocks.WritesAreSerialized: what a thread does while it executes is one step that leaves the locks alone, taken any number of times; the attempts themselves are those of `Stack`. A thread executes one command at a time; re-entering the same lock is allowed by the machine but not nested by the code.
- Caches.TTLCache.Get: a stored None is told from a missing key, and the wall clock is taken not to be set back where a lemma says so.
- Caches.ProfileCache.Get: lists are values, so the copies that protect against aliasing have nothing to protect; `stats` only counts and is left out.
- RateTables.RateLimiter.CheckRateLimit: the branch for automated runs under PYTEST_CURRENT_TEST is left out.
- Stack.MikrotikApi.ExecuteNonBlocking: whether the name lookup or the log raises after the command is a parameter, and such an exception is taken not to carry one of the non-retryable texts.
- RateTables.ClickFilter.IsDuplicate: the clock is read and the table used without a lock in between, on one event loop, so readings are taken to be in order.
- Watchdog.Watchdog.RecordHealth: times, CPU load, memory and the upstream check are not stored.
- Cards.PrepareCardUsers: the random source is any sequence of numbers; nothing is said about probability.
- Cards.CreateCards: the per-router creation lock and the invalidation of the user cache are left out.
- Uptime.RoundTrip: digits are ASCII; other Unicode digits and spaces that Python accepts are not modelled, nor is the limit of 4300 digits that recent Python versions put on `int`.
- Mndp.DecodeMndpPacket: UTF-8 decoding with replacement is kept as an uninterpreted text of the bytes.
- PdfGrid.GenerateCardsPdf: lengths are exact, so rounding of floating-point coordinates is not covered; the contents of a card are not modelled.
- The pool's caches of versions and names, cache hits, metrics, logging and `close_all` (which clears counters while connections are lent).
- Merging of discovery results (`_merge_port_results`, `_merge_mndp_results`, `_enrich_from_arp`): copying of fields between dictionaries.
- Sockets, librouteros, the database, encryption, drawing and the Telegram interface.
