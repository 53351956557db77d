# The traffic gateway's concurrent core, verified

This project models the five state machines that make up the logic of the traffic-shaping gateway and proves what they
keep: the credit engine that reserves, commits and refunds bytes without locks; the session cache with its linked tape
of nodes and its janitor; the token-bucket rate limiter; the packet gateway with its table-driven dispatcher; and the
bounded event bus. `dafny verify dfyconfig.toml` checks all of it.

## How it is built

| files | what they hold |
|---|---|
| `Numbers.dfy`, `Sums.dfy` | minimum and maximum; finite sums over sequences and maps |
| `Ocs.dfy` | the credit engine's data and the undisturbed meaning of each operation (`Ocs`), and the laws of a session alone (`OcsLaws`) |
| `OcsEngine.dfy` | the engine and its Gy handler as objects changed in place, proved equal to `Ocs` |
| `OcsGy.dfy` | what each Gy request does to accounts and sessions and is answered, in figures |
| `OcsMachine.dfy` | every interleaving: one step per atomic load, swap, add, map load, store or delete, any number of threads |
| `OcsConservation.dfy`, `OcsWrap.dfy`, `OcsClients.dfy` | no byte is lost or made, exactly when, and what clients must go by |
| `OcsLinearizable.dfy`, `OcsProgress.dfy` | reservations happen one by one; retries are paid for by others' writes |
| `LruModel.dfy` | the cache as a value: a tape of cells, a live prefix, a cursor and a set of indexed keys |
| `LruCache.dfy` | the cache as objects with real links, proved equal to `LruModel` operation by operation |
| `LruRuns.dfy`, `LruJanitor.dfy`, `LruSleep.dfy`, `LruStranded.dfy` | runs of Get and Set; what the janitor does, alone and between them; how long it sleeps; life after index and count have come apart |
| `TokenBucket.dfy`, `LimiterMachine.dfy` | the bucket alone (laws and object); every interleaving of requests at the limiter |
| `LimiterDenials.dfy` | who may be denied, and a request that runs alone |
| `LimiterRate.dfy`, `LimiterOverrun.dfy` | when the rate bound holds under interleaving, and that no condition can be spared |
| `Dispatch.dfy`, `Pcef.dfy` | range table and mask registry; shards, packet pipeline and charging |
| `Billing.dfy`, `EndToEnd.dfy` | what streams of packets cost, and what subscribers get for it |
| `MessageBus.dfy` | the bounded queue |

Methods follow the source's imperative form and are proved against functions on values; the long-run theorems are about
those functions and about the two step machines. Clock readings, the hash of an address and the nanosecond stamps in
session ids are parameters. The engine's words are 64-bit: every addition wraps explicitly (`Ocs.Wrap`), and the
conservation theorems prove that it does not happen.

## What the proofs found

- **A TERMINATE can make bytes.** An UPDATE answered 4012 commits its use but leaves the old quota in the session, and a
  later TERMINATE refunds it again (`OcsLaws.ReleaseAfterCreditLimitMintsBytes`). A TERMINATE charges exactly
  min(used, quota) if and only if the reserve still covers the whole quota
  (`OcsLaws.ReleaseChargesUseIffReserveCovers`).
- **The reserve can outgrow the balance.** Release pays back before it clears the reservation, so k releases caught in
  between let the reserve climb to (k + 1) times the opening balance. Polite clients with at most k such releases
  conserve bytes in every run if and only if that product fits 64 bits (`OcsWrap.ConservedIffReserveFits`).
- **The janitor loses its place.** `moveToHead` does not move `activeTail`. Touching the bottom one of several live
  sessions and letting it expire leaves the janitor asleep with all the others in the index and none counted
  (`LruStranded.TouchingTheBottomStrandsTheRest`). From then on, whatever clients and janitor do, such a session is
  never evicted unless somebody touches it: it stays in the index until a new session takes its node, and is then
  dropped without a callback (`LruStranded.StrandedForGood`); and the deficit of the count is made up only by such
  drops (`LruStranded.UncountedStay`).
- **A key can come back too early.** Recycling a node that still carries a re-registered key takes that live session
  out of the index (`LruStranded.RecyclingLosesRevivedKey`; `LruStranded.RevivedKeyIsLost` is a run that gets there).
  Exactly the operations `LruJanitor.Allowed` describes keep the cache orderly (`LruJanitor.OrderlyIffAllowed`).
- **Capacity one.** Recycling the only node links it to itself in both directions
  (`LruCache.ReactiveLruCache.TailToHead`).
- **The tape grows at the limit.** The comment at `internal/pkg/lru/reactive_cache.go:186-190` says that memory taken in
  an overload is given back, but the cut is decided after the count went down: every round of one expiry and one new
  session at full capacity leaves one more node on the tape, without bound (`LruJanitor.TapeGrowsEveryRound`,
  `LruJanitor.TapeGrowsWithoutBound`), and a drain stops at
  capacity + 1 (`LruJanitor.DrainShrinksExactly`).
- **The limiter can exceed its rate.** It reads timestamp and tokens separately and swaps them separately. The rate
  bound holds in every interleaving in which each token is taken with the bucket's current timestamp, by a request
  whose clock reading is not behind it, while no other timestamp swap is pending (`LimiterRate.RateBoundInterleaved`).
  None of the three conditions can be spared: for each there is a run from an empty limiter that keeps the other two
  and ends above the bound (`LimiterOverrun.EveryConditionIsNeeded`).
- **Small streaming packets are charged and refused.** No policy is registered for their mask, nor for inactive
  sessions, and the charge comes first (`EndToEnd.VerdictFollowsBalance`). The requirements call mask 0x15 an
  unregistered anomaly; the code registers it with 10 Mbit/s, and the model follows the code.
- **A negative packet size empties the balance**, because it is read as a huge unsigned one
  (`EndToEnd.NegativeSizeEmptiesBalance`).
- **Packet sessions are never closed.** Each packet opens a new session, and the eviction callback terminates a session
  id that was never stored (`Billing.SessionsAreNeverClosed`, `Billing.EvictionChangesNothing`).
- The documentation promises a fixed 10 MB quantum; the handler asks for as many bytes as were used. The model follows
  the handler.

## Model

| member | source | states |
|---|---|---|
| `OcsEngine.OcsService.constructor` | services/ocs-rating/internal/app/service.go:20-24 | A new engine knows exactly the VIP, BASE and EMPTY accounts of lines 126-131, with nothing reserved and no session |
| `OcsEngine.OcsService.Reserve` | services/ocs-rating/internal/app/service.go:27-61 | Undisturbed, the loop leaves the whole ledger as the reservation on values says: min(requested, balance) moved to the reserve and a session stored, or 4012 and nothing changed |
| `OcsEngine.OcsService.CommitAndReserve` | services/ocs-rating/internal/app/service.go:64-85 | The whole ledger after committing min(used, reserved) and reserving anew, including the 4012 case that keeps the old session |
| `OcsEngine.OcsService.LowerReserve` | services/ocs-rating/internal/app/service.go:72-81 | The retry loop takes min(amount, reserved) out of the reserve and touches no other account, and it ends |
| `OcsEngine.OcsService.Release` | services/ocs-rating/internal/app/service.go:88-124 | The whole ledger after a refund of quota less use, the clearing of the reservation and the deletion of the session; unknown accounts and sessions are refused and change nothing |
| `OcsEngine.GrpcHandler.RequestCreditControl` | services/ocs-rating/transport/grpc/handler.go:22-58 | Malformed requests change nothing; any other is served exactly once by the operation its type stands for, and every engine error reaches the network as 4012 with nothing granted |
| `OcsGy.InitialInFigures` | services/ocs-rating/transport/grpc/handler.go:33-34 | An INITIAL of a known subscriber: 2001 with min(asked, balance) moved to the reserve and noted in the session with its charging key, or 4012 and nothing changed at balance zero |
| `OcsGy.UpdateInFigures` | services/ocs-rating/transport/grpc/handler.go:35-36 | An UPDATE: min(used, reserve) leaves the reserve, then as much again is granted, 2001 and the session rewritten; at balance zero 4012 and the session as it was |
| `OcsGy.TerminateInFigures` | services/ocs-rating/transport/grpc/handler.go:37-39 | A TERMINATE of a stored session: the unused quota returned, the reserve cleared of the quota as far as it goes, the session gone, 2001; of any other 4012 and nothing changed |
| `OcsGy.RefusedInFigures` | services/ocs-rating/transport/grpc/handler.go:23-51 | Invalid exactly without an id or with a type other than 1, 2 or 3; unknown subscribers are answered 4012; neither changes anything |
| `OcsMachine.SoloRunIsSequential` | services/ocs-rating/internal/app/service.go:27-124 | A thread of the step machine that runs alone needs at most seven actions and does to the shared state what the sequential operation does |
| `OcsLaws.ReserveThenReleaseCostsUse` | services/ocs-rating/internal/app/service.go:27-124 | A reserve and release pair with use u costs exactly u (up to the grant) and leaves every other account and session as it was |
| `OcsLaws.ReleaseChargesUseIffReserveCovers` | services/ocs-rating/internal/app/service.go:101-120 | A release charges exactly min(used, quota) if and only if the reserve covers the quota; otherwise the shortfall becomes new bytes |
| `OcsLaws.ReleaseAfterCreditLimitMintsBytes` | services/ocs-rating/internal/app/service.go:36-38 | The concrete session that uses up its balance, is answered 4012 on the UPDATE and gets everything back from the TERMINATE |
| `OcsConservation.ConservationWithoutRefunds` | services/ocs-rating/internal/app/service.go:34-98 | For traffic whose TERMINATEs find no session, with any values, any number of threads, any interleaving: balance plus grants is the opening balance; balance, reserve, in-flight and spent bytes add up to the opening total; so no word wraps and grants never exceed the balance |
| `OcsConservation.ApartIdsNeverRefund` | services/ocs-rating/internal/app/service.go:95-98 | If no INITIAL or UPDATE uses the session ids of TERMINATEs, no schedule lets a TERMINATE find a session |
| `OcsConservation.ConservationWithRefunds` | services/ocs-rating/internal/app/service.go:27-124 | For polite clients, every interleaving: balance, reserve, in-flight and spent bytes add up to the opening balance plus refunds awaiting their debit; the reserve is exactly what sessions, running requests and stranded remainders hold; and whatever a session holds, it is stored for this subscriber with at least that quota |
| `OcsConservation.ClampsNeverFire` | services/ocs-rating/internal/app/service.go:73-78 | In such a run every swap about to succeed finds a reserve that covers the whole amount, and no addition drops a carry |
| `OcsConservation.QuietBooksClose` | services/ocs-rating/internal/app/service.go:87-124 | Once every request is answered, balance, reserve and spent bytes are the opening balance, and the reserve is what stored sessions of the subscriber hold, each at most its quota, and what closed ones left behind |
| `OcsWrap.ConservedIffReserveFits` | services/ocs-rating/internal/app/service.go:107-120 | Polite clients with at most k releases between refund and debit conserve bytes in all runs if and only if (k + 1) times the opening balance fits 64 bits |
| `OcsClients.ConservationForCourteousClients` | services/ocs-rating/transport/grpc/handler.go:22-58 | Clients that go only by their own requests and the answers to them (last grant, code, use) are polite, so bytes are conserved; and for every idle session of theirs the engine holds exactly what they believe is left |
| `OcsClients.CourteousIsPolite` | services/ocs-rating/internal/app/service.go:64-124 | Conduct in observable terms implies the conduct the conservation theorem asks for, at every point of every interleaving |
| `OcsLinearizable.AnswerIsReserve` | services/ocs-rating/internal/app/service.go:34-59 | The rule by which reservations are replayed is the sequential engine's own grant, code and balance |
| `OcsLinearizable.ReserveIsLinearizable` | services/ocs-rating/internal/app/service.go:34-60 | Amid any traffic, the successful swaps and empty loads, taken one by one, give every reservation its actual grant and code and end in the actual balance, and each thread's answer is its one entry |
| `OcsLinearizable.AnsweredBeforeCalledLater` | services/ocs-rating/internal/app/service.go:34-60 | The order respects real time: an answered reservation has its single entry before any entry of a reservation called later |
| `OcsProgress.RetriesArePaidByOthers` | services/ocs-rating/internal/app/service.go:34-120 | In every interleaving each failed swap of the three loops is paid for by another thread's write to the same word, and a thread takes at most two actions in its loop per such write besides an undisturbed pass |
| `OcsProgress.LoopEnds` | services/ocs-rating/internal/app/service.go:34-120 | A thread that ran in its loop more often than the others' writes allow has left it |
| `LruCache.ReactiveLruCache.constructor` | internal/pkg/lru/reactive_cache.go:34-59 | For any capacity: that many unused nodes, doubly linked from head to tail (none for zero), with an empty index; from capacity two on index, count and prefix agree |
| `LruCache.ReactiveLruCache.Get` | internal/pkg/lru/reactive_cache.go:61-74 | On any sound cache, agreeing or not: finds a key exactly if it is indexed, returns its node's value, restamps the node and moves it to the head of a list that stays well formed, and changes nothing else; on an agreeing cache that is the value cache's Get |
| `LruCache.ReactiveLruCache.Set` | internal/pkg/lru/reactive_cache.go:76-147 | On any sound cache, agreeing or not: touches the indexed node, recycles the tail or adds a node, and the list stays well formed; on an agreeing cache that is the value cache's Set, and index, count and prefix still agree if and only if the reused node does not carry another live key; a node is allocated only for a new key at capacity |
| `LruCache.ReactiveLruCache.Recycle` | internal/pkg/lru/reactive_cache.go:90-126 | Within capacity the tail node drops its old key from the index, takes the new session, becomes the head and, in an empty cache, the janitor's next victim; no other link or field changes |
| `LruCache.ReactiveLruCache.Grow` | internal/pkg/lru/reactive_cache.go:128-144 | At capacity one new node is linked before the head and indexed |
| `LruCache.ReactiveLruCache.Evict` | internal/pkg/lru/reactive_cache.go:176-196 | The victim leaves index and count, its node is cut only if more than the capacity remain, and activeTail moves to the node above |
| `LruCache.ReactiveLruCache.MoveToHead` | internal/pkg/lru/reactive_cache.go:218-237 | The list from head to tail stays doubly linked and acyclic, with the node moved to the front and the order of the others kept |
| `LruCache.ReactiveLruCache.TailToHead` | internal/pkg/lru/reactive_cache.go:105-116 | With two nodes or more the tail becomes the head of a well-formed list; a node alone on the tape ends up linked to itself |
| `LruCache.ReactiveLruCache.RemoveNodePhysical` | internal/pkg/lru/reactive_cache.go:257-271 | The list stays doubly linked, without the node |
| `LruCache.ReactiveLruCache.JanitorPass` | internal/pkg/lru/reactive_cache.go:154-206 | On any sound cache, agreeing or not, one locked pass of the loop is the value cache's sweep, and a wait is for exactly what the session at activeTail has left; an agreeing one still agrees if and only if activeTail is at the bottom of the prefix or the cut removes the node |
| `LruCache.ReactiveLruCache.DrainToSleep` | internal/pkg/lru/reactive_cache.go:153-205 | The loop ends, and what it leaves and evicts is the drain on values; the sleep it ends with is exactly what the last survivor has left |
| `LruRuns.CacheIsMapWithRecency` | internal/pkg/lru/reactive_cache.go:61-147 | Over Get and Set runs of any length, past capacity too: a lookup gives the value last Set and misses only keys never Set, and the live prefix lists keys from last to first touched |
| `LruRuns.HeartbeatsNonIncreasing` | internal/pkg/lru/reactive_cache.go:61-147 | With a clock that does not run backwards the live prefix is sorted by heartbeat |
| `LruRuns.HeartbeatIsLastTouch` | internal/pkg/lru/reactive_cache.go:70-100 | After any run the heartbeat of every live session is the time of its last Set or Get |
| `LruRuns.ApplyTidy` | internal/pkg/lru/reactive_cache.go:61-147 | Each Get and Set keeps the tape max(capacity, count) long, its first count cells exactly the indexed ones with distinct keys, and the rest never used |
| `LruModel.SetAgrees` | internal/pkg/lru/reactive_cache.go:94-96 | Set keeps index, count and prefix in agreement if and only if the recycled node's old key is not a live one |
| `LruModel.SweepAgrees` | internal/pkg/lru/reactive_cache.go:157-201 | A janitor pass keeps them in agreement exactly in the cases `SweepsBottom` lists |
| `LruJanitor.CountIsIndexSize` | internal/pkg/lru/reactive_cache.go:26-31 | Whenever they agree, the count is the size of the index |
| `LruJanitor.DrainEvictsBottom` | internal/pkg/lru/reactive_cache.go:153-205 | A drain evicts a bottom suffix of the recency order, bottom first, each victim expired when its turn came, and stops at a survivor that is not, with activeTail at the new bottom |
| `LruJanitor.DrainLeavesUnexpired` | internal/pkg/lru/reactive_cache.go:153-205 | With heartbeats in recency order no survivor is expired when the drain stops |
| `LruJanitor.DrainShrinksExactly` | internal/pkg/lru/reactive_cache.go:179-190 | After an overload of L cells a drain of m sessions leaves exactly max(L - m, capacity + 1) |
| `LruSleep.JudgeInFigures` | internal/pkg/lru/reactive_cache.go:157-205 | A pass falls asleep exactly when nobody is left or in sight, evicts exactly when heartbeat plus timeout has passed, and otherwise waits for exactly the difference |
| `LruSleep.WaitsUntilExpiry` | internal/pkg/lru/reactive_cache.go:205-213 | Told to wait w, the next pass evicts the session at the cursor if and only if w has gone by |
| `LruSleep.SleepEndsAtExpiry` | internal/pkg/lru/reactive_cache.go:205-213 | The same amid any client operations that leave that session alone |
| `LruJanitor.OrderlyIffAllowed` | internal/pkg/lru/reactive_cache.go:76-205 | Janitor passes always keep the cache orderly, and client operations do if and only if they do not touch the bottom of several sessions nor revive a key some dead node remembers |
| `LruJanitor.InterleavedRunStaysOrderly` | internal/pkg/lru/reactive_cache.go:76-205 | Any interleaving of allowed operations and janitor passes keeps index, count, prefix and activeTail right |
| `LruJanitor.AllowedRunsStayOrderly` | internal/pkg/lru/reactive_cache.go:34-205 | The same from a new cache, with the index as large as the count and activeTail at the bottom |
| `LruStranded.TouchingTheBottomStrandsTheRest` | internal/pkg/lru/reactive_cache.go:157-160 | For every cache with two or more sessions: touch the bottom one, let it expire, and two passes later the janitor sleeps, counting nobody, with all others still indexed and below its reach |
| `LruStranded.StrandedForGood` | internal/pkg/lru/reactive_cache.go:90-205 | Over any run of Get, Set and passes off the agreeing states, a stranded session nobody touches is never evicted and stays indexed until a new session takes its node, which drops it without a callback |
| `LruStranded.UncountedStay` | internal/pkg/lru/reactive_cache.go:90-205 | Over any such run the sessions the count does not know of become fewer only by being dropped that way |
| `LruStranded.UncountedStep` | internal/pkg/lru/reactive_cache.go:90-205 | The exact change of that number by each operation and each kind of pass |
| `LruStranded.DeedsAreMoves` | internal/pkg/lru/reactive_cache.go:61-205 | On an agreeing cache these operations are the agreeing ones |
| `LruStranded.RecyclingLosesRevivedKey` | internal/pkg/lru/reactive_cache.go:94-96 | Reusing a node that remembers a live key drops that session from the index although its node stays in the prefix |
| `LruStranded.RevivedKeyIsLost` | internal/pkg/lru/reactive_cache.go:94-96 | A run from an empty cache of three nodes that loses a live session this way |
| `LruJanitor.TapeGrowsWithoutBound` | internal/pkg/lru/reactive_cache.go:186-190 | For every n, two sessions and n such rounds leave 2 + n nodes on a tape of capacity two |
| `LruJanitor.TapeGrowsEveryRound` | internal/pkg/lru/reactive_cache.go:186-190 | n rounds of one expiry and one new session at capacity leave n more nodes on the tape |
| `RateLimiter.TokenBucketLimiter.constructor` | internal/pkg/ratelimit/limiter.go:31-38 | A limiter without buckets and denials, its rate and capacity scaled by a million |
| `RateLimiter.TokenBucketLimiter.TakeToken` | internal/pkg/ratelimit/limiter.go:62-99 | The retry loop decides as the bucket on values does and counts a denial without touching the bucket |
| `RateLimiter.TokenBucketLimiter.Allow` | internal/pkg/ratelimit/limiter.go:42-100 | A new key gets a full bucket; its bucket alone changes, as the bucket on values says |
| `TokenBucket.RateBound` | internal/pkg/ratelimit/limiter.go:60-94 | For any requests one after another under a clock that does not run backwards, the scaled admissions are at most the capacity plus rate times time since creation |
| `TokenBucket.AllowInFigures` | internal/pkg/ratelimit/limiter.go:68-92 | One request: elapsed time, truncated refill, cap, the one-token threshold and the new bucket |
| `TokenBucket.AllowedIffTokenFlowedIn` | internal/pkg/ratelimit/limiter.go:67-94 | Allowed if and only if the capacity holds a token and tokens plus rate times time since the last admission make one, so nobody who waits long enough is denied |
| `TokenBucket.TokensAccountedFor` | internal/pkg/ratelimit/limiter.go:60-94 | Admissions and tokens left never exceed the opening tokens plus what flowed in up to the last admission, so denials lose no refill time |
| `TokenBucket.IdealIsContinuous` | internal/pkg/ratelimit/limiter.go:73-77 | The real-valued reference bucket holds the same later however often it is looked at |
| `TokenBucket.IntegerRefinesIdeal` | internal/pkg/ratelimit/limiter.go:68-90 | After n admissions the scaled count is at most the ideal one and lags it by less than n, capping included |
| `TokenBucket.DecisionsFollowIdeal` | internal/pkg/ratelimit/limiter.go:79-87 | No request is admitted that the ideal bucket would refuse, and only those within the lag of one token are refused beyond it |
| `LimiterMachine.SharedBucketInRange` | internal/pkg/ratelimit/limiter.go:46-94 | In every interleaving all callers of a key share one bucket for ever despite the creation race, and no bucket's tokens leave [0, capacity] |
| `LimiterMachine.BurstBound` | internal/pkg/ratelimit/limiter.go:60-94 | In every interleaving, while no caller of a bucket has read a time after its creation, missing tokens and admissions match exactly and at most capacity / scale are admitted |
| `LimiterMachine.RetriesArePaidByOthers` | internal/pkg/ratelimit/limiter.go:63-99 | Each failed swap of Allow is paid for by another thread's change of the same token count, which also bounds the loop |
| `LimiterDenials.DeniedFoundShort` | internal/pkg/ratelimit/limiter.go:79-84 | In every interleaving a denied request found less than one token when it last read the bucket |
| `LimiterDenials.LoserReadsAgain` | internal/pkg/ratelimit/limiter.go:90-98 | A failed swap changes nothing and sends the request back to read with the same clock reading |
| `LimiterDenials.BurstIsGranted` | internal/pkg/ratelimit/limiter.go:60-94 | While no caller of a bucket has read a time after its creation, somebody is denied only once exactly capacity / scale were admitted |
| `LimiterDenials.BlockedCountsDenials` | internal/pkg/ratelimit/limiter.go:80-83 | In every interleaving the counter is the number of denied requests |
| `LimiterDenials.SoloRunIsAllow` | internal/pkg/ratelimit/limiter.go:42-100 | A request that runs alone on the step machine finds or creates its bucket and leaves bucket, counter and answer as the bucket on values says |
| `LimiterMachine.OneRefillPaysTwice` | internal/pkg/ratelimit/limiter.go:90-92 | For two requests about to read one bucket with equal clock readings, the second running between the two swaps of the first: when it is admitted, and when it would be after the first |
| `LimiterRate.RateBoundInterleaved` | internal/pkg/ratelimit/limiter.go:63-94 | In every interleaving whose tokens are all taken with the current timestamp, by a request not behind it, with no timestamp swap pending: scaled admissions are at most capacity plus rate times time since creation, at every moment |
| `LimiterOverrun.EveryConditionIsNeeded` | internal/pkg/ratelimit/limiter.go:63-94 | Whichever of the three conditions is dropped, some schedule from an empty limiter keeps the others and exceeds the bound |
| `LimiterOverrun.PendingStampOverruns` | internal/pkg/ratelimit/limiter.go:90-92 | Three admissions where two are due: a token taken between the two swaps of another request |
| `LimiterOverrun.MovedStampOverruns` | internal/pkg/ratelimit/limiter.go:64-65 | Three admissions where two are due: a timestamp read before another request's passage, tokens after it |
| `LimiterOverrun.LateRequestOverruns` | internal/pkg/ratelimit/limiter.go:60-92 | Four admissions where three are due, one after another: a request that read the clock early puts the timestamp back |
| `Dispatch.TableDrivenEngine.AddRangeConfig` | internal/pkg/dispatch/engine.go:34-39 | The table stays sorted and gains exactly the new range |
| `Dispatch.TableDrivenEngine.RegisterAction` | internal/pkg/dispatch/engine.go:42-44 | The registry changes at one mask |
| `Dispatch.TableDrivenEngine.EvaluateRange` | internal/pkg/dispatch/engine.go:47-62 | Bisection with the clamp answers as the cascade of comparisons does |
| `Dispatch.TableDrivenEngine.Execute` | internal/pkg/dispatch/engine.go:65-73 | An unregistered mask is an error that touches nothing; a registered one sets its bandwidth |
| `Dispatch.CascadeIsLeastBound` | internal/pkg/dispatch/engine.go:52-61 | The answer is the flag of the least bound that reaches the value, or of the last range if none does |
| `Dispatch.RangesAreMonotone` | internal/pkg/dispatch/engine.go:52-61 | A larger value never falls into an earlier range |
| `Dispatch.SortedTableIsUnique` | internal/pkg/dispatch/engine.go:34-39 | With distinct bounds the table does not depend on the order in which ranges were added |
| `Pcef.RegistryIsNested` | services/pcef-core/internal/app/service.go:116-157 | Mask, registry and policies give the verdict of a nested conditional over state, host and size |
| `Pcef.VerdictInFigures` | services/pcef-core/internal/app/service.go:138-157 | The verdict by answer, state, host and size with every bandwidth spelled out, the throttled 65536 included |
| `Pcef.ChargeInFigures` | services/pcef-core/internal/app/service.go:130-136 | The UPDATE a frame is charged by: session id, subscriber, charging key by host, and the payload read as an unsigned number |
| `Pcef.ChargeTakesSize` | services/pcef-core/internal/app/service.go:130-136 | A charge takes the payload from the balance, as far as that goes |
| `Pcef.BootstrapDispatcher` | services/pcef-core/internal/app/service.go:187-215 | The two ranges and three policies a new gateway has |
| `Pcef.PcefCoreService.constructor` | services/pcef-core/internal/app/service.go:42-83 | Thirty-two distinct shards that share no node, and no address known, each with a new cache of five thousand nodes and a timeout of a minute |
| `Pcef.PcefCoreService.RegisterSubscriber` | services/pcef-core/internal/app/service.go:91-104 | The shards as one map change at one address, to a new active session with 100 Mbit/s; the address's shard sees one cache Set, the others nothing |
| `Pcef.PcefCoreService.ProcessPacket` | services/pcef-core/internal/app/service.go:106-158 | Unknown addresses are dropped without a charge; a known subscriber's packet is charged exactly once whatever the verdict, its payload taken from the balance as far as that goes; the verdict is the nested conditional's, independent of the session's earlier bandwidth; the address's shard sees one cache Get, the other shards nothing, and what the shards hold as one map stays |
| `Pcef.PcefCoreService.Enforce` | services/pcef-core/internal/app/service.go:116-157 | Signature, range, mask and registry decide as the nested conditional does, and only an ALLOW changes the session's bandwidth |
| `Pcef.PcefCoreService.OnEvict` | services/pcef-core/internal/app/service.go:58-65 | The eviction callback sends one TERMINATE for the fixed subscriber under a fresh id, which changes nothing in an engine whose sessions are those of packets |
| `Billing.PacketIsCharged` | services/pcef-core/internal/app/service.go:130-144 | One packet takes min(size, balance) from its subscriber and from nobody else, leaves a reserve no larger than before or than itself, and is answered 4012 exactly if nothing was left |
| `Billing.BalanceIsOpeningLessBytes` | services/pcef-core/internal/app/service.go:130-144 | After any packets of any subscribers and any evictions a balance is max(0, opening - bytes), and the reserve at most the larger of its start and the largest packet |
| `Billing.ThrottledIffExhausted` | services/ocs-rating/internal/app/service.go:34-38 | A packet is answered 4012 exactly when the subscriber's earlier packets used up the balance |
| `Billing.ThrottlingIsPermanent` | services/ocs-rating/internal/app/service.go:34-38 | Once throttled, always throttled |
| `Billing.EvictionChangesNothing` | services/ocs-rating/internal/app/service.go:95-98 | An eviction's TERMINATE finds no session and is refused |
| `Billing.GrantedPacketsLeaveSessions` | services/ocs-rating/internal/app/service.go:51-57 | The engine's sessions are those it had and those of the granted packets; with different session ids, n granted packets leave n more |
| `Billing.SessionsAreNeverClosed` | services/ocs-rating/internal/app/service.go:51-57 | No packet or eviction ever removes a session a packet opened |
| `EndToEnd.FrameIsPacket` | services/pcef-core/internal/app/service.go:130-136 | Charging a frame through the handler is billing one packet |
| `EndToEnd.VerdictFollowsBalance` | services/pcef-core/internal/app/service.go:106-158 | After any stream, the next frame is throttled exactly if earlier packets used up the balance and refused exactly if it is inactive or small streaming; charged in every case |
| `EndToEnd.TrafficCostsItsPayload` | services/pcef-core/internal/app/service.go:58-144 | After any stream of frames of any subscribers, sessions expiring in between, a balance is max(0, opening - payloads of its subscriber's frames) |
| `EndToEnd.NextFrameFollowsPayloads` | services/pcef-core/internal/app/service.go:106-158 | The next frame is throttled to 65536 exactly if those payloads used up the opening balance, and otherwise gets the verdict of its host, size and state |
| `EndToEnd.GatewayTrafficConserves` | services/pcef-core/internal/app/service.go:58-65 | Packets and evictions from any number of threads in any interleaving conserve the bytes of every account, the one the eviction callback names included |
| `EndToEnd.NegativeSizeEmptiesBalance` | services/pcef-core/internal/app/service.go:135 | A negative size leaves a zero balance |
| `EndToEnd.ShardsActAsOneMap` | services/pcef-core/internal/app/service.go:85-89 | Whatever the hash, a lookup in the shard of a key gives the value last Set for it anywhere in a run over all shards |
| `MessageBus.KafkaEmulator.Publish` | services/message-bus/internal/app/service.go:25-34 | Accepted exactly if the queue is not full, otherwise dropped, never blocking |
| `MessageBus.KafkaEmulator.ConsumeBatch` | services/message-bus/internal/app/service.go:37-52 | A batch is exactly the min(batchSize, queued) oldest events in order |
| `MessageBus.FifoConservation` | services/message-bus/internal/app/service.go:25-52 | Over any run consumed then queued events are the accepted ones in order, accepted plus dropped are the published ones, and the queue keeps its capacity |
| `MessageBus.BatchTakesTheOldest` | services/message-bus/internal/app/service.go:37-52 | At any point of any run a batch moves exactly the min(batchSize, queued) oldest events, in order, from the queue to the consumed |
| `MessageBus.BatchesDrainTheQueue` | services/message-bus/internal/app/service.go:37-52 | n batches of at least one leave at most queued - n events |
| `MessageBus.DropsOnlyWhenFull` | services/message-bus/internal/app/service.go:25-34 | A publish is dropped if and only if capacity many accepted events wait |

## Left out

- OcsConservation.ConservationWithRefunds: the clients must keep to `Polite`: one request at a time per session, UPDATEs within what the session still holds, TERMINATEs only while it holds its whole quota; `OcsClients` gives this conduct in terms of answers, `OcsLaws.ReleaseAfterCreditLimitMintsBytes` shows what happens otherwise, and `OcsWrap.ConservedIffReserveFits` that the size condition is exact.
- LimiterRate.RateBoundInterleaved: its conditions are about each taking of a token; each alone is necessary in the sense of `LimiterOverrun.EveryConditionIsNeeded`, but a run may break one and still stay within the rate.
- LruCache.ReactiveLruCache.Set: asks for a capacity of at least two, as do Get and JanitorPass; with capacity one the first Set leaves the self-linked node of `LruCache.ReactiveLruCache.TailToHead`, with capacity zero the tail stays empty; the gateway uses 5000. For the empty key it also asks that the index, once it disagrees, still leads to a node on the tape: a recycled node never gives that key back.
- LruCache.ReactiveLruCache.JanitorPass: the janitor's call of GetLen under its own lock is a plain read of the count; the lock is not reentrant, so the call as written would block.
- Pcef.PcefCoreService.OnEvict: called for one evicted key at a time; the shards inside the gateway object see Get and Set only, while evictions are modelled on a cache alone.
- Pcef.PcefCoreService.ProcessPacket: one packet at a time; races on a session's bandwidth between packets are not modelled, and of the remote call only the answers the handler itself gives.
- The limiter's floating point: the rate is a real number, its product with the time exact and then truncated; overflow of 64-bit times and tokens is not modelled.
- The limiter's counter of denials is unbounded, and the yield before a retry has no effect in the model.
- MessageBus.KafkaEmulator.ConsumeBatch: a batch is one step for the object; a batch interleaved with others is a run of `Consume(1)` in `MessageBus.FifoConservation`.
- Locks, channel wake-ups, timers and contexts around the janitor; each locked section is one method.
- Session timestamps of the credit engine, which nothing reads, and error texts.
- The hash of an address is any function.
- Delivery of call records to the bus, the gRPC and protobuf layers, configuration, logging and telemetry.
- The profile storage, policy, access, collector and analytics services: short mappings, or the same sharding over a plain map.
