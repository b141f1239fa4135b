# Verified model of the Hardwareless AI engines

A Dafny model of the stateful engines behind the gateway, with proofs about every run of them: the tiered cache,
plugin ordering and lifecycle, the request batcher, the connection pool, the single-flight translation registry
with its bulkhead, the circuit breaker, the rate limiter, the replay window of signed requests, the bipolar vector
algebra, the text compressor and the HV01 packet format.

`dafny verify dfyconfig.toml` checks the whole project.

## How it is built

Each engine is a pure description (a state and the step each operation takes) and a class with the fields the
source updates in place, whose methods are proved to take exactly those steps. The properties are lemmas about
the description: what every step keeps, what holds after every run, and where a bound is tight.

Times are integers and the clock is a parameter; the lemmas that need it say that it never goes back. For
asynchronous code one step is the code between two awaits, and the lemmas quantify over every interleaving.

| file | engine |
|---|---|
| `MemoryLru.dfy`, `LruProperties.dfy` | LRU tier: invariant, two runs of different size, retention |
| `CompositeCache.dfy`, `CompositeProperties.dfy` | tiered cache: staleness bound, refinement of a map |
| `LoadOrder.dfy`, `PluginDiscovery.dfy`, `PluginLifecycle.dfy` | plugin sort, deduplication, loading, shutdown |
| `RequestBatcher.dfy` | batching |
| `ConnectionPool.dfy` | pooling |
| `Bulkhead.dfy`, `TranslationRegistry.dfy` | single-flight under a bulkhead |
| `CircuitBreaker.dfy` | circuit breaker |
| `RateLimiter.dfy`, `RequestSigner.dfy` | sliding windows |
| `Hypervectors.dfy`, `LanguageMatrix.dfy` | vectors and translation of hypervectors |
| `WordLists.dfy`, `Compressor.dfy` | compression |
| `PacketHv01.dfy` | packets |
| `Seqs.dfy`, `Integers.dfy`, `Wrappers.dfy` | sequence and integer facts, Option and Result |

## Where the code and its documentation differ

The model follows the code.

- The purge of the LRU tier removes an entry at its expiry time, `get` only after it; an entry read exactly at its expiry is a hit.
- The disk tier ignores the TTL it is given: a file lives for the disk tier's own default TTL. In the composite a TTL of 0 means the default.
- "Highest version wins" is not true of the code: its comparison looks at the shorter of two versions only, and at three parts, so `1.2` is kept over a later `1.2.5`. `PluginDiscovery.KeepsHighestExactly` says for which sets of versions it is true.
- A flush takes the whole queue: `batch_size` triggers flushes, and it is no bound on a batch unless `max_queue_size` is one (`RequestBatcher.BatchBoundExactly`). `enable_priority` works the other way round: priority items are processed at once when it is off.
- The pool never lowers `_created_count`, so a closed connection's slot is gone for good.
- A half-open breaker admits any number of calls, not one. It counts consecutive failures, not a failure rate.
- The "token bucket" rate limiter is a sliding window.
- A call turned away by the bulkhead leaves its future behind, and its key never gets a leader again.
- The packet header is documented as the sum of its fields, 42 bytes; the constant is 43 and the last byte is unused padding.

## Model

| member | source | states |
|---|---|---|
| MemoryLru.ApplyKeepsValid | core_engine/cache/manager.py:102-157 | every operation of the LRU tier keeps its keys distinct and its size within max_size |
| MemoryLru.RunKeepsValid | core_engine/cache/manager.py:102-157 | the same over every run |
| MemoryLru.WithoutSplits | core_engine/cache/manager.py:107-111 | deleting a present key removes exactly the entry a lookup finds, and nothing else |
| MemoryLru.MemoryLRUBackend.Get | core_engine/cache/manager.py:102-116 | get misses on an absent or expired key (removing the latter) and otherwise returns the value and makes the key most recent |
| MemoryLru.MemoryLRUBackend.Set | core_engine/cache/manager.py:118-137 | set evicts the oldest entry for a new key at capacity, writes the entry as most recent and purges on every hundredth set; a tier of size 0 raises |
| MemoryLru.MemoryLRUBackend.PurgeExpired | core_engine/cache/manager.py:173-178 | collecting the due keys and deleting them one by one leaves exactly the entries not yet due, in order |
| MemoryLru.MemoryLRUBackend.Delete | core_engine/cache/manager.py:139-143 | delete removes the key and reports whether it was there |
| MemoryLru.MemoryLRUBackend.Exists | core_engine/cache/manager.py:145-152 | exists answers as get would, removing an expired entry, without touching recency |
| MemoryLru.MemoryLRUBackend.Clear | core_engine/cache/manager.py:154-157 | clear empties the tier and returns the number of entries it had |
| LruProperties.PairedStep | core_engine/cache/manager.py:102-157 | one operation given to a smaller and a larger tier keeps the smaller's recency list an order-preserving sublist of the larger's with equal values and expiries; a hit in the smaller gives the same answer in the larger |
| LruProperties.CapacityMonotone | core_engine/cache/manager.py:102-157 | the same after every run, purges and expiries included, with the sizes never further apart than the capacities |
| LruProperties.SmallerHitIsLargerHit | core_engine/cache/manager.py:102-137 | from empty tiers of sizes n and m, n at most m: whatever the smaller serves the larger serves with the same entry, and the larger never has fewer hits |
| LruProperties.Retention | core_engine/cache/manager.py:102-137 | a key set or hit is still served with that entry strictly before its expiry if it was not deleted, cleared or overwritten and fewer than max_size distinct other keys were set or hit since |
| LruProperties.RetentionIsExact | core_engine/cache/manager.py:122-131 | under plain sets of other keys an unexpiring key is held if and only if fewer than max_size distinct keys were set |
| LruProperties.CountersCount | core_engine/cache/manager.py:104-137 | hits counts the gets that found a live entry, hits and misses together all gets, sets all sets, evictions the sets of a new key into a full tier |
| LruProperties.SetKeepsTheRest | core_engine/cache/manager.py:118-137 | after a set that does not purge, the most recent entry is the new one with its deadline; behind it stand, in order, all other entries but the oldest, which goes exactly when the key is new and the tier full |
| LruProperties.RepliesTellTheStore | core_engine/cache/manager.py:139-157 | delete and exists answer True exactly when the key is there, respectively has a live entry, and take away nothing but that key or its expired entry; clear answers the size and leaves nothing to get |
| LruProperties.HundredthSetPurges | core_engine/cache/manager.py:133-135 | after every hundredth set no entry is due, and every other entry keeps its place |
| CompositeCache.CompositeCacheBackend.Get | core_engine/cache/manager.py:427-442 | the first tier with a value answers, a disk tier whose read raises answers None and keeps its file, every tier above the hit is written with a full default TTL, failing writes are swallowed, and one hit or miss is counted |
| CompositeCache.CompositeCacheBackend.Promote | core_engine/cache/manager.py:433-438 | promotion writes exactly the tiers above the hit |
| CompositeCache.CompositeCacheBackend.Set | core_engine/cache/manager.py:444-457 | a set writes every tier, with the default TTL when it is given none or 0, counts itself, and succeeds exactly when all writes do |
| CompositeCache.CompositeCacheBackend.Delete | core_engine/cache/manager.py:459-468 | a delete goes to every tier and succeeds exactly when all tiers had the key and removed it |
| CompositeProperties.TierGetFacts | core_engine/cache/manager.py:318-340 | a tier answers a get with its copy while that is unexpired and can be read, and changes no other copy |
| CompositeProperties.TierSetFacts | core_engine/cache/manager.py:342-353 | after a set of a key, failing or not, a tier holds the new value with its new deadline, or what it had, or nothing; of other keys it can only lose copies |
| CompositeProperties.SetLastsInMemory | core_engine/cache/manager.py:444-457 | over a memory tier where the set evicts nothing, the value set with no TTL or TTL 0 under a default d is read back at every time up to now + d and at none after; with another TTL t the same for t; with neither at every later time |
| CompositeProperties.SetLastsOnDisk | core_engine/cache/manager.py:342-353 | a disk tier serves it for its own TTL from now, whatever TTL the set was given |
| CompositeProperties.DefaultTtlIsKept | core_engine/cache/manager.py:427-457 | through the composite: over one memory tier a set without a TTL or with TTL 0 is read back by get if and only if at most the default TTL has passed |
| CompositeProperties.ReportsExactly | core_engine/cache/manager.py:444-468 | a set returns True if and only if every tier can take the write, a delete if and only if every tier has the key and no unlink fails |
| CompositeProperties.HitFillsTiersAbove | core_engine/cache/manager.py:427-442 | a get that hits answers with the copy in the first tier that serves one and leaves the copy of it there; every tier above with room then serves that value for a full TTL of its own from now; no tier below is touched |
| CompositeProperties.TierDeleteFacts | core_engine/cache/manager.py:355-360 | after a delete of a key, a tier has no copy of it unless the delete failed, and every other copy is untouched |
| CompositeProperties.TierAfterGetFacts | core_engine/cache/manager.py:427-442 | a composite get leaves every copy alone or drops it, except that tiers above the hit may now hold the value returned |
| CompositeProperties.PromotionInTime | core_engine/cache/manager.py:433-436 | re-stamping a full TTL at promotion costs one default TTL per tier climbed |
| CompositeProperties.StalenessInvariant | core_engine/cache/manager.py:427-468 | in every run, whichever writes and deletes fail, a copy in tier i of k of a value written at s with TTL T is served no later than s + max(T, D) + (k - 1 - i) D |
| CompositeProperties.NoOlderRead | core_engine/cache/manager.py:427-457 | no read returns a value older than max(T, D) + (k - 1) D |
| CompositeProperties.StalenessBoundIsAttained | core_engine/cache/manager.py:427-442 | for every number of tiers, every D and every TTL T a set can have under it, some run from an empty cache within those TTLs reads a value of exactly that age |
| CompositeProperties.StepKeepsCurrentExactly | core_engine/cache/manager.py:427-468 | after one operation every copy in every tier is still the last value set and not since deleted if and only if the operation was harmless: no disk tier whose open failed holds another value of the key set, none whose unlink failed holds the key deleted |
| CompositeProperties.RunKeepsCurrentExactly | core_engine/cache/manager.py:427-468 | over runs: copies are current at every moment if and only if every operation is harmless when it is made |
| CompositeProperties.ReportedIsHarmless | core_engine/cache/manager.py:444-468 | a set or delete that returned True was harmless, so a caller who sees only that keeps every copy current |
| CompositeProperties.ReportedRunIsHarmless | core_engine/cache/manager.py:444-468 | the same over runs |
| CompositeProperties.ReadsAreCurrent | core_engine/cache/manager.py:427-442 | after a harmless run a get returns the map's value or None, and the map's value exactly when that is None or some tier still serves a copy that this get can read |
| CompositeProperties.StepIsSoundExactly | core_engine/cache/manager.py:427-468 | copies stay current and the last tier, disk or memory, stays behind the map with every key until a given time if and only if the operation is harmless and the last tier takes a set without an eviction and for long enough, or already holds that value |
| CompositeProperties.RefinesMap | core_engine/cache/manager.py:427-468 | while each operation is sound in that sense every get that can read the last tier equals the map lookup, and any other get equals it or is None, however the tiers above evicted, whatever was promoted and whatever could not be read or written harmlessly on the way |
| CompositeProperties.ReportedRunIsSound | core_engine/cache/manager.py:427-468 | over a last disk tier whose files outlive the run, operations that returned True are sound |
| CompositeProperties.FailedWriteLeavesOldValue | core_engine/cache/manager.py:449-457 | a run that is not harmless: one refused write leaves the old value readable |
| CompositeProperties.HitsAndMisses | core_engine/cache/manager.py:427-457 | over a run hits grows by the gets that found a value in some tier, hits and misses together by all gets, sets by all sets |
| LoadOrder.Resolver.VisitName | core_engine/plugins/registry.py:281-297 | the recursive visit terminates on every graph, ends with `visiting` as it was, and computes the depth-first order or the error |
| LoadOrder.ResolveLoadOrder | core_engine/plugins/registry.py:272-305 | the whole sort: the manifests by name in the resolved order, or the error raised |
| LoadOrder.LastOfNameCounts | core_engine/plugins/registry.py:277-277 | of several manifests under one name the last one given counts |
| LoadOrder.VisitOk | core_engine/plugins/registry.py:281-297 | a successful visit only appends the name and transitive dependencies of it, each once and after its own dependencies |
| LoadOrder.VisitErr | core_engine/plugins/registry.py:281-297 | a visit that raises names a plugin that lies on a cycle, or a dependency that nobody declares |
| LoadOrder.ResolveOrders | core_engine/plugins/registry.py:299-305 | on success every declared name is listed once, each after all of its dependencies |
| LoadOrder.ResolveSucceedsExactly | core_engine/plugins/registry.py:272-305 | the sort succeeds if and only if no dependency is missing and the graph has no cycle; otherwise its error is true of the graph |
| LoadOrder.InversionsAreJustified | core_engine/plugins/registry.py:292-305 | with distinct names, if x precedes y of strictly higher priority then x is a proper transitive dependency of a plugin whose priority is at least y's |
| LoadOrder.IndependentPluginsLoadByPriority | core_engine/plugins/registry.py:299-305 | without dependencies the order is the stable sort by descending priority |
| Seqs.StableSortSorts | core_engine/plugins/registry.py:300-300 | sorting is a permutation in key order |
| Seqs.StableSortIsStable | core_engine/plugins/registry.py:300-300 | elements with equal keys keep their order |
| PluginDiscovery.Deduplicate | core_engine/plugins/manager.py:78-85 | the values of the dictionary built in one pass: for each name, in the order the names first appear, the manifest that the pairwise rule keeps |
| PluginDiscovery.FirstSeenOrder | core_engine/plugins/manager.py:79-85 | every discovered name is a key exactly once, and the keys stand in the order of first appearance, whatever replaced their values |
| PluginDiscovery.NotAboveThenBelow | core_engine/plugins/manager.py:87-95 | the version comparison is no order, yet a version not above one that is beaten is not above its beater |
| PluginDiscovery.KeptIsUnbeaten | core_engine/plugins/manager.py:78-95 | every discovered name is kept once, and no manifest of that name compares above the kept one |
| PluginDiscovery.CompareAndHigher | core_engine/plugins/manager.py:87-95 | the comparison never contradicts the usual order of versions, in which a missing number is 0, and agrees with it on versions of equal length compared in full |
| PluginDiscovery.KeepsHighestExactly | core_engine/plugins/manager.py:45-95 | "highest version wins" holds for a name in every order of discovery if and only if every version that no other compares above is a highest one |
| PluginDiscovery.HiddenMustBeBeaten | core_engine/plugins/manager.py:87-95 | that condition on pairs: whenever two versions tie although one is higher, a third beats the lower one |
| PluginDiscovery.SameLengthKeepsHighest | core_engine/plugins/manager.py:78-95 | if all versions of a name have the same number of parts, at most three, the highest is kept in every order |
| PluginDiscovery.ShorterVersionHidesHigher | core_engine/plugins/manager.py:87-95 | the failing input: 1.2 seen first is kept over 1.2.5, which is higher |
| PluginLifecycle.PluginRegistry.CheckDeps | core_engine/plugins/registry.py:103-111 | the loop lists, in order, the dependencies not loaded and those loaded but not active |
| PluginLifecycle.CheckDependencies | core_engine/plugins/registry.py:103-111 | a dependency is reported if and only if it is not loaded or not active, and as which of the two |
| PluginLifecycle.PluginRegistry.Load | core_engine/plugins/registry.py:60-101 | a plugin is registered, active and last in the load order, exactly when it constructs, has all dependencies active and initialises; else nothing changes and the result says why |
| PluginLifecycle.PluginManager.LoadDiscovered | core_engine/plugins/manager.py:112-147 | loading goes through the resolved order; a sorting error is raised before anything is loaded |
| PluginLifecycle.LoadAllExact | core_engine/plugins/manager.py:112-141 | from an empty registry a plugin loads if and only if it is enabled, imports, constructs, initialises and all its dependencies load; this equation has no other solution; the load order is dependency-closed |
| PluginLifecycle.ResultsReportLoads | core_engine/plugins/manager.py:140-145 | the results report success for exactly the plugins that end up registered |
| PluginLifecycle.ResultsSayWhy | core_engine/plugins/manager.py:122-145 | in load order every plugin that is enabled and has an entry point has one result and no other has any; the result is the first failure among import, construction, dependencies not loaded before it, and initialisation, else success |
| PluginLifecycle.PluginRegistry.ShutdownAll | core_engine/plugins/registry.py:132-142 | the reverse loop makes exactly the specified calls and leaves the specified states |
| PluginLifecycle.ShutdownRespectsDependencies | core_engine/plugins/registry.py:132-142 | every plugin is shut down once in reverse load order, with all its dependencies still active at that moment, whichever shutdowns raise; the plugins left active are those that raised |
| PluginLifecycle.ShutdownCallsTheActive | core_engine/plugins/registry.py:132-142 | from any state exactly the active plugins of the load order are called, each once; those whose shutdown does not raise are disabled and every other is as it was |
| RequestBatcher.Batcher.Submit | core_engine/connections/batcher.py:79-106 | a submission is refused exactly when the queue is full, processed at once under the lock exactly when it is a priority item and enable_priority is off, else queued last under a new number, starting a flush when the queue has reached batch_size |
| RequestBatcher.Batcher.FinishImmediate | core_engine/connections/batcher.py:90-93 | an immediate call answers with the first result, None without one, or the exception, and the lock is free again |
| RequestBatcher.SubmissionGoes | core_engine/connections/batcher.py:79-106 | a full queue changes nothing; a priority item with enable_priority off is processed alone and, once done, leaves the batcher as it was; any other item joins the end of the queue and touches neither batches nor settled futures |
| RequestBatcher.Batcher.FlushTake | core_engine/connections/batcher.py:113-121 | a flush takes the whole queue as one batch and leaves the queue empty |
| RequestBatcher.Batcher.FlushFinish | core_engine/connections/batcher.py:123-140 | the settling loop gives each future of the batch its zipped result or the exception and touches no future already done |
| RequestBatcher.InOnePlace | core_engine/connections/batcher.py:95-118 | no item is in two batches or twice in one |
| RequestBatcher.StepKeepsInv | core_engine/connections/batcher.py:79-140 | every step keeps: batches in take order followed by the queue are the submission order; queue and batches within max_queue_size; a batch settles its own items only; settled futures never change |
| RequestBatcher.RunKeepsInv | core_engine/connections/batcher.py:79-140 | the same over every interleaving of submissions and concurrent flushes |
| RequestBatcher.BatchBoundExactly | core_engine/connections/batcher.py:34-121 | for every n no batch of any run is longer than n if and only if max_queue_size is at most n, so batch_size bounds batches only when it is at least max_queue_size |
| RequestBatcher.BatchingIsInvisible | core_engine/connections/batcher.py:79-140 | over a pointwise processor every accepted item is in the queue or in a batch, never both, and its future is unsettled until that batch finishes and then holds f of its own payload, or the batch's exception |
| RequestBatcher.QuiescentSettlesAll | core_engine/connections/batcher.py:123-134 | with nothing queued or in flight all accepted futures are settled if and only if no processor answer was shorter than its batch |
| ConnectionPool.Pool.Acquire | core_engine/connections/pool.py:114-159 | each resumption of acquire: idle connection, creation under the lock, waiting, validation, closing and starting again |
| ConnectionPool.Pool.Release | core_engine/connections/pool.py:161-179 | each resumption of release; a connection found valid always goes back to the end of the queue |
| ConnectionPool.Pool.Drain | core_engine/connections/pool.py:215-221 | the draining loop moves the whole queue, in order, into the local list |
| ConnectionPool.Pool.CullStale | core_engine/connections/pool.py:211-238 | each resumption of the cull |
| ConnectionPool.Pool.ShutdownNext | core_engine/connections/pool.py:93-100 | each resumption of the shutdown loop |
| ConnectionPool.StepKeepsInv | core_engine/connections/pool.py:114-238 | every step, failures and cancellations included, keeps each created connection in exactly one place, creation under the lock and within max_connections, and retries covered by closings; closed and lost never shrink |
| ConnectionPool.RunKeepsInv | core_engine/connections/pool.py:114-238 | the same under any interleaving of acquires, releases, culls and shutdowns |
| ConnectionPool.Counts | core_engine/connections/pool.py:134-138 | idle + in hand + closed + lost = created, at most max_connections |
| ConnectionPool.OneHolder | core_engine/connections/pool.py:114-179 | no connection is held by two tasks, so none has two borrowers, and one in hand is not idle, closed or lost |
| ConnectionPool.NeverFull | core_engine/connections/pool.py:168-179 | a task about to put a connection back always finds room: the full-pool and QueueFull branches are unreachable |
| ConnectionPool.RetriesAreBounded | core_engine/connections/pool.py:123-126 | an acquire calls itself again at most max_connections times, each time after one more closed connection |
| ConnectionPool.CapacityNeverGrows | core_engine/connections/pool.py:114-238 | at every later time the connections idle or in hand are at most the slots neither closed nor lost then, and those never grow back |
| ConnectionPool.ExhaustedForEver | core_engine/connections/pool.py:132-138 | once every slot is closed or lost no task ever holds a connection again |
| ConnectionPool.UsableNeverGrows | core_engine/connections/pool.py:114-238 | neither do the slots that are not even about to be closed |
| ConnectionPool.LentOnlyIfNewOrValid | core_engine/connections/pool.py:114-159 | whenever a step makes a task a borrower of c, either that step created c, or it is that task's validation of c answering True |
| ConnectionPool.PutBackOnlyIfValid | core_engine/connections/pool.py:161-179 | whenever a step puts c into the queue, it is the validation of c, in a release or in the cull, answering True |
| ConnectionPool.FailedIsCondemned | core_engine/connections/pool.py:151-238 | after a validation answering False or raising, in acquire, release or cull, and after a cull that finds c stale, c is closed, lost or in the hands of a task whose next resumption closes it |
| ConnectionPool.FailedIsNeverLentAgain | core_engine/connections/pool.py:114-238 | in no later state of any run is such a connection idle, borrowed or even being validated |
| ConnectionPool.IdleIsAQueue | core_engine/connections/pool.py:114-238 | every step leaves the idle queue alone, takes its first connection, puts one at its end, or, at the start of a cull, takes all; an acquire that starts with an idle connection validates the one idle longest |
| ConnectionPool.TasksKeepTheirKind | core_engine/connections/pool.py:93-238 | an acquire stays one until it is lent a connection or gives up, a borrower goes on to release, and a release, cull or shutdown to its own end |
| ConnectionPool.AcquireGivesUpExactly | core_engine/connections/pool.py:114-159 | an acquire fails exactly when creation fails or waiting times out; with no idle connection it creates one exactly while max_connections is not reached; a connection found invalid is closed and the acquire starts again |
| ConnectionPool.CullKeepsTheGood | core_engine/connections/pool.py:211-238 | a cull left to itself closes exactly the idle connections that are stale or invalid and puts all others back, in order |
| ConnectionPool.ShutdownClosesAll | core_engine/connections/pool.py:93-100 | a shutdown left to itself closes exactly the idle connections, in order, and leaves the queue empty |
| ConnectionPool.CanLendExactly | core_engine/connections/pool.py:114-179 | some continuation lends a connection to an acquire that starts now if and only if some slot is neither closed, nor lost, nor in the hands of a task about to close it |
| Bulkheads.StepsKeepInv | core_engine/resilience/__init__.py:250-284 | the count of running sections stays within the limit; a call is granted exactly below the limit and rejected exactly when limit and queue are both full; every step moves the counts by exactly one |
| Bulkheads.Bulkhead.Acquire | core_engine/resilience/__init__.py:250-280 | acquire takes a free permit, else rejects, exactly when limit and queue are both full, else waits |
| Bulkheads.Bulkhead.Leave | core_engine/resilience/__init__.py:282-284 | release gives the permit back |
| TranslationRegistry.CandidatesInOrder | core_engine/translation/registry.py:92-102 | the backends tried are exactly the enabled and registered ones, by ascending priority, in configuration order among equals |
| TranslationRegistry.Registry.SortedBackends | core_engine/translation/registry.py:92-102 | the loop over the sorted configurations visits exactly those backends |
| TranslationRegistry.Registry.Translate | core_engine/translation/registry.py:79-98 | after a cache miss a call follows the key's future, leads a new one, or is turned away with its future left in flight |
| TranslationRegistry.Registry.TryNext | core_engine/translation/registry.py:98-118 | the next backend is tried, or the call fails with the last error |
| TranslationRegistry.Registry.Finish | core_engine/translation/registry.py:110-127 | settling resolves the future, releases the slot and drops the in-flight entry together |
| TranslationRegistry.Registry.Awaken | core_engine/translation/registry.py:79-81 | a follower answers with the outcome its future holds |
| TranslationRegistry.StepKeepsInv | core_engine/translation/registry.py:65-127 | every step keeps: a pending future belongs to one call that leads or was turned away, a settled one to the call that led to that outcome; the bulkhead counts the leaders |
| TranslationRegistry.OneLeaderPerKey | core_engine/translation/registry.py:79-89 | in every run a key has at most one leader, and the bulkhead's count is the number of leaders, within its limit |
| TranslationRegistry.LeadersCanProceed | core_engine/translation/registry.py:98-127 | a leader is never stuck: in every reachable state it has a slot, a pending future and a backend, so whatever that backend or the store does next is a step |
| TranslationRegistry.CallsReturnFirstThatWorked | core_engine/translation/registry.py:65-127 | whatever the cache, the backends and the stores answer to each call: a call returns the cached value if there is one; a leader returns the answer, with its backend, of the first candidate that neither raises nor fails to be stored, or fails with the last candidate's error; a follower returns exactly what its leader, who asked for the same key, returned |
| TranslationRegistry.EveryRunHasAWorld | core_engine/translation/registry.py:65-127 | every run is covered: some assignment of such answers makes it happen |
| TranslationRegistry.StrandedOnlyByRejection | core_engine/translation/registry.py:79-127 | a waiter can resume or has a leader at work if and only if its future's owner was not turned away |
| TranslationRegistry.RejectionPoisons | core_engine/translation/registry.py:83-89 | the reject branch is taken exactly when the bulkhead is full, and it leaves the key in flight with a future nobody settles |
| TranslationRegistry.RejectionStrandsTheKey | core_engine/translation/registry.py:79-89 | from then on, in every run, calls for that key can be answered by the cache only, or wait for ever |
| CircuitBreaker.Breaker.RecordSuccess | core_engine/resilience/__init__.py:65-72 | a success clears the failure count, enters the window and closes a half-open circuit; the state stays that of the whole history |
| CircuitBreaker.Breaker.RecordFailure | core_engine/resilience/__init__.py:74-86 | a failure counts, is stamped, enters the window, opens the circuit at the threshold or when half-open, and leaves an open one open; the state stays that of the whole history |
| CircuitBreaker.Breaker.FieldsTellHistory | core_engine/resilience/__init__.py:65-86 | the failure count, the window and the time stamp an object holds are the trailing failures, the last outcomes and the last failure of all that was reported to it |
| CircuitBreaker.Breaker.CheckExecute | core_engine/resilience/__init__.py:97-109 | a call is refused only while open, and exactly within the recovery time of the last failure reported or when that is stamped 0; an attempt admitted then makes the circuit half-open |
| CircuitBreaker.CounterIsTrailingFailures | core_engine/resilience/__init__.py:65-86 | over any interleaving of late outcomes the failure count is the longest failing suffix of the history, and a closed circuit has fewer than the threshold |
| CircuitBreaker.WindowIsLastOutcomes | core_engine/resilience/__init__.py:58-58 | the window holds the last window_size outcomes |
| CircuitBreaker.StampIsLastFailure | core_engine/resilience/__init__.py:74-80 | the time stamp is the last failure's, and an open circuit has one |
| CircuitBreaker.ClosedMeansBelowThresholdExactly | core_engine/resilience/__init__.py:82-83 | closed implies fewer trailing failures than the threshold in every run if and only if the threshold is at least 1 |
| CircuitBreaker.OpenAdmitsOnlyAfterRecovery | core_engine/resilience/__init__.py:102-108 | while open a call is admitted exactly when the last failure is at least the recovery time ago and not stamped 0 |
| CircuitBreaker.NothingAdmittedWhileOpen | core_engine/resilience/__init__.py:65-109 | from an open circuit any sequence of reported outcomes and of attempts made within the recovery time of the last failure reported by then leaves it open, and every such attempt is refused |
| CircuitBreaker.CircuitMoves | core_engine/resilience/__init__.py:65-109 | the next state after any history: closed opens exactly at a failure that makes the trailing failures reach the threshold, open becomes half-open exactly at an attempt that comes late enough, half-open closes at a success and opens at a failure, and nothing else moves it |
| CircuitBreaker.HalfOpenAdmitsAll | core_engine/resilience/__init__.py:102-109 | while half-open any number of calls is admitted |
| CircuitBreaker.ProbeDecides | core_engine/resilience/__init__.py:71-86 | after the recovery time one admitted call closes the circuit with a clean count or reopens it; late successes alone do not close an open circuit |
| CircuitBreaker.FailingCallerIsThrottled | core_engine/resilience/__init__.py:157-176 | a sequential caller whose calls all fail gets at most threshold + (T - t0) / recovery calls admitted in [t0, T] |
| CircuitBreaker.ThrottleIsTight | core_engine/resilience/__init__.py:157-176 | the bound is attained: for every 0 < t0 <= T some sequential caller gets exactly that many failing calls admitted in [t0, T] |
| RateLimiter.Limiter.Check | gateway/middleware/auth.py:40-55 | a check prunes the client's list to the window and accepts, recording the time, when fewer than `requests` remain; under a clock that never goes back that is the verdict of the full log |
| RateLimiter.Limiter.GetRemaining | gateway/middleware/auth.py:57-65 | the remaining count is what the window leaves, never negative |
| RateLimiter.Limiter.ResetClient | gateway/middleware/auth.py:67-70 | a reset forgets that client only |
| RateLimiter.PrunedIsAsGood | gateway/middleware/auth.py:48-49 | the pruned list and the full, never-pruned log agree on the current window in every run |
| RateLimiter.AcceptsExactly | gateway/middleware/auth.py:51-65 | after any run of a clock that never goes back a check is accepted if and only if fewer than `requests` acceptances of the full log lie in the window; the remaining count is exactly the difference, or 0 |
| RateLimiter.RemainingIsKept | gateway/middleware/auth.py:40-65 | over a positive window the remaining count is a promise: of any burst of further checks at once, exactly that many are accepted, the first ones |
| RateLimiter.LimitHolds | gateway/middleware/auth.py:40-55 | for every client and every interval (x, x + window], at most `requests` checks since its last reset are accepted |
| RateLimiter.ClientsAreIndependent | gateway/middleware/auth.py:45-55 | no client's checks or resets touch another's list |
| RequestSigner.Signer.Verify | core_engine/security/validator.py:126-161 | a request is accepted if and only if its signature is valid, it is within its tolerance of the clock on either side, and no earlier request with its nonce is still remembered, which is said over the history of requests and not over the store |
| RequestSigner.AcceptsExactly | core_engine/security/validator.py:126-161 | the same of every request of every history: an earlier request is remembered if it was timely and new when it came, whatever its signature, and no cleanup since then came more than nonce_ttl after it |
| RequestSigner.StoreTellsHistory | core_engine/security/validator.py:138-161 | in every run the store holds exactly the nonces remembered, each with the time it was seen |
| RequestSigner.Signer.CleanupOldNonces | core_engine/security/validator.py:155-161 | deleting the collected nonces one by one leaves exactly those seen within nonce_ttl |
| RequestSigner.StoreIsRecent | core_engine/security/validator.py:144-146 | after each insertion the store holds only nonces seen within the last nonce_ttl |
| RequestSigner.StaysStored | core_engine/security/validator.py:138-161 | a nonce stays stored, with its time, for nonce_ttl after it was seen |
| RequestSigner.NoNonceTwice | core_engine/security/validator.py:126-161 | a nonce does not pass twice in any run, despite the cleanup, if the tolerances of its two requests add up to at most nonce_ttl |
| RequestSigner.PairSafeExactly | core_engine/security/validator.py:126-161 | a nonce can pass with tolerance a and later with b in some run if and only if neither is negative and a + b exceeds nonce_ttl |
| RequestSigner.ReplaySafeExactly | core_engine/security/validator.py:126-161 | with tolerances up to a cap no run accepts a nonce twice if and only if the cap is negative or twice the cap is at most nonce_ttl |
| RequestSigner.DefaultsAreTight | core_engine/security/validator.py:113-126 | the defaults of 30 and 60 meet the condition, and one second more of tolerance does not |
| Hypervectors.BundleVectors | core_engine/brain/backend.py:112-122 | the array algorithm, with tied positions patched in place, computes the column majority with the given tie-breaks |
| Hypervectors.BundleIsMajority | core_engine/brain/backend.py:112-122 | an element of a bundle is 1 when more than half of the vectors have 1 there, -1 when fewer than half do, and the tie-break at exactly half |
| Hypervectors.BundleIsOptimal | core_engine/brain/backend.py:112-122 | the bundle of bipolar vectors is bipolar and maximises the total dot product with its inputs over all bipolar vectors, whatever the tie-break; the maximum is the sum of the absolute column sums |
| Hypervectors.OddBundleIsSimilar | core_engine/brain/backend.py:112-128 | for an odd number n of vectors some input has similarity at least 1/n with the bundle |
| Hypervectors.BindInverts | core_engine/brain/backend.py:109-110 | binding twice with a bipolar vector gives the original back |
| Hypervectors.BindMarksAgreement | core_engine/brain/backend.py:109-110 | binding bipolar vectors gives a bipolar vector that is 1 exactly where the two agree |
| Hypervectors.BindUnit | core_engine/brain/backend.py:109-110 | the all-ones vector is the unit of binding on both sides, and a bipolar vector bound with itself is the all-ones vector |
| Hypervectors.SimilarityCountsAgreements | core_engine/brain/backend.py:127-128 | the similarity of bipolar vectors is agreements minus disagreements over the dimension, lies within [-1, 1], and is 1 only for equal vectors |
| Hypervectors.BindKeepsDot | core_engine/brain/backend.py:109-128 | binding two vectors with the same bipolar vector keeps their dot product |
| Hypervectors.PermuteLookup | core_engine/brain/backend.py:124-125 | a rotation moves each element by the shift, modulo the length, for negative shifts too |
| Hypervectors.PermuteKeepsDot | core_engine/brain/backend.py:124-128 | rotating two vectors alike keeps their dot product |
| Hypervectors.PermutesAdd | core_engine/brain/backend.py:124-125 | rotations add up |
| LanguageMatrix.TranslationsCompose | core_engine/translation/language_matrix.py:113-123 | translating from a to b and on to c is translating from a to c, and there and back is the identity |
| LanguageMatrix.TranslationMovesAnchor | core_engine/translation/language_matrix.py:113-123 | translating a vector bound to one anchor binds it to the other, and a language translates to itself unchanged |
| LanguageMatrix.WordTranslates | core_engine/translation/language_matrix.py:79-123 | a language is known by its code as given or else by the lower-case form, and unknown without either; a word's vector translates exactly to the same base vector under the target's anchor |
| LanguageMatrix.Matrix.TranslateHypervector | core_engine/translation/language_matrix.py:113-123 | unbinding the source anchor and binding the target one, or the error when either language is unknown |
| LanguageMatrix.BundleCommutesExactly | core_engine/translation/language_matrix.py:104-123 | translating a bundle equals bundling the translations if and only if the tie-breaks of the tied dimensions translate too |
| LanguageMatrix.OddTextTranslatesWordwise | core_engine/translation/language_matrix.py:104-123 | for an odd number of words translation commutes with bundling, whatever the tie-breaks |
| LanguageMatrix.Matrix.GetWordVector | core_engine/translation/language_matrix.py:87-102 | cached or not, the answer is the anchor bound to the word's base vector, or the error for an unknown language |
| LanguageMatrix.Matrix.EncodeText | core_engine/translation/language_matrix.py:104-111 | a text is the bundle of its words' vectors, no words give the zero vector, an unknown language is an error |
| LanguageMatrix.Matrix.AddLanguage | core_engine/translation/language_matrix.py:141-152 | a known code is ignored, a new one gets the anchor of its name |
| LanguageMatrix.AddLanguageKeepsCacheExactly | core_engine/translation/language_matrix.py:79-152 | adding a language keeps the word cache right if and only if the code is known, or no word is cached under it, or its new anchor is the one already in use through the lower-case code |
| WordLists.CanonicalIsLeftAlone | core_engine/compression/synonyms.py:6-31 | canonical words are neither synonyms nor stop words |
| Compressor.SplitJoin | core_engine/compression/compressor.py:31-50 | splitting undoes joining |
| Compressor.SplitAtSpace | core_engine/compression/compressor.py:31-31 | at any white-space character a text splits into the words before it and the words after it |
| Compressor.WordsAreRuns | core_engine/compression/compressor.py:30-31 | any character outside a-z and 0-9 separates words, and a run of those characters is one word; so the words of a text are its maximal runs of them |
| Compressor.JoinIsTight | core_engine/compression/compressor.py:50-50 | a joined text has no blank at either end and no two in a row |
| Compressor.ReduceNextWord | core_engine/compression/compressor.py:34-46 | what one more word adds: nothing if it is a stop word to be stripped or its canonical form was the last word put out, else that form |
| Compressor.ReduceFacts | core_engine/compression/compressor.py:34-50 | the words left are exactly the canonical forms of the kept words, without adjacent repeats, and no more than came in |
| Compressor.DedupRepeat | core_engine/compression/compressor.py:40-46 | repeating a word on the spot makes no difference |
| Compressor.DedupNothing | core_engine/compression/compressor.py:40-46 | a list without adjacent repeats is left as it is |
| Compressor.CompressIsIdempotent | core_engine/compression/compressor.py:23-50 | for every text and both option flags compressing a compressed text changes nothing, and reading the output back gives the reduced words |
| Compressor.CognitiveCompressor.CompressText | core_engine/compression/compressor.py:23-50 | compress counts the call and its words in and out and returns the joined reduced words |
| Compressor.CognitiveCompressor.Deduplicate | core_engine/compression/compressor.py:40-46 | the loop with prev drops exactly the words equal to the word just before them |
| Compressor.CognitiveCompressor.CompressionRatio | core_engine/compression/compressor.py:52-56 | the share of words saved since the start, within [0, 1] |
| PacketHv01.GetPut | h1v3_runtime/packet.py:35-41 | reading a written big-endian field gives its value |
| PacketHv01.PutGet | h1v3_runtime/packet.py:49-62 | writing a value read gives the bytes back |
| PacketHv01.BigEndian | h1v3_runtime/packet.py:35-62 | the byte order: four bytes read as the number whose base-256 digits they are, most significant first, and written back so |
| PacketHv01.PackHeader | h1v3_runtime/packet.py:33-42 | writing the fields into the buffer, with the nonce assigned to a slice that may resize it, gives the header's bytes, or the error for a field out of range |
| PacketHv01.MagicBytes | h1v3_runtime/packet.py:33-42 | a packed header starts with the characters HV01 and the version 3 |
| PacketHv01.UnpackSucceedsExactly | h1v3_runtime/packet.py:44-63 | bytes unpack if and only if there are at least 43 of them, they start with HV01 and version 3, and the flag byte is below 64 |
| PacketHv01.RoundTrip | h1v3_runtime/packet.py:83-90 | a packet with 32-bit ids, declared flags, a 24-byte nonce and the payload's size as length survives packing, whatever follows it |
| PacketHv01.SurvivesSuffixExactly | h1v3_runtime/packet.py:83-90 | a packet with declared flags that packs survives a given suffix if and only if its nonce has 24 bytes and its length field is its payload's size, or is larger with nothing following |
| PacketHv01.RoundTripExactly | h1v3_runtime/packet.py:83-90 | a packet with declared flags that packs survives every suffix if and only if its nonce has 24 bytes and its length field is its payload's size |
| PacketHv01.UnpackThenPack | h1v3_runtime/packet.py:44-63 | what unpacks, packed again, is the bytes read with the padding byte cleared |

## Left out

- CompositeCache.CompositeCacheBackend.Get: tiers are held as values, memory and disk in any order and number; one backend object listed twice, and the Redis tier, an external server, are not modelled.
- CompositeProperties.StalenessInvariant: D is an upper bound of the composite's default TTL and of the disk tiers' own TTLs, as in the default cache, where they are one setting; without any default TTL nothing expires and there is no bound.
- CompositeProperties.RefinesMap: a composite whose tiers together keep a key that the last tier lost is not claimed to refine the map; operations on the composite are atomic; a promotion interleaved with a set over a tier that suspends is not covered.
- CompositeCache.exists: as written it hands an asynchronous generator to `any` and raises; `clear`, `stats` and `flush` of the composite are simple loops.
- Operations read the clock once, except `verify_request`, which reads it twice as in the source; cleanup inside one cache `set` reads it again there.
- DiskCacheBackend: the file system is a map of keys to files; md5 file names are taken as distinct.
- LoadOrder.Resolver.VisitName: Python's recursion limit is not modelled.
- PluginLifecycle.LoadAllExact: importing, constructing and initialising a plugin are facts given per name; a plugin that changes another's state, and loading a plugin a second time, are not covered.
- PluginDiscovery.Deduplicate: versions arrive parsed; scanning directories and entry points is I/O.
- RequestBatcher.StepKeepsInv: cancellation, by `stop` of a periodic flush or by a caller of its future, is not modelled; timers only decide when a flush starts, and every time is allowed.
- ConnectionPool.StepKeepsInv: `wait_for` losing an item on a timeout inside the event loop is not modelled; a borrower releases its own connection at most once; single creation attempts and their delays are one await.
- TranslationRegistry.StepKeepsInv: configurations do not change during a run; cancellation of a call is not modelled.
- Bulkheads.Bulkhead.Acquire: fairness among waiters of the semaphore; the registry uses a queue of 0, where nobody waits.
- CircuitBreaker.FailingCallerIsThrottled: the slow-call counter and the state-change callback are left out; time stamps are integers.
- RateLimiter.LimitHolds: counts since the client's last reset, as a reset is meant to lift the limit.
- RequestSigner.Signer.Verify: a signature arrives as a parsed time stamp and hexadecimal part; the textual split cuts inside a decimal time stamp, so the textual round trip does not hold. HMAC is a given outcome.
- Hypervectors.BundleVectors: random generation is an arbitrary tie-break vector; the torchhd backend and `normalize` are left out.
- LanguageMatrix.Matrix.EncodeText: takes the words of the text; hashing to seeds, lower-casing and the search for the closest language are left out.
- Compressor.CompressIsIdempotent: NFKC with lower-casing is any function that leaves lower-case ASCII words and blanks alone.
- PacketHv01.RoundTrip: `Packet.create` draws a random nonce and is left out.
- FastAPI routes, middleware, WebSocket, gRPC, the translation and language-model backends, file scanning and antivirus: I/O and foreign calls.
- `network/` framing and its HDC layer, and the scam, evidence, agent-routing and similar table-driven modules: they would add easy members only, or do not promise a law.
