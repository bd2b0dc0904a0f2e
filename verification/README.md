# ThunderGo: a verified model of its protocols, caches, limiter, range serving and codecs

ThunderGo is a Telegram bot and HTTP gateway: a file sent to the bot is forwarded once to a vault
channel, recorded in a database under a stable key, and served under a hash of that key. This project
models the parts of it that hold state or do arithmetic and proves what they are for, in Dafny 4.11.
`dafny verify dfyconfig.toml` checks everything; no file depends on anything outside the project.
Proof bodies that need only the contracts of some predicates hide their definitions (`hide P;`).

Three forms are used. Code that changes objects or arrays is a class or a method whose contract ties the
new state to a function of the old one (`LazyCache`, `ExactLru`, `FileStorage`, `Ingest`, `RateLimit`,
`ClientPool`, `Dispatch`, `TouchBuffer`, `Base32`, `RangeStream`, `PagePacking`, `BatchLink`). The properties of those
functions are lemmas in a module beside it (`CacheModel`, `LruModel`, `FileModel`, `IngestModel`, `Gcra`,
`PoolModel`, `TouchModel`, `BatchPool`). Concurrent code is a step system whose atomic steps are the single
database calls, channel operations or counter updates of the program, with theorems about every run
(`IngestProtocol`, `IngestLock`, `CacheStaleness`, `DispatchModel`, `TouchModel`, `BatchPool`). Clock readings,
database and network failures, and whatever Telegram answers are parameters or arbitrary choices; every
contract holds for all of them.

- **Ingest.** `IngestProtocol` lets any number of ingesters race on one key with unreliable locks, crashes,
  cancelled forwards and outside deletions, and conserves vault messages; `IngestLock` takes the lock apart
  into its three database calls; `IngestModel` and `Ingest` follow one call of Ingest through the store and
  the vault, state its exact outcome, and show that the record heals, is reused and keeps its provenance over
  whole runs. Every call ends, and one that nothing disturbs gets a free lock and succeeds.
- **Caches.** Every answer of the lazy-LRU cache is the value last set, at most one lifetime ago; the cache
  simulates an exact LRU while the clock moves; the two file indexes agree
  with the database after every sequential run; with interleaved readers and writers the staleness is bounded.
- **Rate limiter.** The run bound of the generic cell rate algorithm (ITU-T I.371, Annex A), its exact burst,
  its leaky-bucket form, and the refinement of one simple map by the sharded, swept limiter.
- **Range serving.** ParseRange against section 2.1 of RFC 7233, and the window loop that writes exactly the
  range; Crockford base32 with its wrapping 64-bit accumulator.
- **Concurrency skeletons.** Shutdown draining, pool tickets, seen-count batching, the batch worker pool.
- **Pagination.** Greedy packing rebuilds the text and is optimal.

## Where the code does less than its comments say

The code is modelled as it is; each of these is a lemma with the failing case, and where the property can hold
the exact condition is proved beside it.

- DecodeBase32's comment says that two strings cannot decode to the same bytes; "" and "0" do
  (`Base32.DecodeNotInjective`). Decoding is injective up to normalization on the lengths the encoder
  produces (`Base32.EncodeOfDecode`, `Base32.DecodeInjective`).
- AllowN's period is an integer division, so the burst of `cap` slots is exact only when
  `window % cap < window / cap` (`Gcra.InstantBoundExactly`).
- The stale-lock takeover is not atomic, and two processes can both hold the lock (`IngestLock.TakeoverRace`).
- Invalidating on writes does not close the window of a fill that read the database before the write
  (`CacheStaleness.LateFillServesStale`).
- A replacement can orphan a live message, reported as a success or not, if and only if a second look passed over a
  live record, because a cache or a validation answered it wrongly, or a write was applied while another ingester was
  between its second look and its write (`IngestProtocol.OrphansExactlyFromInit`). Under a lock that excludes only the
  first matters (`IngestProtocol.ReliableIsCareful`), and it is enough: internal/store/store.go:445 answers the second
  look from the cache. Failing runs from the empty database: a validation that misses a live message
  (`IngestProtocol.MissedMessageOrphans`), a stale cache under the lock, after which a third ingester reports a reused
  success for a message no longer recorded (`IngestProtocol.StaleCacheOrphans`), and one lock expiry
  (`IngestProtocol.SecondReplacerOrphansFirst`). Otherwise every success stands (`IngestProtocol.SuccessesStand`).
- ReplaceFile takes an empty hash for "not known" and then leaves the old hash entry in the cache
  (`FileModel.ReplaceCoherentExactly`, with such a state in `FileModel.EmptyHashIsCached`), and DeleteFileByHash takes
  an empty key for "not known" and then leaves the key entry (`FileModel.DeleteCoherentExactly`,
  `FileModel.EmptyKeyIsCached`); no other operation breaks the agreement (`FileModel.RunsCoherentExactly`). No caller
  produces either: deterministicHash never returns the empty string, and Ingest refuses a file without a key.
- An ingester deletes the very message that the record names if and only if it reread a write of its own that had been
  applied without acknowledgement and the answer was not its own message as valid (`IngestProtocol.DanglesExactly`,
  with a failing run in `IngestProtocol.FailedRereadDangles`).
- ParseRange answers some correct headers otherwise than RFC 7233: a suffix of length zero is called malformed (400)
  where section 2.1 makes it unsatisfiable (416), and positions of 2^63 and more are refused where they would be
  clamped (`RangeHeader.FailingHeaders`; `RangeHeader.SpanExactly`, `RangeHeader.FromExactly` and
  `RangeHeader.LastExactly` say exactly when the answers agree). A last position before the first, which section 2.1
  calls invalid, is refused with 416, as section 3.1 recommends for invalid ranges (`RangeHeader.BackwardSpan`).
  Any other range unit, which section 3.1 has ignored, is refused with 400 (`RangeHeader.OtherUnitsRefused`), and a
  satisfiable set is refused when its first range selects nothing (`RangeHeader.LaterRangeMissed`; the exact condition
  is `RangeHeader.SetExactly`).
- A limiter cell is swept only when its arrival time is a window old, so a user can stay tracked for two windows
  after the last call (`RateLimit.TwoWindows`), and never longer (`RateLimit.SweepForgets`).
- An empty entry at the start of a page is dropped together with its separator
  (`PagePacking.PagesRebuildExactly`).
- internal/store/integration_test.go:31-36 says that the lock's expiry is not checked inline; the code checks it
  (internal/store/store.go:683), and the model follows the code.

## Model

| member | source | states |
|---|---|---|
| IngestProtocol.EveryRunConserves | internal/ingest/ingest.go:211-476 | in every reachable state of every interleaving, with unreliable locks, crashes, outside deletions and validations that miss live messages, each live vault message of the key is the record's, or held by an ingester between forward and persist or delete, or a counted leak |
| IngestProtocol.LeakCauses | internal/ingest/ingest.go:317-476 | a step leaks a message if and only if it is a crash of the ingester that carries it unrecorded, a forward that posts after its wait was cancelled or although it reports an error, a failed delete of it, or a replacement by another message or a deletion of the record while it is live |
| IngestProtocol.FreshKeyConservation | internal/ingest/ingest.go:300-476 | from an empty database and vault, without outside deletions, with validations that find live messages and applied inserts re-read successfully, the live messages are exactly the disjoint union of the record's, the held and the leaked ones, even when locks are granted to several at once |
| IngestProtocol.QuiescentSingle | internal/ingest/ingest.go:426-476 | when all ingesters have returned or crashed and nothing leaked, at most one message survives and every success names it |
| IngestProtocol.MutualExclusion | internal/ingest/ingest.go:260-297 | with an atomic lock freed only by its holder, at most one ingester is between acquire and release in every reachable state |
| IngestProtocol.ForwardsOnlyWhenMissing | internal/ingest/ingest.go:299-317 | under such a lock and for a fresh key nobody forwards while a record exists, because of the second look after locking |
| IngestProtocol.SafetyBreaksExactly | internal/ingest/ingest.go:299-317 | "while the record's message is live nobody is on the way to replace it" survives a step if and only if the step is neither a second look answered with a stale or missed message while the record's is live, nor a write applied while another ingester is between its second look and its own |
| IngestProtocol.WouldOrphanExactly | internal/ingest/ingest.go:317-446 | an ingester past its second look, left to itself, orphans the record's message if and only if that is live and the ingester saw a stale record |
| IngestProtocol.OrphansExactly | internal/ingest/ingest.go:211-476 | along any run some ingester, left to itself, would orphan a live message if and only if the run has a second look or a write of those two kinds |
| IngestProtocol.OrphansExactlyFromInit | internal/ingest/ingest.go:211-476 | the same for every run from the empty database and vault |
| IngestProtocol.ReliableIsCareful | internal/ingest/ingest.go:260-317 | under a lock freed only by its holder no write overtakes another, so only the answers to the second look matter |
| IngestProtocol.SuccessesStand | internal/ingest/ingest.go:211-476 | over every run from the empty database and vault without those two kinds of step (under a lock that excludes, without the first) in which no record of a live message is dropped, every reported success, new or reused, names the record's message as long as that is live |
| IngestProtocol.MissedMessageOrphans | internal/ingest/ingest.go:99-121 | a run from the empty database and vault under a lock that excludes: one validation misses a live message at both looks, and two successes are reported of which the first is live and orphaned |
| IngestProtocol.StaleCacheOrphans | internal/store/store.go:443-459 | a run from the empty database and vault under a lock that excludes: with one stale cache entry at a second look and another at a first one, a reused success is reported for a live message that the record no longer names |
| IngestProtocol.SecondReplacerOrphansFirst | internal/ingest/ingest.go:442-476 | a run from the empty database and vault with one outside deletion, one lock expiry and no second look that passes over a live record, after which two ingesters have reported success and the live message of the first is orphaned |
| IngestProtocol.DanglesExactly | internal/ingest/ingest.go:446-470 | along any run without outside deletions some ingester can delete the message the record names if and only if some reread of an applied, unacknowledged write was not answered with its own message as valid |
| IngestProtocol.DanglesExactlyFromInit | internal/ingest/ingest.go:446-470 | the same for every run from the empty database and vault |
| IngestProtocol.FailedRereadDangles | internal/ingest/ingest.go:446-466 | runs from the empty database in which an insert applied without acknowledgement, whose second lookup or validation fails or misses the message, leaves the record naming a deleted message |
| IngestProtocol.LookAnswers | internal/ingest/ingest.go:236-317 | a look before the forward settles the call if and only if it finds a valid record, which is then reported as reused, or fails; a missing or stale record lets it go on |
| IngestProtocol.RereadAnswers | internal/ingest/ingest.go:446-470 | the reread after a failed write reports the valid record it finds, as reused unless it is its own, and gives its own message up for deletion unless the record is its own |
| IngestProtocol.OutcomeStays | internal/ingest/ingest.go:211-477 | over every run an answer once decided never changes, unless the ingester crashes |
| IngestProtocol.FoundIsReported | internal/ingest/ingest.go:299-317 | a valid record found by any of the four looks, the one under the lock included, is what the call reports, in every continuation |
| IngestProtocol.EveryCallEnds | internal/ingest/ingest.go:211-477 | in every run, whatever the others do, a call takes at most 17 steps of its own, and until it has returned or crashed it has a next one |
| IngestProtocol.ThirdAttemptCounts | internal/ingest/ingest.go:260-296 | after no, one or two refusals a free lock is still entered; the call fails with the third refusal and not before |
| IngestProtocol.ThirdForwardCounts | internal/ingest/ingest.go:337-385 | after no, one or two failed forwards the next one still counts; the call fails with the third failure and not before |
| IngestProtocol.UndisturbedSucceeds | internal/ingest/ingest.go:211-477 | from every reachable state with the lock free an ingester that nothing disturbs succeeds by its own steps: it reuses the live message of the record, or else posts exactly one, which becomes the record's, and nothing leaks |
| IngestProtocol.GrantsAreReleased | internal/ingest/ingest.go:297-477 | over every run a call that has returned without a crash has released the lock as often as it was granted, whichever way it went |
| IngestLock.GuardBreaksExactly | internal/store/store.go:670-705 | "every holder's document is the one in the database" survives a step, a call that reports an error with or without having been applied included, if and only if the step does not delete the document of another ingester that still holds the lock |
| IngestLock.LockExcludes | internal/store/store.go:670-705 | over every run, failing calls and deaths included, in which holders leave before expiry and a takeover deletes the document it found expired, at most one ingester holds the lock |
| IngestLock.TakeoverRace | internal/store/store.go:681-695 | from every state with an expired document and no holder there is a run in which two processes both find that document and, without time passing, both end up holding the lock |
| IngestLock.InsertTakesFree | internal/store/store.go:670-692 | both inserts take the lock whenever there is no document, with the caller's own document |
| IngestLock.AcquiresExactly | internal/store/store.go:670-700 | an undisturbed call enters if and only if there is no document or an expired one, and then with its own document for a full lifetime; otherwise it is refused and the document is untouched |
| IngestLock.LockIsPassedOn | internal/store/store.go:670-709 | when a holder releases, the next undisturbed call of another enters |
| IngestModel.EventKeeps | internal/ingest/ingest.go:412-446 | an ingest of any key, a loss of vault messages or a counter update keeps a key's record with its hash, creation time and nonzero source; only losing messages or a failed ingest of the same key can end its being live |
| IngestModel.ProvenanceSurvives | internal/ingest/ingest.go:430-442 | over every run in which nobody deletes the record, the hash, first creation time and first nonzero source never change |
| IngestModel.SuccessLasts | internal/ingest/ingest.go:211-476 | after a successful ingest the record found by key names a live vault message with the same key and size, until messages are lost, the record is deleted or a later ingest of the key fails |
| Ingest.Ingester.GetMessages | internal/ingest/ingest.go:93-107 | a lookup may fail or miss a live message but never invents one |
| Ingest.Ingester.ValidateCanonicalRecord | internal/ingest/ingest.go:81-121 | says valid only for a record that names live media with its key and its positive size, and exactly then if Telegram answers truthfully |
| Ingest.Ingester.CheckExisting | internal/ingest/ingest.go:236-252 | a valid record is served and at most its reuse counter changes; otherwise nothing changes and the result says whether the key has a record; with truthful answers the record is served if and only if it is live, and the counter goes up by one |
| Ingest.Ingester.AwaitLock | internal/ingest/ingest.go:260-296 | up to two more attempts, each after a wait and another look that may find the record valid, stale or absent; it serves a record found valid, fails, or reports the lock together with the record to be replaced; with truthful answers it gets the lock if and only if it is refused at most twice, and a live record seen after a refusal is served |
| Ingest.Ingester.ForwardToVault | internal/ingest/ingest.go:337-385 | up to three attempts; success yields a fresh vault message with media and the right key, and every other message posted, also by a forward that reports an error, is gone or counted as a leak; when forwards fail without posting, the third attempt still counts and a flood wait ends them at once |
| Ingest.Ingester.Persist | internal/ingest/ingest.go:442-476 | the record is written whole or not at all; the result is served by a live record, or the message is taken back; on a reused result the message taken back is not the one served; with truthful answers, whatever the write did and reported, the call succeeds if and only if the key then has a live record |
| Ingest.Ingester.Recover | internal/ingest/ingest.go:448-470 | the same from a write that reported an error, applied or not: with truthful answers a live record of the key is served, and otherwise the message is deleted and the write's error reported |
| Ingest.Ingester.Ingest | internal/ingest/ingest.go:211-477 | all of the above for one call, whatever fails on the way: other keys and other messages untouched, provenance kept, success means live, reused means an older message, a new record describes its own message and keeps the replaced source or else names this one; and with truthful answers, under any number of refusals and failed forwards and any fate of the write, the exact outcome and the whole new vault: a live record is reused and nothing posted, otherwise one message is posted and stays only as the record's, and every failure leaves records, vault and leaks as they were |
| Ingest.LaterIngestReuses | internal/ingest/ingest.go:236-252 | after a successful ingest, as long as no message is lost, the record is not deleted and no ingest of the key fails, the next truthful ingest reuses the record's message and posts nothing |
| Ingest.Ingester.DeleteStaleRecord | internal/stream/handler.go:149-159 | removes the record with that hash and no other, or nothing; success means that no record has the hash, and with a database that answers it is a success |
| CacheModel.OldestIsMinimal | internal/store/cache.go:124-139 | no entry has an older access stamp than the one evicted |
| CacheModel.OldestIsHindmost | internal/store/cache.go:129-135 | among equal stamps the entry furthest back goes |
| CacheModel.SetKeeps | internal/store/cache.go:76-103 | list and map stay in step, the size stays within the bound, other entries are untouched |
| CacheModel.SetThenGet | internal/store/cache.go:48-103 | with room, a set is answered with its value until it expires and other keys are answered as before |
| CacheModel.SetEvictsOne | internal/store/cache.go:93-102 | without room an insertion costs exactly one entry, the new one only if all others were stamped later |
| CacheModel.SweepKeeps | internal/store/cache.go:169-183 | a sweep removes the expired entries and nothing else |
| CacheModel.SweepIsInvisible | internal/store/cache.go:141-183 | no later lookup can tell whether a sweep happened |
| CacheModel.GetFrame | internal/store/cache.go:48-74 | a lookup drops the entry it finds expired and no other; a hit changes nothing but the access stamp, so no hit prolongs a life |
| CacheModel.AnswersAreFresh | internal/store/cache.go:48-183 | over every run of lookups, sets, invalidations and sweeps from an empty cache, an answer is the value last set for the key, not invalidated since, and set at most one lifetime ago |
| CacheModel.AnswersExactly | internal/store/cache.go:48-183 | with room for everything set the answer is exactly that value until its lifetime has passed, and nothing otherwise |
| CacheModel.ListIsByWrite | internal/store/cache.go:76-103 | over every run the list is in the order of the sets, lookups do not move entries, so ties in the eviction go to the entry set first |
| LazyCache.Cache.Get | internal/store/cache.go:48-74 | expiry on read, access stamp on a hit, as the lookup whose frame and freshness are proved in CacheModel |
| LazyCache.Cache.Set | internal/store/cache.go:78-103 | update in place to the front, or insertion with one eviction over capacity |
| LazyCache.Cache.OldestEntry | internal/store/cache.go:126-135 | the scan from the largest int64 finds the hindmost entry with the least stamp |
| LazyCache.Cache.EvictBack | internal/store/cache.go:126-139 | removes that entry |
| LazyCache.Cache.Invalidate | internal/store/cache.go:106-115 | removes the key from map and list |
| LazyCache.Cache.Sweep | internal/store/cache.go:169-183 | the walk over the list, removing expired entries as it goes |
| LruModel.PutKeeps | internal/shortener/shortener.go:74-92 | recency list and map stay in step and within the bound |
| ExactLru.LruCache.Get | internal/shortener/shortener.go:60-70 | a hit moves to the front |
| ExactLru.LruCache.Put | internal/shortener/shortener.go:74-92 | update or insertion at the front, eviction from the back |
| LruSimulation.SameVictim | internal/store/cache.go:126-139 | the minimum scan evicts what the exact LRU has at its back |
| LruSimulation.StepSimulates | internal/store/cache.go:48-139 | one get or set with a later clock keeps "same pairs, recency order = descending stamps" and gives the same answer |
| LruSimulation.RunsAgree | internal/store/cache.go:48-139 | for every run with a strictly increasing clock and no expired lookup both caches give the same answers and hold the same pairs |
| LruSimulation.FromEmpty | internal/shortener/shortener.go:60-92 | the same from two empty caches of any capacity |
| LruSimulation.EqualStampsDiffer | internal/store/cache.go:126-139 | with equal stamps the two evict different keys, so the strict clock is needed |
| CacheStaleness.BoundedStaleness | internal/store/store.go:278-316 | under every interleaving of get, database read, set, write and invalidate an answer was the database's at a time at most ttl plus the longest fill earlier |
| CacheStaleness.StaleOnlyByLateFill | internal/store/store.go:735-773 | a read misses a write that had returned before it began if and only if its entry was set by a fill that read before such a write and set after that write's invalidate |
| CacheStaleness.LateFillServesStale | internal/store/store.go:886-928 | whenever a fill is under way such a run exists |
| FileModel.FindByKeyAgrees | internal/store/store.go:445-459 | a lookup answers as the uncached database up to the advisory fields and keeps the caches coherent |
| FileModel.FindByHashAgrees | internal/store/store.go:463-477 | the same by hash |
| FileModel.LookupsAgree | internal/store/store.go:443-477 | what a hash finds its key finds |
| FileModel.ReadIsCached | internal/store/store.go:445-459 | with room, a record read from the database is served without it for one entry lifetime |
| FileModel.WriteIsCached | internal/store/store.go:392-400 | a successful insert is served by key and by hash without the database |
| FileModel.InsertKeeps | internal/store/store.go:392-400 | coherence over an insert, refused, failed, applied or unacknowledged |
| FileModel.ReplaceKeeps | internal/store/store.go:406-441 | coherence over a replacement that may change hash and message, whatever fails |
| FileModel.WriteIsAllOrNothing | internal/store/store.go:392-441 | both writes apply the whole record or nothing, report success only when applied, and on a collision of a unique index fail and change no record |
| FileModel.WriteOutcome | internal/store/store.go:392-441 | with a readable database whether a write is applied and what it reports depend on the unique indexes and the write call alone, however the caches are filled |
| FileModel.DeleteReports | internal/store/store.go:479-515 | a deletion that reports success has left no record with the hash and taken no other, also when the hash was cached; with a database that reads and acknowledges it reports success |
| FileModel.HashReadIsCached | internal/store/store.go:463-477 | with room, a record read by hash is served without the database for one entry lifetime |
| FileModel.ReplaceIsCached | internal/store/store.go:406-441 | a successful replacement is served by key and by hash without the database |
| FileModel.DeleteKeeps | internal/store/store.go:479-515 | coherence over a deletion by hash, whatever fails |
| FileModel.CountKeeps | internal/store/store.go:517-541 | counters changed behind the caches' back keep coherence |
| FileModel.RunsStayCoherent | internal/store/store.go:392-541 | after every sequential run every cached entry, expired or not, equals the database's record up to the advisory fields |
| FileModel.RunCounts | internal/store/store.go:517-541 | over every run that does not replace or delete a record, its reuse counter grows by one for each counted reuse and its seen counter by what its touches add up to, and nothing else of it changes |
| FileModel.ReplaceCoherentExactly | internal/store/store.go:406-441 | a replacement, whatever becomes of its database calls and however full the caches are, keeps coherence if and only if it is not an applied one of a record without a hash that is cached under the empty hash and not evicted by the write |
| FileModel.EmptyHashIsCached | internal/store/store.go:406-441 | looking up a record without a hash by the empty one gives such a state |
| FileModel.DeleteCoherentExactly | internal/store/store.go:479-515 | a deletion by hash, whatever becomes of its database calls, keeps coherence if and only if it is not an applied one of a record without a key that is cached under the empty key |
| FileModel.EmptyKeyIsCached | internal/store/store.go:443-515 | looking up a record without a key by the empty one gives such a state |
| FileModel.StepCoherentExactly | internal/store/store.go:392-541 | any operation, whatever keys and hashes it names, keeps coherence if and only if it is not such a replacement or deletion |
| FileModel.RunsCoherentExactly | internal/store/store.go:392-541 | over every sequential run, on records with or without key and hash, the caches agree with the database all along if and only if the run has no such replacement or deletion |
| FileStorage.FileStore.InsertFile | internal/store/store.go:392-400 | insert, then both caches, in the source's order |
| FileStorage.FileStore.FindFileByKey | internal/store/store.go:445-459 | read-through by key |
| FileStorage.FileStore.FindFileByHash | internal/store/store.go:463-477 | read-through by hash |
| FileStorage.FileStore.ReplaceFile | internal/store/store.go:406-441 | invalidate, upsert, invalidate, set, with every early return |
| FileStorage.FileStore.DeleteFileByHash | internal/store/store.go:479-515 | key from cache or database, invalidate, delete, invalidate |
| FileStorage.FileStore.IncrementReuseCount | internal/store/store.go:519-522 | one counter of one record, caches untouched |
| Gcra.RunBound | internal/ratelimit/ratelimit.go:58-99 | over any run, period times the units admitted in [a,b] is at most (b-a) plus the window |
| Gcra.BurstAdmitted | internal/ratelimit/ratelimit.go:79-99 | an idle user gets any burst whose cost fits the window |
| Gcra.InstantBoundExactly | internal/ratelimit/ratelimit.go:79-99 | no run admits more than cap units at one instant if and only if window % cap < window / cap |
| Gcra.SquareFits | internal/ratelimit/ratelimit.go:79-99 | so the bound holds whenever cap * cap <= window |
| Gcra.RetryExact | internal/ratelimit/ratelimit.go:89-96 | a rejected call succeeds after a delay if and only if n <= cap and the delay is at least retryAfter |
| Gcra.LeakyBucket | internal/ratelimit/ratelimit.go:79-99 | over every run the decisions and retry values are those of a leaky bucket of capacity window charged n periods |
| Gcra.NoOverflow | internal/ratelimit/ratelimit.go:79-97 | the int64 sums stay in range and an arrival time never runs more than a window ahead |
| RateLimit.StepRefines | internal/ratelimit/ratelimit.go:58-131 | one call, one reset or the sweep of one shard answers as the map that never forgets and keeps the relation |
| RateLimit.RunRefines | internal/ratelimit/ratelimit.go:58-131 | the same for every run from related states |
| RateLimit.LimiterRefinesSimple | internal/ratelimit/ratelimit.go:58-131 | every decision and retry value of every interleaving of calls, resets and sweeps of single shards, whose cutoff may be old, equals that of one unsharded map, negative user ids included |
| RateLimit.UserRunBound | internal/ratelimit/ratelimit.go:58-131 | the run bound for the limiter as it is: whatever other users do and sweeps remove in between, period times the units admitted to one user in [a,b] is at most (b-a) plus the window |
| RateLimit.TrackedWereActive | internal/ratelimit/ratelimit.go:69-99 | over every run a tracked user made an admissible call no more than a window before its arrival time |
| RateLimit.ActiveAreTracked | internal/ratelimit/ratelimit.go:69-131 | over every run a user with an admissible call within the last window, not reset since, is tracked |
| RateLimit.SweepForgets | internal/ratelimit/ratelimit.go:114-131 | over every run, once a sweep that read the clock at `now` has been through a user's shard, the user is tracked only with an admissible call in the last two windows, and for certain with one in the last window and no reset since |
| RateLimit.TwoWindows | internal/ratelimit/ratelimit.go:114-131 | two windows is exact: a user who fills the window in one call is tracked by a sweep at `now` if and only if that is within two windows |
| RateLimit.QuietSweep | internal/ratelimit/ratelimit.go:120-130 | a sweep with nothing in between goes through every shard |
| RateLimit.SweepShard | internal/ratelimit/ratelimit.go:124-128 | the deleting walk over a shard, in any order |
| RateLimit.Limiter.AllowN | internal/ratelimit/ratelimit.go:58-100 | decision, retry value and the new shards, cell creation on a rejected call included |
| RateLimit.Limiter.Reset | internal/ratelimit/ratelimit.go:104-112 | the user's cell is gone and nothing else changes |
| RateLimit.Limiter.Others | internal/ratelimit/ratelimit.go:58-131 | any calls, one after the other, do to the shards what the run of the model does |
| RateLimit.Limiter.Sweep | internal/ratelimit/ratelimit.go:116-131 | one clock reading, then shard by shard with any calls of others before each: the shards end as after that run of the model |
| RangeHeader.ParseRange | internal/tgutil/util.go:359-426 | for every header: an accepted range satisfies 0 <= start <= end < size |
| RangeHeader.SpanExactly | internal/tgutil/util.go:404-425 | every "bytes=f-l" of digits is answered as sections 2.1 and 3.1 of RFC 7233 answer it if and only if the positions that matter fit int64 |
| RangeHeader.FromExactly | internal/tgutil/util.go:404-415 | the same for "bytes=f-" |
| RangeHeader.LastExactly | internal/tgutil/util.go:388-402 | the same for "bytes=-n", if and only if n is positive and fits int64 |
| RangeHeader.BackwardSpan | internal/tgutil/util.go:404-421 | a last position before the first is refused, as unsatisfiable if the first fits int64 and else as malformed |
| RangeHeader.FailingHeaders | internal/tgutil/util.go:388-421 | for every file, "bytes=-0" and two headers with 2^63 are answered otherwise than by the RFC |
| RangeHeader.RangeRoundTrip | internal/tgutil/util.go:359-426 | the header written for (s,e) parses back to (s,e) |
| RangeHeader.OnlyTheFirstRange | internal/tgutil/util.go:374-381 | whatever the first range of a list is and whatever follows the comma, the list is answered as its first range alone |
| RangeHeader.SetExactly | internal/tgutil/util.go:374-426 | a set of specs is accepted just when section 2.1 of RFC 7233 calls it satisfiable, if and only if its first spec selects something and fits int64 and the others are valid, or neither that spec can be answered nor the set is satisfiable; an accepted set is answered as its first spec |
| RangeHeader.LaterRangeMissed | internal/tgutil/util.go:374-412 | for every file, the satisfiable set of a range that begins at its end and "0-0" is refused |
| RangeHeader.OtherUnitsRefused | internal/tgutil/util.go:366-369 | a header with any other range unit is refused, where section 3.1 of RFC 7233 has it ignored |
| RangeHeader.ContentRangeDetermines | internal/tgutil/util.go:428-431 | a Content-Range value determines start, end and size |
| RangeHeader.ContentRangeParsesBack | internal/tgutil/util.go:428-431 | the value up to its slash, asked for in a Range header, parses back to the range, and behind the slash stands the size |
| RangeStream.ChooseResponse | internal/stream/handler.go:102-131 | each status exactly when: 400, 416, 500 for a range beyond native int, 206 with its length, 200 for no range or the whole file |
| RangeStream.SendDue | internal/stream/handler.go:216-236 | of one chunk exactly the bytes that are due are written, and a failed write leaves a prefix |
| RangeStream.StreamRange | internal/stream/handler.go:187-244 | for any backend the client gets a prefix of file[s..e]; all of it with a steady backend if e + 1 MiB fits native int, and with a full one if and only if the last aligned window does; offsets start aligned, never repeat, never overflow; the loop ends |
| RangeStream.Serve | internal/stream/handler.go:102-175 | for every header the response of ChooseResponse and, for a 206, a prefix of the selected bytes; all of them with a steady backend if the last byte + 1 MiB fits native int, and with a full one if and only if the last aligned window does; the header for any proper part of the file yields a 206 with its length and exactly those bytes |
| Base32.Encode | internal/tgutil/util.go:51-70 | despite the wrapping accumulator the text is in normal form, holds the bytes as padded 5-bit digits, and has ceil(8n/5) characters |
| Base32.Decode | internal/tgutil/util.go:74-104 | succeeds exactly on valid characters with zero trailing bits, and then the bytes are the digits' bits; errors name the first bad character |
| Base32.Normalize | internal/tgutil/util.go:108-124 | the lower-cased, unambiguous form of the trimmed text, for any lower-casing beyond ASCII |
| Base32.NormalizedTwice | internal/tgutil/util.go:106-124 | normalizing twice is normalizing once |
| Base32.DecodableIsAscii | internal/tgutil/util.go:74-124 | the normal form of whatever decodes does not depend on lower-casing beyond ASCII |
| Base32.AlikeExactly | internal/tgutil/util.go:17-40 | two characters normalize alike if and only if they are one letter in either case, or both among 0 O o, or both among 1 I i L l; symbols decode alike exactly then |
| Base32.SpellingsAgree | internal/tgutil/util.go:74-124 | two tokens have one normal form if and only if one is a spelling of the other, and then they decode to the same bytes or both to none |
| Base32.DigitIsCrockford | internal/tgutil/util.go:17-40 | the digits are the Crockford alphabet |
| Base32.AlphabetRoundTrip | internal/tgutil/util.go:17-40 | table and alphabet are inverse up to normalization |
| Base32.RoundTrip | internal/tgutil/util.go:51-104 | Decode(Encode(b)) = b for all byte strings |
| Base32.DecodeOfEncode | internal/tgutil/util.go:51-104 | every encoding is accepted untrimmed and decodes to its bytes |
| Base32.DecodingUnique | internal/tgutil/util.go:74-104 | a string decodes to one byte string |
| Base32.EncodeOfDecode | internal/tgutil/util.go:51-124 | Encode(Decode(s)) = Normalize(s) if and only if the length modulo 8 is 0, 2, 4, 5 or 7 |
| Base32.DecodeInjective | internal/tgutil/util.go:74-124 | on those lengths decoding is injective up to normalization |
| Base32.DecodeNotInjective | internal/tgutil/util.go:96-103 | "" and "0" decode to the same bytes |
| PagePacking.SplitJoins | internal/bot/handlers_owner.go:469 | joining the entries gives the body back |
| PagePacking.SplitExactly | internal/bot/handlers_owner.go:469 | the entries are the one list of texts without a blank line inside, none but the last ending in a line break, that joins to the body |
| PagePacking.Paginate | internal/bot/handlers_owner.go:466-481 | the loop computes the greedy packing |
| PagePacking.PagesRebuildExactly | internal/bot/handlers_owner.go:464-481 | the joined pages are the text if and only if no page begins with an empty entry, a lone one aside |
| PagePacking.PagesRebuildBody | internal/bot/handlers_owner.go:464-481 | so nonempty entries rebuild the body |
| PagePacking.LeadingBlankIsLost | internal/bot/handlers_owner.go:470-481 | a body that begins with a separator loses it |
| PagePacking.PagesFitExactly | internal/bot/handlers_owner.go:464-481 | every page is within 3500 bytes if and only if every entry is |
| PagePacking.GreedyIsOptimal | internal/bot/handlers_owner.go:464-481 | no in-order partition of any nonempty list of entries, empty entries included, into pages within the limit has fewer pages |
| PagePacking.GreedyIsPartition | internal/bot/handlers_owner.go:464-481 | the pages of nonempty entries are themselves such a partition |
| DispatchModel.CountsAreExact | internal/bot/bot.go:253-278 | in every reachable state at most 128 handlers run and the wait count is the number of dispatchers, handlers and prune goroutines alive |
| DispatchModel.DrainSafety | internal/bot/bot.go:224-278 | once a call of Stop has returned no handler or prune goroutine runs and none ever starts |
| DispatchModel.LateLaunch | internal/bot/bot.go:265-277 | a handler can start after the stop channel is closed, so the wait is needed |
| DispatchModel.WorkDecreases | internal/bot/handlers_owner.go:322-336 | every step of a dispatcher, handler or prune goroutine leaves less to do |
| DispatchModel.DrainIsBounded | internal/bot/bot.go:224-278 | without new messages there are at most as many steps as the work there is |
| DispatchModel.StopIsNotStalled | internal/bot/bot.go:264-271 | after the close Wait can return or some goroutine can step, even with a full semaphore |
| Dispatch.Bot.FirstSelect | internal/bot/bot.go:259-264 | passes exactly when the stop channel is open |
| Dispatch.Bot.SecondSelect | internal/bot/bot.go:265-277 | takes a slot and launches, or gives up, which it does only after the close; either when both are ready |
| Dispatch.Bot.Dispatch | internal/bot/bot.go:255-278 | with any interference between its operations: a message that arrives after the close is dropped for certain, a message is dropped only after the close, one that launches a handler does so before any Stop has returned, and the counts stay exact |
| Dispatch.Bot.Stop | internal/bot/bot.go:226-230 | with finitely many arrivals and handlers that end it returns whatever the others do next, late launches included, and then nothing it waits for is left |
| PoolModel.AcquisitionsFill | internal/pool/pool.go:210-241 | k acquisitions from idle keep the loads within one of each other and the cap, and admit exactly min(k, clients * cap) |
| PoolModel.BestIsUnique | internal/pool/pool.go:218-230 | first least-loaded client below the cap describes one client |
| PoolModel.SumIsHeld | internal/pool/pool.go:274-280 | loads that equal the tickets held add up to all tickets |
| ClientPool.Pool.Scan | internal/pool/pool.go:218-230 | with releases landing between the reads, the pick is the best of the loads as read |
| ClientPool.Pool.Reserve | internal/pool/pool.go:238-240 | the reservation issues one fresh ticket and raises one load |
| ClientPool.Pool.AcquireBest | internal/pool/pool.go:210-241 | loads stay in [0,cap] and equal outstanding tickets; a rejection means every client was at the cap when scanned and since the call began; without interference the new loads are those of the model |
| ClientPool.Pool.Release | internal/pool/pool.go:239-240 | the first call gives the slot back, any other changes nothing |
| ClientPool.Pool.TotalInflight | internal/pool/pool.go:274-280 | with reservations and releases landing between its reads the result lies between the tickets outstanding at the call less those released meanwhile, and those plus the ones acquired; exact when there are none |
| TouchModel.EventConserves | internal/store/store.go:593-655 | only an increment of a key changes what is accounted for it, by one |
| TouchModel.RunConserves | internal/store/store.go:593-655 | over every run, increments = handed to BulkWrite + pending + in channel + dropped, key by key |
| TouchModel.RunKeeps | internal/store/store.go:593-655 | the channel stays within capacity, the drop counter is exact, batches are never empty |
| TouchModel.NothingIsLeft | internal/store/store.go:606-655 | when the loop has finished everything is written or counted as dropped |
| TouchModel.TickFlushes | internal/store/store.go:616-637 | a tick hands over exactly what was pending, key by key, and leaves the channel alone |
| TouchModel.TickLeavesNothingPending | internal/store/store.go:593-655 | so after a tick of any run every increment has been written, dropped, or is in the channel |
| TouchModel.ReceivedIsPending | internal/store/store.go:638-653 | a received key is the oldest in the channel and becomes pending |
| TouchModel.DropsAreOverflow | internal/store/store.go:593-599 | over every run the drops are at most what overfills the channel, and exactly that while the loop takes nothing, so 1000 increments in a row always get through |
| TouchBuffer.Buffer.Increment | internal/store/store.go:593-599 | one key into the channel, or one drop |
| TouchBuffer.Buffer.Flush | internal/store/store.go:624-637 | everything pending is handed over and nothing stays |
| TouchBuffer.Buffer.Iterate | internal/store/store.go:638-654 | one round of the select is one event of the model |
| TouchBuffer.Buffer.Stop | internal/store/store.go:609-655 | after close the loop finishes with nothing left, losing nothing, whatever the ticker does |
| BatchPool.AtMostOnce | internal/bot/handlers_link.go:242-295 | under every interleaving, cancellation and panics included, each index is processed at most once and a result is its own message's outcome, or a failure after cancellation |
| BatchPool.ScheduleIndependent | internal/bot/handlers_link.go:242-295 | without cancellation or panic every schedule ends with the outcome of every message at its own index |
| BatchPool.MeasureDecreases | internal/bot/handlers_link.go:242-295 | every step uses up work |
| BatchPool.NeverStuck | internal/bot/handlers_link.go:242-295 | as long as a worker is left some step is enabled |
| BatchLink.Collect | internal/bot/handlers_link.go:297-315 | the chunks concatenate to the succeeded texts in message order, each has 1 to 10 and all but the last 10; the tallies add up to the messages that have a result |
| BatchLink.ChunksAreUnique | internal/bot/handlers_link.go:185-208 | the texts determine the chunks |
| BatchLink.UndisturbedBatch | internal/bot/handlers_link.go:242-315 | two undisturbed runs lead to the same texts, and no message is missing from the tallies |

## Left out

- Telegram's client, MongoDB's driver, HTTP routing and headers, templates, configuration, logging, SHA-256: foreign calls are arbitrary results within a stated contract, the hash is any function of the key with nonempty values, and single database operations are atomic.
- Ingest.Ingester.Ingest: one process and no interleaving with other ingesters, which IngestProtocol has; message ids are positive and fresh, waiting times and the file name, MIME type and data centre fields are not modelled (they are one text, details), and the in-process mutex, on which no result relies, is absent.
- Ingest.Ingester.Ingest: the exact outcome is stated for truthful lookups, deletions that succeed and no cancellation; without them a call may leave the record naming a message that the ingester has deleted, see IngestProtocol.DanglesExactly. Releasing the lock is not part of it, see IngestProtocol.GrantsAreReleased.
- IngestModel.SuccessLasts: seen and reuse counters are not tracked over ingests, because the caches do not track them; FileModel.RunCounts tracks them over store operations.
- IngestProtocol.FreshKeyConservation: a lookup and the validation of what it finds are one step, and the record it finds may be any the database ever held; a message is lost only by deletion, and a validation that calls it live is not wrong.
- IngestProtocol.SuccessesStand: it says nothing of runs in which a stream drops the record of a live message, which RecordDropped allows at any time.
- LazyCache.Cache.Get: cache methods run one at a time; the second look under the write lock, the pointers between list elements and entries, and nil caches are not modelled; list elements are named by their key.
- FileStorage.FileStore.ReplaceFile: the second round of invalidation, here and in DeleteFileByHash, changes nothing in a sequential store; what an invalidation after the write is for belongs to CacheStaleness, and what the second look under the lock is for to IngestProtocol.
- FileStorage.FileStore.FindFileByKey: one clock reading per operation; reaping by the database's TTL index and other processes' writes are left out of the sequential store and belong to CacheStaleness.
- CacheStaleness.BoundedStaleness: one key of one cache; evictions only turn hits into misses.
- RateLimit.Limiter.AllowN: nil limiters and the GlobalLimiter wrapper are left out; the clock is a parameter and NoOverflow says when the int64 sums are exact.
- Base32.Normalize: lower-casing beyond ASCII is any function of the character; strings are sequences of characters, and the index in the decoder's error counts characters.
- RangeHeader.ParseRange: the header is a sequence of characters, so bytes that are not UTF-8 are outside the model.
- RangeStream.StreamRange: flushing, logging and the request context; the 200 body is written by the Telegram library.
- ClientPool.Pool.AcquireBest: releases are the only interference, since acquisitions exclude each other by the mutex; the counters are an array rather than a field of each client.
- DispatchModel.DrainSafety: callback queries do not go through dispatch; the misuse panic of the wait group when an addition races with a wait at zero is not modelled.
- TouchBuffer.Buffer.Stop: the five-second limit on waiting for the loop; batches are handed to BulkWrite, whose failures the program ignores.
- BatchPool.ScheduleIndependent: progress messages, the reversal of the fetched messages and the delays between chunks are left out; so is the delivery of direct messages.
- The preflight chain, the ban and restart handlers, message texts, byte formatting, the periodic sweeper goroutines and the shortener's HTTP calls are not part of this model.
