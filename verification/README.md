# adserver: the auction, the registry, the snapshot cache and the DSP engine

A Dafny model of the core of `internal/ads` with proofs of what its documentation
promises. `dafny verify dfyconfig.toml` checks the whole project.

| file | models |
|---|---|
| `Types.dfy` | bids, requests and policies, their checks, Go byte strings and int64 |
| `Pricing.dfy` | effective price, eligibility, rank, clearing price |
| `Auction.dfy` | the one-pass accumulator and the auction around it |
| `Economics.dfy` | facts about every auction result: order of arrival, incentives, floors, priorities |
| `LuaNumbers.dfy` | the doubles that the bid scripts compare |
| `Registry.dfy` | the two hashes and the index as a state, and every history of operations on it |
| `Store.dfy` | the Redis client: scripts, retries, `Upsert`, `Delete`, `Fetch`, `Placements` |
| `Snapshots.dfy` | the sort, and the one list of bids that a placement has |
| `Cache.dfy` | the snapshot cache one call at a time |
| `Serving.dfy` | one request served from the local cache |
| `CacheProtocol.dfy` | the snapshot cache, clients and reconcile passes interleaved |
| `CacheRaces.dfy` | snapshots that go back, invalidations that are missed, ages that are short |
| `DynamicCache.dfy` | the bounded cache of DSP results |
| `Breaker.dfy` | the circuit breaker over every history |
| `Dynamic.dfy` | cache keys, bidder namespaces, the sanitizer, isolation of deals |
| `Engine.dfy`, `EngineProgress.dfy` | triggers, refreshes and workers interleaved: safety, then progress |
| `EngineLoop.dfy` | which bidders a refresh asks, what breakers are told, what reaches the cache |
| `EngineRuns.dfy`, `EngineWitness.dfy` | where cached bids come from, replaced live entries, the breakers' own runs |
| `EndToEnd.dfy` | from the scripts that ran to the ad that is served |

## How the model is built

An auction result is described without the pass that computes it (`Auction.IsTally`):
who wins, the highest price among the winner's rivals, how many qualify. The
accumulator class is proved to establish that description for every list of offers,
and everything in `Economics` is a fact about the description. `Auction.RightDecision`
says the same in the fields of bids and request alone; `Auction.Run` is proved against both.

The registry is one state with atomic script runs. `Registry.Exec` says in one line
what both scripts mean; the class methods in `Store` are the scripts statement by
statement. JSON is taken to be an injective codec, so a payload is the bid itself.

The cache and the engine are step systems. A step is one script, one index update, one
fetch, one publication, one mutex section, one channel operation or one map call. Time
is an integer that a step is given. A network call is answered, or lost before or after
its effect; an adapter answers any list of bids or an error, at any time.

Strings are byte sequences and int64 wraps where Go's does (`Types.Wrap64`).

## Where the code does less than one might expect

- Reconcile passes publish without the in-flight guard, so a snapshot can be replaced by
  an older one that looks younger (`CacheRaces.SnapshotsGoBackwards`). It happens exactly
  when another worker has published a later fetch in between, one of the two being a pass
  (`CacheRaces.GoesBackIff`), and never between passes (`CacheRaces.ForwardBetweenPasses`).
- An invalidation that meets a refresh in flight starts nothing, and the change can stay
  unseen until the next refresh (`CacheRaces.InvalidationCanBeLost`). It is honoured exactly
  when that refresh has still to read or holds a list that is no older
  (`CacheRaces.InvalidationHonouredIff`).
- The age of a snapshot counts from its publication, not from its fetch
  (`CacheRaces.ReportedAgeIsShort`), so data older than the limit can pass for fresh
  (`CacheRaces.OldDataIsServed`).
- Two half-open probes can be out at once exactly when a call from before the opening is
  still out (`Breaker.TwoProbesIffStraggler`), which a bidder with one call at a time never
  has (`Breaker.TwoProbesReachableIff`, `EngineRuns.OneCallOneProbe`).
- Revisions above 2^53 are compared as rounded doubles although validation admits them
  up to 2^63-1; comparisons are exact up to a limit exactly when it is at most 2^53
  (`LuaNumbers.ComparesExactlyIff`, `Registry.LargeRevisionRefused`).
- A refresh can replace a live DSP entry, because a trigger does not test again when it
  claims the key (`EngineWitness.LiveEntryIsReplaced`; `EngineRuns.OverwritesLiveIff` says
  exactly when).
- Two requests can share a DSP cache key when a country or a device holds the byte 0x1f
  (`Dynamic.KeysCanCollide`, `Dynamic.ShiftLeft`); `Dynamic.KeysAgreeIff` says exactly which
  requests do, and `Dynamic.ShiftLeft` when the partner is a valid request too.
- A higher request floor can lower a second-price charge when the increment exceeds 1
  (`Economics.FloorsNeverLowerChargesIff`), and a positive increment rewards shading
  (`Economics.TruthfulIffNoIncrement`). Both effects are bounded and the bounds are reached.

## Model

| member | source | states |
|---|---|---|
| Pricing.EffectivePriceIsFloor | internal/ads/auction.go:140-143 | dividing before multiplying never leaves int64 and gives the rounded-down price * pacing / 10000, within 0 and the price |
| Pricing.ClearingPriceExact | internal/ads/auction.go:115-128 | the wrapping second-price computation equals the unbounded formula; the charge lies between the floors and the winner's price |
| Pricing.RanksAheadAsymmetric | internal/ads/auction.go:130-138 | rank is asymmetric; bids that tie agree on priority, price and ID |
| Pricing.RanksAheadWeakTransitive | internal/ads/auction.go:130-138 | rank is a strict weak order, by byte order of IDs at the end |
| Types.TextLessIff | internal/ads/auction.go:137-137 | the order of IDs: a proper prefix comes first, else the first different byte decides |
| Pricing.WindowsHandOver | internal/ads/auction.go:149-154 | back-to-back active windows neither overlap nor leave a gap |
| Pricing.TargetsAreAlternatives | internal/ads/auction.go:155-163 | a target list reaches exactly the requests that its single targets reach; an empty list reaches all |
| Pricing.TargetsMeanWhatTheySay | internal/ads/auction.go:155-163 | a single target country admits exactly the requests from there, a single target device those of that kind; without targets the request's country or device does not matter |
| Pricing.WindowEdges | internal/ads/auction.go:149-154 | a bound of 0 is none; a window holds its first instant and not its end |
| Types.PolicyInForce | internal/ads/auction.go:30-35 | every auctioneer runs under a valid policy: the given one, or first price with increment 1 in place of an invalid one |
| Auction.Accumulator.constructor | internal/ads/auction.go:60-60 | an empty pass is the right tally of no offers |
| Auction.Accumulator.Consider | internal/ads/auction.go:89-107 | after one more offer the fields are again the right winner (first of its rank), winning price, highest rival price and count, whatever came before |
| Auction.Run | internal/ads/auction.go:48-78 | cold and rejected snapshots are answered as such, without prices and the latter with its age; otherwise, over bids with valid prices, the decision is right in the fields of bids and request: the best bid that may serve, its worth, what it pays under each pricing model, the count, and no fill exactly when no bid may serve; a refresh is asked for exactly on missing or stale snapshots |
| Auction.AnswersAreRight | internal/ads/auction.go:60-128 | every result of the pass is that right decision: targets, window and floors by field, rank by priority, worth and ID, first price as bid, second price as the floor or the next bid's worth plus the increment up to the winner's worth |
| Serving.Serve | internal/ads/auction.go:48-78 | an auction over the local cache: unknown placements are cold, a list is rejected as stale exactly when it is past the limit and the policy says no bid, served otherwise with the right decision; a background refresh starts exactly when there is no list or an old one and none is in flight |
| Auction.TallyFacts | internal/ads/auction.go:89-107 | no qualified offer outranks the winner, no rival exceeds the runner-up price, which lies between 0 and the winning price |
| Economics.TallyIsUnique | internal/ads/auction.go:89-107 | offers, request and time leave one possible result |
| Economics.ChargeBounds | internal/ads/auction.go:115-128 | the charge is between the floors and the winner's price; under second price also between the runner-up price and that plus the increment, up to the floor |
| Economics.PermutationInvariance | internal/ads/auction.go:60-66 | any order of the same offers gives the same winning priority, price and ID, runner-up price, charge and count |
| Economics.LowerPriorityDoesNotInterfere | internal/ads/auction.go:96-106 | offers below the winner's priority change the count and nothing else |
| Economics.IncentiveBound | internal/ads/auction.go:115-138 | in the second-price auction a bidder that moves its price away from its value gains at most the increment, and never more than 2^63-2, everything else fixed |
| Economics.IncentiveBoundIsReached | internal/ads/auction.go:123-127 | for every valid increment some bidder gains exactly that bound |
| Economics.TruthfulIffNoIncrement | internal/ads/auction.go:115-138 | bidding the true value is best for everyone exactly when the increment is 0 |
| Economics.FloorMonotone | internal/ads/auction.go:115-128 | a higher request floor keeps a winner that still qualifies and lowers the charge by no more than the increment (at most 2^63-2) less one, by nothing under first price |
| Economics.FloorSlackIsReached | internal/ads/auction.go:120-127 | for every increment above 1 the charge can fall by exactly that much |
| Economics.FloorsNeverLowerChargesIff | internal/ads/auction.go:115-128 | floors never lower charges exactly under first price or with an increment of at most 1 |
| Economics.SortedFastPath | internal/ads/auction.go:60-63 | on a list sorted by rank the first qualified bid wins and the next one, if of its priority, is the runner-up |
| LuaNumbers.DoubleMonotone | internal/ads/store.go:92-94 | rounding to doubles keeps the order of revisions |
| LuaNumbers.DoubleExact | internal/ads/store.go:92-94 | revisions up to 2^53 are compared as they are |
| LuaNumbers.DoubleIsNearest | internal/ads/store.go:92-94 | a revision is read as the nearest number with a 53-bit significand, and of two equally near ones as the even one |
| LuaNumbers.ComparesExactlyIff | internal/ads/store.go:92-95 | all revisions up to a limit compare exactly if and only if the limit is at most 2^53 |
| Registry.RetryChangesNothing | internal/ads/store.go:79-117 | once an operation has run, running it again changes nothing, whatever ran in between, at any revision |
| Registry.RetryIsAcknowledged | internal/ads/store.go:94-97 | an immediate retry is acknowledged exactly when the first run was, and then the registry holds the operation |
| Registry.PlayNoOlder | internal/ads/store.go:91-101 | stored revisions and the index never go back, through any run |
| Registry.LastWriterWins | internal/ads/store.go:89-117 | for every history each row belongs to the first operation of the highest rank; a delete leaves its tombstone |
| Registry.HistoryDecidesIndex | internal/ads/store.go:128-131 | the index holds exactly the placements that some operation named |
| Registry.OrderIndependence | internal/ads/store.go:89-117 | any order and any repetition of conflict-free operations ends in the same registry |
| Registry.OrderIndependenceOfRevisions | internal/ads/store.go:89-117 | the same for revisions up to 2^53, each used for one operation per bid |
| Registry.PairCommutes | internal/ads/store.go:94-98 | two operations on one bid commute exactly when their ranks differ or they are the same |
| Registry.LargeRevisionRefused | internal/ads/store.go:92-97 | revision 2^53+1 is refused as stale after revision 2^53 |
| Registry.AgreementHolds | internal/ads/store.go:119-137 | in every reachable state each active payload is valid and carries its own key and the stored revision, and each row is indexed |
| Store.RedisStore.constructor | internal/ads/store.go:47-66 | a new registry is empty |
| Store.RedisStore.EvalUpsert | internal/ads/store.go:89-102 | the upsert script does and answers what `Exec` and `ReplyTo` say |
| Store.RedisStore.EvalDelete | internal/ads/store.go:104-117 | the delete script does and answers what `Exec` and `ReplyTo` say |
| Store.RedisStore.AddPlacement | internal/ads/store.go:129-131 | success means that the placement is in the index; nothing else enters it |
| Store.RedisStore.EvalWithRetry | internal/ads/store.go:80-87 | with lost answers and other clients in between, the effect happens at most once; success means that the registry holds the operation, staleness that it holds another |
| Store.RedisStore.Publish | internal/ads/store.go:144-146 | success means at least one invalidation of the placement, at most two are sent |
| Store.RedisStore.Upsert | internal/ads/store.go:119-148 | refused exactly for bids outside the listed limits, changing nothing; otherwise at most one effect; acceptance means that the bid, with full pacing for an omitted one, is stored, indexed and announced; staleness means superseded by a higher or a different equal revision; index, script and announcement are tried in this order |
| Store.RedisStore.Delete | internal/ads/store.go:150-173 | refused exactly for missing arguments or a revision out of range; otherwise the same for a delete: acceptance means no active bid and its tombstone |
| Store.RedisStore.Fetch | internal/ads/store.go:175-198 | whatever the order of the hash, the result is the placement's one list |
| Store.RedisStore.Decode | internal/ads/store.go:185-195 | decoding drops no payload and adds none |
| Store.RedisStore.Placements | internal/ads/store.go:213-225 | the result lists exactly the index, each placement once, in byte order |
| Store.ScriptsHappenOnce | internal/ads/store.go:80-87 | every way in which the two attempts can go leaves the effect of one run or of none |
| Snapshots.SortBids | internal/ads/store.go:200-211 | the array ends up a permutation of itself, in order |
| Snapshots.SortsBeforeIsRank | internal/ads/store.go:201-210 | the sort compares as the auction ranks |
| Snapshots.ListingIsUnique | internal/ads/store.go:200-211 | a set of bids with distinct IDs has one sorted list |
| Snapshots.FetchListsLiveBids | internal/ads/store.go:185-197 | the fetched list holds exactly the active bids, all valid and normal, in the only possible order |
| Cache.BidCache.constructor | internal/ads/cache.go:81-87 | a new cache is empty and runs under a valid policy: the given one, or 30 s, 60 s and stale serving in place of an invalid one |
| Cache.BidCache.Get | internal/ads/cache.go:113-125 | the published list with the time since its publication; stale exactly past the limit, rejected exactly if also configured to give no bid |
| Cache.BidCache.Claim | internal/ads/cache.go:127-133 | a background refresh starts exactly when the placement is named and not in flight |
| Cache.BidCache.Publish | internal/ads/cache.go:151-157 | the normalized bids, sorted, replace the placement's list and no other |
| Cache.BidCache.Refresh | internal/ads/cache.go:144-159 | success publishes the registry's own list, untouched by the second normalize and sort; failure keeps the old one |
| Cache.BidCache.Reconcile | internal/ads/cache.go:92-106 | success leaves every indexed placement with the registry's list; failure happens exactly when some call fails and publishes nothing wrong |
| CacheProtocol.InvHolds | internal/ads/cache.go:127-159 | in every reachable state every snapshot is the fetch of one genuine past registry state, every accepted or pending mutation is indexed, and refreshes are single-flight |
| CacheProtocol.AnythingMayHappen | internal/ads/cache.go:91-159 | clients, retries, invalidations, failing fetches and the clock are free at every moment |
| CacheProtocol.Convergence | internal/ads/cache.go:91-106 | after mutations stop and old fetches drain, one completed pass makes every snapshot the registry's list, for good |
| CacheRaces.GoesBackIff | internal/ads/cache.go:99-101 | over every run a publication moves its snapshot back if and only if between its fetch and itself another worker has published a later fetch that still stands; one of the two is a reconcile pass |
| CacheRaces.LaterFetchFirstGoesBack | internal/ads/cache.go:144-157 | whenever a later fetch is published first, the snapshot goes back at some step up to the older publication, whoever publishes in between |
| CacheRaces.ForwardBetweenPasses | internal/ads/cache.go:127-142 | between any two passes, in every run, snapshots never go back once only single-flight refreshes without older lists are out |
| CacheRaces.SnapshotsGoBackwards | internal/ads/cache.go:99-100 | a run in which an older fetch replaces the list of a completed pass and looks younger |
| CacheRaces.InvalidationHonouredIff | internal/ads/cache.go:127-142 | over every run: the refresh that an invalidation starts or meets shows what the registry held then if and only if it had not read yet or had read no older a state, and its fetch does not fail |
| CacheRaces.EndOfFlight | internal/ads/cache.go:144-157 | the list that such a refresh publishes is as new as the invalidation exactly when, as it arrived, the refresh had still to read or held a list that new |
| CacheRaces.DoneUntilReleased | internal/ads/cache.go:131-134 | an invalidation that arrives between the publication and the end of the refresh is always missed: until the release nothing is fetched, published or started for it |
| CacheRaces.InvalidationCanBeLost | internal/ads/cache.go:131-133 | a run in which an invalidation in flight is dropped and the change stays unseen at rest |
| CacheRaces.ReportedAgeIsShort | internal/ads/cache.go:122-123 | the reported age is never more than the age of the data, and equal to it exactly when no time passes between fetch and publication |
| CacheRaces.OldDataIsServed | internal/ads/cache.go:122-157 | for every policy that rejects stale snapshots, a run in which data older than the limit, outdated since it was read, is served as fresh |
| DynamicCache.DynamicBidCache.constructor | internal/ads/dynamic_bidding.go:73-78 | a new cache is empty, with the default limit for a limit below 1 |
| DynamicCache.DynamicBidCache.Get | internal/ads/dynamic_bidding.go:80-90 | found exactly when the last accepted entry of the key has not reached its expiry, and then its bids |
| DynamicCache.DynamicBidCache.Put | internal/ads/dynamic_bidding.go:92-119 | accepted exactly with a positive lifetime and a known key, room or an expired entry; the count is the number of entries and within the limit; only expired entries are evicted; a refusal means a cache full of live entries |
| DynamicCache.DynamicBidCache.MakeRoom | internal/ads/dynamic_bidding.go:103-112 | one expired entry goes, or none is expired |
| Breaker.CircuitBreaker.constructor | internal/ads/dynamic_bidding.go:130-138 | a new breaker is closed, with the given limits or 3 failures and 5 s in place of those that are not positive |
| Breaker.CircuitBreaker.Allow | internal/ads/dynamic_bidding.go:140-154 | grants as the state says and records the probe |
| Breaker.CircuitBreaker.Success | internal/ads/dynamic_bidding.go:156-160 | closes the circuit |
| Breaker.CircuitBreaker.Failure | internal/ads/dynamic_bidding.go:162-170 | counts, takes the probe back and at the threshold opens until `openFor` from now |
| Breaker.OpenIffEnoughFailures | internal/ads/dynamic_bidding.go:156-170 | over every history the circuit is open exactly with at least `threshold` failures since the last success |
| Breaker.GrantedIff | internal/ads/dynamic_bidding.go:140-170 | exactly which calls are let through in every history: all while fewer than `threshold` failures have happened since the last success, then the first one after `openFor` has passed since the last failure |
| Breaker.NoGrantWhileOpen | internal/ads/dynamic_bidding.go:140-170 | nothing is let through within `openFor` of a failure that leaves the circuit open, unless a success comes first |
| Breaker.OutcomeBetweenGrants | internal/ads/dynamic_bidding.go:146-165 | between two calls of one open period an outcome has been reported |
| Breaker.CircuitIsHistory | internal/ads/dynamic_bidding.go:140-170 | a breaker with its outstanding calls goes through the history of events that those calls make |
| Breaker.CircuitInvHolds | internal/ads/dynamic_bidding.go:140-170 | in every run of at most `limit` calls at once the flag is up exactly while the probe that raised it is out |
| Breaker.TwoProbesIffStraggler | internal/ads/dynamic_bidding.go:162-169 | from every reachable closed circuit that a failure opens: two probes can be out together in that open period exactly when another earlier call is still out |
| Breaker.TwoProbesReachableIff | internal/ads/dynamic_bidding.go:140-170 | from a new breaker two probes can come to be out together exactly when the bidder may have two calls out at once |
| Engine.InvHolds | internal/ads/dynamic_bidding.go:260-353 | the token, key, cache, fan-out and circuit accounts balance in every reachable state; what a refresh does in between is stated in `EngineLoop` |
| Engine.SafeAlways | internal/ads/dynamic_bidding.go:260-353 | in every interleaving: slots within the limit, one refresh body per key, calls per bidder within the limit, every result send finds room, a raised probe flag has a calling worker |
| EngineLoop.EveryBidderHasATurn | internal/ads/dynamic_bidding.go:299-335 | over every run: when the loop of a refresh ends, every bidder was full, was refused by its breaker or was called, or `MaxFanout` bidders before it were called |
| EngineLoop.TurnsInOrder | internal/ads/dynamic_bidding.go:299-335 | turns come in the order of the bidders, at most one each |
| EngineLoop.DroppedOnlyIf | internal/ads/dynamic_bidding.go:268-277 | a trigger comes to nothing only when another goroutine works on its key or all slots are held |
| EngineLoop.BreakersHearEverything | internal/ads/dynamic_bidding.go:309-332 | in every interleaving each breaker is in the state of the history of all requests and outcomes of its bidder, errors as failures and answers as successes |
| EngineLoop.ChannelHoldsWhatWasSent | internal/ads/dynamic_bidding.go:329-333 | the channel of a refresh holds what its workers have sent since its start, in that order |
| EngineLoop.StoreWaitsForAll | internal/ads/dynamic_bidding.go:336-346 | a refresh stores only when every started worker has sent its result |
| EngineLoop.AnswersReachTheCache | internal/ads/dynamic_bidding.go:333-352 | over every run: each passing bid that an adapter returned is in the entry that its refresh stores, which then lives for the long lifetime |
| EngineLoop.TriggersAreFree | internal/ads/dynamic_bidding.go:260-268 | a trigger without a fresh entry can start at any time, and breakers can be asked at any time |
| EngineLoop.AnswersAreFree | internal/ads/dynamic_bidding.go:321-352 | a call can be answered in any way; only a live entry is never refused |
| EngineRuns.OverwritesLiveIff | internal/ads/dynamic_bidding.go:265-283 | over every run: what a refresh replaces is live if and only if another refresh stored it between this one's test of the cache and its claim and it has not expired; live entries are always replaced |
| EngineWitness.LiveEntryIsReplaced | internal/ads/dynamic_bidding.go:265-283 | in every engine with one bidder, for every request: a run from the start in which two triggers pass the test before either claims and the second refresh replaces the live entry of the first |
| EngineRuns.EntriesAreKeyed | internal/ads/dynamic_bidding.go:281-353 | in every interleaving a cached entry is the merged list of one refresh for a triggered request with that very key, made of results that its own workers reported and sanitized |
| EngineRuns.EntriesAreClean | internal/ads/dynamic_bidding.go:333-384 | every cached offer is clean, of the placement of that request, and from a configured bidder |
| EngineRuns.CircuitsRun | internal/ads/dynamic_bidding.go:303-332 | whatever the goroutines do, each breaker sees a run of its own with at most `MaxConcurrent` calls out, which are the calling workers |
| EngineRuns.OneCallOneProbe | internal/ads/dynamic_bidding.go:303-332 | a bidder limited to one call never has two probes out |
| EngineProgress.MeasureDecreases | internal/ads/dynamic_bidding.go:271-353 | every step but a new trigger lowers the measure of the work ahead |
| EngineProgress.RunsAreBounded | internal/ads/dynamic_bidding.go:271-353 | without new triggers a run is no longer than that measure |
| EngineProgress.RestReturnsAll | internal/ads/dynamic_bidding.go:278-337 | when no step is left every slot, semaphore token, in-flight key and probe has been returned |
| EngineProgress.EngineComesToRest | internal/ads/dynamic_bidding.go:260-353 | from every reachable state the engine stops after boundedly many steps, and then everything is returned |
| Dynamic.KeysSeparateFloors | internal/ads/dynamic_bidding.go:285-287 | requests with different floors never share a key, whatever their fields hold |
| Dynamic.KeysSeparateRequests | internal/ads/dynamic_bidding.go:285-287 | without 0x1f in country and device, keys are equal exactly for the same placement, country, device and floor |
| Dynamic.KeysAgreeIff | internal/ads/dynamic_bidding.go:285-287 | any two requests share a key exactly when they have one canonical form, in which all further 0x1f bytes belong to the placement |
| Dynamic.SeparableIffCanonical | internal/ads/dynamic_bidding.go:285-287 | a request differs from the canonical request with its key exactly when its country or device holds 0x1f |
| Dynamic.OwnsItsKeyIff | internal/ads/dynamic_bidding.go:285-287 | no other request has a request's key exactly when none of its three texts holds 0x1f |
| Dynamic.ShiftLeft | internal/ads/dynamic_bidding.go:285-287 | every request with 0x1f in country or device shares its key with one for another placement; a valid one if placement, one byte and country fit in 128 bytes and the device in 16 |
| Dynamic.KeysCanCollide | internal/ads/dynamic_bidding.go:285-287 | two valid requests for different placements with one key |
| Dynamic.ValidBidderID | internal/ads/dynamic_bidding.go:355-366 | accepts exactly 1 to 64 letters, digits, `-`, `_` and `.` |
| Dynamic.NamespacesAreDisjoint | internal/ads/dynamic_bidding.go:378-378 | bids of different bidders never share an ID |
| Dynamic.SanitizeDynamicBids | internal/ads/dynamic_bidding.go:368-384 | the loop returns the cleaned bids that pass, in order |
| Dynamic.CleanedInFields | internal/ads/dynamic_bidding.go:371-378 | a cleaned bid keeps price, floor, targets, window, creative and placement; revision, priority and deal are gone, an omitted pacing is full, the ID has the bidder's prefix |
| Dynamic.KeptIff | internal/ads/dynamic_bidding.go:370-381 | exactly which bids of a DSP stay, by their own fields |
| Dynamic.SanitizedAppend | internal/ads/dynamic_bidding.go:369-384 | each bid is treated alone and keeps its place |
| Dynamic.SanitizerOutput | internal/ads/dynamic_bidding.go:368-384 | exactly the passing bids come out: valid, of the placement, in the bidder's namespace, without revision, deal and priority |
| Dynamic.Merge | internal/ads/dynamic_bidding.go:338-349 | the bids of the successful results, in the order of their arrival; the long lifetime exactly if some call succeeded |
| Dynamic.MergedOffers | internal/ads/dynamic_bidding.go:338-345 | the merged list holds the offers of the successful results and no others |
| Dynamic.MergedAppend | internal/ads/dynamic_bidding.go:340-345 | results follow one another in the merged list |
| Dynamic.DealIsolation | internal/ads/dynamic_bidding.go:373-374 | when a deal wins among the Redis bids, DSP offers change neither winner nor any price |
| Dynamic.DynamicWinMeansNoDeal | internal/ads/dynamic_bidding.go:373-374 | a DSP offer wins only when no deal in Redis qualifies |
| EndToEnd.LiveIsCurrent | internal/ads/store.go:89-117 | the active hash holds exactly the bids whose last writer, over the whole history, is their upsert |
| EndToEnd.SettledAuction | internal/ads/auction.go:48-78 | an auction over a settled snapshot fills exactly when some current bid qualifies, with one that no other outranks |
| EndToEnd.CurrentIffHighest | internal/ads/store.go:89-117 | with revisions up to 2^53, one operation for each, a bid is current exactly when it was written and no write or delete of its key has a higher revision; deletes are strictly lower |
| EndToEnd.WholePath | internal/ads/cache.go:91-159 | over every run: after the last mutation and one completed pass, every auction picks the best of exactly the current bids |
| EndToEnd.WholePathByRevision | internal/ads/cache.go:91-159 | the same by revisions and fields: it picks the best of exactly the bids that may serve and whose highest revision is no delete |
| EndToEnd.CurrentBidsAreFound | internal/ads/cache.go:91-106 | after that, a placement with a current bid is never answered as unknown |
| EndToEnd.SnapshotFastPath | internal/ads/cache.go:154-157 | on every published snapshot the first qualified bid wins and the next one sets the price |
| EndToEnd.WinnerIsForAKeyMate | internal/ads/dynamic_bidding.go:252-287 | for every run of the engine beside every run of the snapshot cache: a winner is for the requested placement, or for that of a triggered request with the same canonical form |
| EndToEnd.WinnerIsForThePlacement | internal/ads/dynamic_bidding.go:252-287 | if no triggered request and not this one has 0x1f in country or device, a winner is for the requested placement |

## Left out

- HTTP handlers, JSON, tokens, configuration from the environment, metrics and the decision log: plumbing with no property that spans operations.
- `http_bidder.go`: an adapter answers any list of bids or an error.
- Redis itself: one linearizable store is assumed. Lost writes on promotion, the layout of its key names and the delivery of Pub/Sub messages are not modelled; an invalidation can be lost, late or repeated.
- The algorithm of the library sort: `Snapshots.SortBids` is an insertion sort, and `Snapshots.ListingIsUnique` shows that any sort by the same comparison gives the same list.
- Normalize as an update in place: it is a function from bid to bid, applied in place to the array in `Cache.BidCache.Publish`; aliasing of a bid by several pointers is not captured.
- Upsert and Delete as concurrent calls: the class runs one call at a time with other clients only before a retried script. `CacheProtocol` interleaves index updates and scripts of any number of clients.
- Time arithmetic in int64 nanoseconds: times are integers without bounds.
- Real goroutines, locks and timeouts: each mutex section, channel operation and map call is one step; a timeout is an adapter error, and a call is assumed to return.
- Eviction inside the engine's step system: it keeps the last accepted entry of each key, which `DynamicCache` proves to be what the bounded cache answers.
- `NewBidderEngine`: its defaults and its refusal of repeated bidder IDs are flat checks.
