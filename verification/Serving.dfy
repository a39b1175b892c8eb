/** One request served from the local cache: run in auction.go with the Get and RefreshAsync that it calls. */
module Serving {
  import opened Types
  import opened Auction
  import opened Cache

  /** The list has passed the age limit. */
  predicate TooOld(list: BidList, policy: CachePolicy, clock: int) {
    clock - list.refreshedAt > policy.maxSnapshotAge
  }

  /** The clock of the cache runs in nanoseconds; `nowUnix` is the auction's own reading in seconds. */
  method Serve(cache: BidCache, policy: AuctionPolicy, request: AuctionRequest, dynamic: seq<DynamicBid>, clock: int,
               nowUnix: Int64)
    returns (d: Decision)
    modifies cache`inflight
    ensures request.placementId !in cache.entries ==> d == NO_DECISION.(noBidReason := ColdCache)
    ensures request.placementId in cache.entries ==>
              var list := cache.entries[request.placementId];
              && (d.noBidReason == StaleSnapshot <==>
                    TooOld(list, cache.policy, clock) && cache.policy.staleAction == NoBidOnStale)
              && (d.noBidReason == StaleSnapshot ==> d.bid == None)
              && d.noBidReason != ColdCache
              && d.snapshotAge == clock - list.refreshedAt
              && (d.noBidReason != StaleSnapshot ==> d.servedStale == TooOld(list, cache.policy, clock))
              && (d.noBidReason != StaleSnapshot && policy.Valid() && request.floorMicros >= 0
                  && AllPriceable(list.bids, dynamic) ==>
                    RightDecision(d, policy, list.bids, dynamic, request, nowUnix))
    // a refresh is asked for exactly when there is no list or it is too old, and starts when none is in flight
    ensures cache.inflight
         == if request.placementId != []
               && (request.placementId !in cache.entries
                   || TooOld(cache.entries[request.placementId], cache.policy, clock))
            then old(cache.inflight) + {request.placementId}
            else old(cache.inflight)
  {
    hide RightDecision;
    hide AllPriceable;
    hide StateOf;
    var bids, snapshot := cache.Get(request.placementId, clock);
    var refresh;
    d, refresh := Run(policy, request, bids, snapshot, dynamic, nowUnix);
    if refresh {
      var _ := cache.Claim(request.placementId);
    }
  }
}
