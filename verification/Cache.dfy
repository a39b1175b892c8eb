/** The local snapshot cache (cache.go), one call at a time. `CacheProtocol` interleaves the calls. */
module Cache {
  import opened Types
  import opened Registry
  import opened Snapshots
  import opened Store

  datatype BidList = BidList(bids: seq<Bid>, refreshedAt: int)

  datatype StaleAction = ServeStale | NoBidOnStale | OtherAction

  /** Durations are in nanoseconds. */
  datatype CachePolicy = CachePolicy(refreshEvery: int, maxSnapshotAge: int, staleAction: StaleAction)
  {
    predicate Valid() {
      refreshEvery > 0 && maxSnapshotAge > 0 && !staleAction.OtherAction?
    }
  }

  const SECOND: int := 1_000_000_000

  function DefaultPolicy(refreshEvery: int): (p: CachePolicy)
    ensures p.Valid() && p.staleAction.ServeStale? && p.maxSnapshotAge == 2 * p.refreshEvery
  {
    var every := if refreshEvery <= 0 then 30 * SECOND else refreshEvery;
    CachePolicy(every, 2 * every, ServeStale)
  }

  /** What an auction at time `now` is told about a published list. */
  function StateOf(list: BidList, policy: CachePolicy, now: int): SnapshotState {
    var stale := now - list.refreshedAt > policy.maxSnapshotAge;
    SnapshotState(true, stale, stale && policy.staleAction.NoBidOnStale?, now - list.refreshedAt)
  }

  function NormalizeAll(bids: seq<Bid>): seq<Bid> {
    seq(|bids|, i requires 0 <= i < |bids| => Normalize(bids[i]))
  }

  lemma FetchIsNormal(s: State, placement: Text)
    requires Agreement(s)
    ensures NormalizeAll(FetchOf(s, placement)) == FetchOf(s, placement)
    ensures IsListing(FetchOf(s, placement), Live(s, placement))
  {
    FetchListsLiveBids(s, placement);
    hide FetchOf;
    var bids := FetchOf(s, placement);
    assert forall i :: 0 <= i < |bids| ==> bids[i] in bids;
  }

  /** Sorting a listing again changes nothing. */
  lemma ListingIsFixed(bids: seq<Bid>, sorted: seq<Bid>, content: set<Bid>)
    requires IsListing(bids, content) && Ordered(sorted) && multiset(sorted) == multiset(bids)
    ensures sorted == bids
  {
    SortedIsListing(bids, sorted, content);
    ListingIsUnique(bids, sorted, content);
  }

  class BidCache {
    const policy: CachePolicy
    var entries: map<Text, BidList>
    var inflight: set<Text>

    constructor (policy: CachePolicy)
      ensures entries == map[] && inflight == {}
      ensures this.policy.Valid()
      ensures policy.Valid() ==> this.policy == policy
      ensures !policy.Valid() ==> this.policy == CachePolicy(30 * SECOND, 60 * SECOND, ServeStale)
    {
      this.policy := if policy.Valid() then policy else DefaultPolicy(30 * SECOND);
      entries, inflight := map[], {};
    }

    method Get(placement: Text, now: int) returns (bids: seq<Bid>, state: SnapshotState)
      ensures placement !in entries ==> bids == [] && state == SnapshotState(false, false, false, 0)
      ensures placement in entries ==>
                && bids == entries[placement].bids
                && state.found
                && state.age == now - entries[placement].refreshedAt
                && (state.stale <==> state.age > policy.maxSnapshotAge)
                && (state.rejectStale <==> state.stale && policy.staleAction == NoBidOnStale)
      ensures placement in entries ==> state == StateOf(entries[placement], policy, now)
    {
      if placement !in entries {
        return [], SnapshotState(false, false, false, 0);
      }
      var list := entries[placement];
      return list.bids, StateOf(list, policy, now);
    }

    /** RefreshAsync up to the start of its goroutine: at most one per placement. */
    method Claim(placement: Text) returns (started: bool)
      modifies this`inflight
      ensures started <==> placement != [] && placement !in old(inflight)
      ensures inflight == if started then old(inflight) + {placement} else old(inflight)
    {
      if placement == [] || placement in inflight {
        return false;
      }
      inflight := inflight + {placement};
      return true;
    }

    /** The second half of refresh: normalize in place, sort in place, swap the pointer. */
    method Publish(placement: Text, list: array<Bid>, now: int)
      modifies this`entries, list
      ensures placement in entries && entries == old(entries)[placement := BidList(list[..], now)]
      ensures Ordered(list[..]) && multiset(list[..]) == multiset(NormalizeAll(old(list[..])))
    {
      ghost var fetched := list[..];
      for i := 0 to list.Length
        invariant entries == old(entries)
        invariant forall k :: 0 <= k < i ==> list[k] == Normalize(fetched[k])
        invariant forall k :: i <= k < list.Length ==> list[k] == fetched[k]
      {
        list[i] := Normalize(list[i]);
      }
      assert list[..] == NormalizeAll(fetched);
      SortBids(list);
      entries := entries[placement := BidList(list[..], now)];
    }

    /** Fetch, then publish. On a failed fetch the old list stays. */
    method Refresh(store: RedisStore, placement: Text, tries: Tries, now: int) returns (ok: bool)
      requires Agreement(store.View())
      modifies this`entries
      ensures ok == tries.Succeeds(store.cluster)
      ensures entries == if ok then old(entries)[placement := BidList(FetchOf(store.View(), placement), now)]
                         else old(entries)
    {
      hide FetchOf;
      hide Agreement;
      hide IsListing;
      hide Normalize;
      var result := store.Fetch(placement, tries);
      if result.None? {
        return false;
      }
      var bids := result.value;
      var list := new Bid[|bids|](i requires 0 <= i < |bids| => bids[i]);
      assert list[..] == bids;
      FetchIsNormal(store.View(), placement);
      Publish(placement, list, now);
      ListingIsFixed(bids, list[..], Live(store.View(), placement));
      return true;
    }

    /**
    One pass over the index. Success leaves every indexed placement with the
    registry's own list; a failure stops the pass and leaves the rest alone.
    */
    method Reconcile(store: RedisStore, index: Tries, net: Text -> Tries, now: int) returns (ok: bool)
      requires Agreement(store.View())
      modifies this`entries
      ensures ok <==>
                index.Succeeds(store.cluster) && forall p :: p in store.placements ==> net(p).Succeeds(store.cluster)
      ensures ok ==> forall p :: p in store.placements ==>
                p in entries && entries[p] == BidList(FetchOf(store.View(), p), now)
      ensures forall p :: p in entries && !(p in old(entries) && entries[p] == old(entries)[p]) ==>
                p in store.placements && entries[p] == BidList(FetchOf(store.View(), p), now)
      ensures old(entries).Keys <= entries.Keys
    {
      var placements := store.Placements(index);
      if placements.None? {
        return false;
      }
      for i := 0 to |placements.value|
        invariant forall k :: 0 <= k < i ==> net(placements.value[k]).Succeeds(store.cluster)
        invariant forall k :: 0 <= k < i ==>
                    var p := placements.value[k]; p in entries && entries[p] == BidList(FetchOf(store.View(), p), now)
        invariant forall p :: p in entries && !(p in old(entries) && entries[p] == old(entries)[p]) ==>
                    p in store.placements && entries[p] == BidList(FetchOf(store.View(), p), now)
        invariant old(entries).Keys <= entries.Keys
      {
        var p := placements.value[i];
        assert p in store.placements;
        var refreshed := Refresh(store, p, net(p), now);
        if !refreshed {
          return false;
        }
      }
      return true;
    }
  }
}
