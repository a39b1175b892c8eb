/**
From the scripts that Redis ran to the ad that is served: once mutations have
stopped and a reconcile pass has gone through, every auction picks the best of
exactly the bids whose last accepted operation is an upsert.
*/
module EndToEnd {
  import opened Types
  import opened LuaNumbers
  import opened Pricing
  import opened Registry
  import opened Snapshots
  import opened Store
  import opened Auction
  import opened Economics
  import opened CacheProtocol
  import opened Dynamic
  import opened DynamicCache
  import Engine
  import EngineRuns

  /** The last writer of the bid's key, among all scripts that ran, is the upsert of this very bid. */
  ghost predicate Current(log: seq<Op>, b: Bid) {
    exists i: nat :: LastWriter(log, Key(b.placementId, b.id), i) && log[i] == Put(b)
  }

  lemma LastWriterUnique(log: seq<Op>, k: Key, i: nat, j: nat)
    requires LastWriter(log, k, i) && LastWriter(log, k, j)
    ensures i == j
  {
    hide Double;
  }

  /** The active hash of a placement holds exactly its current bids. */
  lemma LiveIsCurrent(s: Sys, placement: Text, b: Bid)
    requires RegistryInv(s)
    ensures b in Live(Now(s), placement) <==> b.placementId == placement && Current(s.log, b)
  {
    hide Double;
    hide Play;
    hide WriterOf;
    hide Valid;
    var k := Key(b.placementId, b.id);
    LastWriterWins(s.log, k);
    assert Agreement(Now(s));
    if b in Live(Now(s), placement) {
      var k' :| k' in Now(s).active && k'.placement == placement && Now(s).active[k'] == b;
      assert k' == k;
      var i := WriterOf(s.log, k).value;
      assert LastWriter(s.log, k, i) && s.log[i] == Put(b);
    }
    if b.placementId == placement && Current(s.log, b) {
      var i: nat :| LastWriter(s.log, k, i) && s.log[i] == Put(b);
      assert s.log[i] in s.log;
      LastWriterUnique(s.log, k, i, WriterOf(s.log, k).value);
    }
  }

  /** A bid of the placement that a request may be served. */
  ghost predicate Candidate(s: Sys, request: AuctionRequest, now: Int64, b: Bid) {
    b.placementId == request.placementId && Current(s.log, b) && Qualifies(Priced(b, []), request, now)
  }

  lemma SettledOffers(s: Sys, request: AuctionRequest, b: Bid)
    requires RegistryInv(s) && request.placementId in s.snapshots && Settled(s, request.placementId)
    ensures b in s.snapshots[request.placementId].bids <==> b.placementId == request.placementId && Current(s.log, b)
  {
    assert Agreement(Now(s));
    FetchListsLiveBids(Now(s), request.placementId);
    LiveIsCurrent(s, request.placementId, b);
  }

  /** An auction over a settled snapshot: the winner is a candidate that no other candidate outranks. */
  lemma SettledAuction(s: Sys, policy: AuctionPolicy, request: AuctionRequest, now: Int64, d: Decision, t: Tally)
    requires RegistryInv(s) && request.placementId in s.snapshots && Settled(s, request.placementId)
    requires request.floorMicros >= 0
    requires Answers(d, policy, Offers(s.snapshots[request.placementId].bids, []), request, now, t)
    ensures d.bid.Some? <==> exists b :: Candidate(s, request, now, b)
    ensures d.bid.Some? ==>
              && Candidate(s, request, now, d.bid.value)
              && forall b :: Candidate(s, request, now, b) ==> !Outranks(Priced(b, []), Priced(d.bid.value, []))
  {
    hide EffectivePrice;
    hide RanksAhead;
    hide Eligible;
    hide FetchOf;
    hide RegistryInv;
    var bids := s.snapshots[request.placementId].bids;
    var offers := Offers(bids, []);
    assert offers == StaticOffers(bids);
    FillsWhenSomeoneQualifies(offers, request, now, t);
    forall b
      ensures Candidate(s, request, now, b) <==> Priced(b, []) in offers && Qualifies(Priced(b, []), request, now)
    {
      SettledOffers(s, request, b);
      if b in bids {
        var i :| 0 <= i < |bids| && bids[i] == b;
        assert offers[i] == Priced(b, []);
      }
    }
    if t.winner.Some? {
      var k: nat :| TallyAt(offers, request, now, t, k);
      TallyFacts(offers, request, now, t, k);
      assert offers[k] == Priced(bids[k], []);
    }
  }

  /** The documented rule: revisions up to 2^53, each used for one operation per bid. */
  ghost predicate DocumentedRevisions(log: seq<Op>) {
    && (forall a :: a in log ==> Rev(a) <= EXACT_LIMIT)
    && (forall a, a' :: a in log && a' in log && KeyOf(a) == KeyOf(a') && Rev(a) == Rev(a') ==> a == a')
  }

  /** The bid was written, and no write or delete of its key has a higher revision. */
  ghost predicate HighestRevision(log: seq<Op>, b: Bid) {
    Put(b) in log && forall op :: op in log && KeyOf(op) == Key(b.placementId, b.id) ==> Rev(op) <= b.revision
  }

  lemma LastWriterIsHighest(log: seq<Op>, k: Key, i: nat, op: Op)
    requires DocumentedRevisions(log) && LastWriter(log, k, i) && op in log && KeyOf(op) == k
    ensures Rev(op) <= Rev(log[i])
  {
    hide Double;
    var j: nat :| j < |log| && log[j] == op;
    assert log[i] in log;
    DoubleExact(Rev(op));
    DoubleExact(Rev(log[i]));
    assert Rank(log[j]) <= Rank(log[i]);
  }

  /** Under the rule the current bids are those of the highest revision that is not a delete. */
  lemma CurrentIffHighest(log: seq<Op>, b: Bid)
    requires DocumentedRevisions(log)
    ensures Current(log, b) <==> HighestRevision(log, b)
    ensures HighestRevision(log, b) ==>
              forall op :: op in log && KeyOf(op) == Key(b.placementId, b.id) && op.Remove? ==> Rev(op) < b.revision
  {
    hide Double;
    var k := Key(b.placementId, b.id);
    if Current(log, b) {
      var i: nat :| LastWriter(log, k, i) && log[i] == Put(b);
      assert log[i] in log;
      forall op | op in log && KeyOf(op) == k
        ensures Rev(op) <= b.revision
      {
        LastWriterIsHighest(log, k, i, op);
      }
    }
    if HighestRevision(log, b) {
      WriterIsLast(log, k);
      assert KeyOf(Put(b)) == k;
      var i := WriterOf(log, k).value;
      assert LastWriter(log, k, i) && log[i] in log;
      LastWriterIsHighest(log, k, i, Put(b));
      assert log[i] == Put(b);
    }
  }

  /**
  The whole path, over every run: client writes in any order and with any
  retries, lost and repeated invalidations, concurrent refreshes and passes.
  */
  lemma WholePath(states: seq<Sys>, acts: seq<Action>, start: nat, finish: nat, k: nat,
                  policy: AuctionPolicy, request: AuctionRequest, now: Int64, d: Decision, t: Tally)
    requires IsRun(states, acts) && states[0] == INIT && start < finish < k < |states|
    requires forall i :: start <= i < |acts| ==> Quiet(acts[i])
    requires acts[start].StartPass? && acts[finish] == FinishPass(acts[start].worker)
    requires states[start].history != [] && Drained(states[start])
    requires request.floorMicros >= 0 && request.placementId in states[k].snapshots
    requires Answers(d, policy, Offers(states[k].snapshots[request.placementId].bids, []), request, now, t)
    ensures d.bid.Some? <==> exists b :: Candidate(states[k], request, now, b)
    ensures d.bid.Some? ==>
              && Candidate(states[k], request, now, d.bid.value)
              && forall b :: Candidate(states[k], request, now, b) ==> !Outranks(Priced(b, []), Priced(d.bid.value, []))
  {
    hide Answers;
    hide Candidate;
    hide Outranks;
    InvHolds(states, acts, k);
    Convergence(states, acts, start, finish, k);
    hide RegistryInv;
    hide Settled;
    hide Drained;
    SettledAuction(states[k], policy, request, now, d, t);
  }

  /** A bid of the placement that the request may be served, by its revision and its fields. */
  ghost predicate Contender(log: seq<Op>, request: AuctionRequest, now: Int64, b: Bid) {
    b.placementId == request.placementId && HighestRevision(log, b) && MayServe(b, request, now)
  }

  lemma LoggedIsPriceable(s: Sys, b: Bid)
    requires RegistryInv(s) && Put(b) in s.log
    ensures Priceable(b)
  {
    hide Agreement;
    hide SameRows;
    assert WellFormed(Put(b));
  }

  lemma CandidateIffContender(s: Sys, request: AuctionRequest, now: Int64, b: Bid)
    requires RegistryInv(s) && DocumentedRevisions(s.log)
    ensures Candidate(s, request, now, b) <==> Contender(s.log, request, now, b)
    ensures Candidate(s, request, now, b) ==> Priceable(b)
  {
    CurrentIffHighest(s.log, b);
    if HighestRevision(s.log, b) {
      LoggedIsPriceable(s, b);
      BidsInFields(b, b, request, now);
    }
    hide Current;
    hide Qualifies;
    hide MayServe;
    hide RegistryInv;
  }

  /**
  The same path under the documented rule and in the fields of the bids: the
  best of exactly the bids of the highest revision that is no delete.
  */
  lemma WholePathByRevision(states: seq<Sys>, acts: seq<Action>, start: nat, finish: nat, k: nat,
                            policy: AuctionPolicy, request: AuctionRequest, now: Int64, d: Decision, t: Tally)
    requires IsRun(states, acts) && states[0] == INIT && start < finish < k < |states|
    requires forall i :: start <= i < |acts| ==> Quiet(acts[i])
    requires acts[start].StartPass? && acts[finish] == FinishPass(acts[start].worker)
    requires states[start].history != [] && Drained(states[start])
    requires request.floorMicros >= 0 && request.placementId in states[k].snapshots
    requires Answers(d, policy, Offers(states[k].snapshots[request.placementId].bids, []), request, now, t)
    requires DocumentedRevisions(states[k].log)
    ensures d.bid.Some? <==> exists b :: Contender(states[k].log, request, now, b)
    ensures d.bid.Some? ==>
              && Contender(states[k].log, request, now, d.bid.value)
              && forall b :: Contender(states[k].log, request, now, b) ==> !Precedes(b, d.bid.value)
  {
    hide Answers;
    hide Outranks;
    hide Precedes;
    hide Candidate;
    hide Contender;
    hide DocumentedRevisions;
    hide Priceable;
    WholePath(states, acts, start, finish, k, policy, request, now, d, t);
    InvHolds(states, acts, k);
    hide Do;
    hide Enabled;
    hide Drained;
    hide RegistryInv;
    forall b
      ensures Contender(states[k].log, request, now, b) <==> Candidate(states[k], request, now, b)
      ensures Candidate(states[k], request, now, b) ==> Priceable(b)
    {
      CandidateIffContender(states[k], request, now, b);
    }
    if d.bid.Some? {
      forall b | Contender(states[k].log, request, now, b)
        ensures !Precedes(b, d.bid.value)
      {
        BidsInFields(b, d.bid.value, request, now);
      }
    }
  }

  /** A placement with a current bid is never answered as unknown after that. */
  lemma CurrentBidsAreFound(states: seq<Sys>, acts: seq<Action>, start: nat, finish: nat, k: nat, b: Bid)
    requires IsRun(states, acts) && states[0] == INIT && start < finish < k < |states|
    requires forall i :: start <= i < |acts| ==> Quiet(acts[i])
    requires acts[start].StartPass? && acts[finish] == FinishPass(acts[start].worker)
    requires states[start].history != [] && Drained(states[start])
    requires Current(states[k].log, b)
    ensures b.placementId in states[k].snapshots
  {
    InvHolds(states, acts, k);
    Convergence(states, acts, start, finish, k);
    LiveIsCurrent(states[k], b.placementId, b);
    assert Agreement(Now(states[k]));
  }

  /** Snapshots are sorted by the auction's own rank: the first qualified bid wins, the next one sets the price. */
  lemma SnapshotFastPath(s: Sys, placement: Text, request: AuctionRequest, now: Int64, t: Tally, first: nat, next: nat)
    requires Inv(s) && placement in s.snapshots && request.floorMicros >= 0
    requires var offers := StaticOffers(s.snapshots[placement].bids);
             && IsTally(offers, request, now, t)
             && FirstFrom(offers, request, now, 0, first)
             && (first < |offers| ==> FirstFrom(offers, request, now, first + 1, next))
    ensures var offers := StaticOffers(s.snapshots[placement].bids);
            && t.winner == (if first < |offers| then Some(offers[first]) else None)
            && (first < |offers| ==>
                  t.runnerUpPrice == if next < |offers| && offers[next].bid.priority == offers[first].bid.priority
                                     then offers[next].price else 0)
  {
    hide EffectivePrice;
    hide SortsBefore;
    hide IsTally;
    hide FirstFrom;
    var snap := s.snapshots[placement];
    var offers := StaticOffers(snap.bids);
    assert Genuine(s, placement, snap.bids, snap.fetchedAt);
    FetchListsLiveBids(s.history[snap.fetchedAt], placement);
    forall i, j | 0 <= i < j < |offers|
      ensures !Outranks(offers[j], offers[i])
    {
      SortsBeforeIsRank(snap.bids[j], snap.bids[i]);
    }
    SortedFastPath(offers, request, now, t, first, next);
  }

  // ---------------------------------------------------------------------------
  // With the bids of the DSP engine
  // ---------------------------------------------------------------------------

  /** What an auction gets from the engine's cache. */
  function Cached(s: Engine.Sys, request: AuctionRequest, clock: int): seq<DynamicBid> {
    var found := Lookup(s.cache, CacheKey(request), clock);
    if found.Some? then found.value else []
  }

  /** The bids of a snapshot are all of its placement. */
  lemma SnapshotIsOfThePlacement(states: seq<Sys>, acts: seq<Action>, k: nat, placement: Text)
    requires IsRun(states, acts) && states[0] == INIT && k < |states| && placement in states[k].snapshots
    ensures forall b :: b in states[k].snapshots[placement].bids ==> b.placementId == placement
  {
    hide FetchOf;
    InvHolds(states, acts, k);
    var snap := states[k].snapshots[placement];
    assert Genuine(states[k], placement, snap.bids, snap.fetchedAt);
    FetchListsLiveBids(states[k].history[snap.fetchedAt], placement);
  }

  /**
  Any run of the engine beside any run of the snapshot cache: a winner is for
  the requested placement, or for that of a triggered request that the cache key
  does not tell apart.
  */
  lemma WinnerIsForAKeyMate(c: Engine.Config, engine: seq<Engine.Sys>, steps: seq<Engine.Action>, e: nat,
                            states: seq<Sys>, acts: seq<Action>, k: nat,
                            request: AuctionRequest, clock: int, now: Int64, t: Tally)
    requires c.Valid() && Engine.IsRun(c, engine, steps) && engine[0] == Engine.Init(c) && e < |engine|
    requires IsRun(states, acts) && states[0] == INIT && k < |states| && request.placementId in states[k].snapshots
    requires IsTally(Offers(states[k].snapshots[request.placementId].bids,
                           Cached(engine[e], request, clock)), request, now, t)
    ensures t.winner.Some? && t.winner.value.bid.placementId != request.placementId ==>
              exists r :: r in EngineRuns.Asked(steps, |steps|)
                          && t.winner.value.bid.placementId == r.placementId
                          && SameTargeting(Canonical(r), Canonical(request))
  {
    hide CacheKey;
    hide Canonical;
    hide ValidDynamic;
    SnapshotIsOfThePlacement(states, acts, k, request.placementId);
    hide Engine.Do;
    hide Engine.Enabled;
    hide Do;
    hide Enabled;
    var bids, dynamic := states[k].snapshots[request.placementId].bids, Cached(engine[e], request, clock);
    if t.winner.Some? {
      var i: nat :| TallyAt(Offers(bids, dynamic), request, now, t, i);
      if i < |bids| {
        assert bids[i] in bids;
      } else {
        var r := EngineRuns.EntriesAreClean(c, engine, steps, e, CacheKey(request));
        KeysAgreeIff(r, request);
        assert dynamic[i - |bids|] in dynamic;
      }
    }
  }

  /**
  Without 0x1f in country and device, of this request and of the triggered ones,
  it is always the requested placement.
  */
  lemma WinnerIsForThePlacement(c: Engine.Config, engine: seq<Engine.Sys>, steps: seq<Engine.Action>, e: nat,
                                states: seq<Sys>, acts: seq<Action>, k: nat,
                                request: AuctionRequest, clock: int, now: Int64, t: Tally)
    requires c.Valid() && Engine.IsRun(c, engine, steps) && engine[0] == Engine.Init(c) && e < |engine|
    requires IsRun(states, acts) && states[0] == INIT && k < |states| && request.placementId in states[k].snapshots
    requires IsTally(Offers(states[k].snapshots[request.placementId].bids,
                           Cached(engine[e], request, clock)), request, now, t)
    requires Separable(request) && forall i :: 0 <= i < |steps| && steps[i].Check? ==> Separable(steps[i].request)
    ensures t.winner.Some? ==> t.winner.value.bid.placementId == request.placementId
  {
    hide Canonical;
    hide IsTally;
    hide Cached;
    hide Engine.Do;
    hide Engine.Enabled;
    hide Do;
    hide Enabled;
    WinnerIsForAKeyMate(c, engine, steps, e, states, acts, k, request, clock, now, t);
    if t.winner.Some? && t.winner.value.bid.placementId != request.placementId {
      var r :| r in EngineRuns.Asked(steps, |steps|) && t.winner.value.bid.placementId == r.placementId
               && SameTargeting(Canonical(r), Canonical(request));
      SeparableIffCanonical(r);
      SeparableIffCanonical(request);
    }
  }
}
