/**
One auction (auction.go): a single pass over the bids that keeps a winner, a
runner-up price that is reset when the priority changes, and a count.

`IsTally` says what the pass must find without mentioning the pass.
*/
module Auction {
  import opened Types
  import opened Pricing

  datatype DynamicBid = DynamicBid(bid: Bid, bidderId: Text)

  /** A bid as the auction sees it, with its price; a Redis bid has the empty bidder ID. */
  datatype Offer = Offer(bid: Bid, bidderId: Text, price: Int64)

  function Priced(bid: Bid, bidderId: Text): Offer {
    Offer(bid, bidderId, EffectivePrice(bid))
  }

  predicate Qualifies(o: Offer, request: AuctionRequest, now: Int64) {
    Eligible(o.bid, request, now, o.price)
  }

  predicate Outranks(a: Offer, b: Offer) {
    RanksAhead(a.bid, a.price, b.bid, b.price)
  }

  // ---------------------------------------------------------------------------
  // What an auction must find
  // ---------------------------------------------------------------------------

  datatype Tally = Tally(winner: Option<Offer>, winnerPrice: Int64, runnerUpPrice: Int64, candidates: nat)

  function CountQualified(offers: seq<Offer>, request: AuctionRequest, now: Int64): (n: nat)
  {
    if offers == [] then 0
    else CountQualified(offers[..|offers| - 1], request, now)
         + (if Qualifies(offers[|offers| - 1], request, now) then 1 else 0)
  }

  /** The offer at k qualifies, nothing qualified outranks it, and it is the first of its rank. */
  ghost predicate WinsAt(offers: seq<Offer>, request: AuctionRequest, now: Int64, k: nat) {
    && k < |offers|
    && Qualifies(offers[k], request, now)
    && (forall i :: 0 <= i < k && Qualifies(offers[i], request, now) ==> Outranks(offers[k], offers[i]))
    && (forall i :: k < i < |offers| && Qualifies(offers[i], request, now) ==> !Outranks(offers[i], offers[k]))
  }

  /** The offer at i competes on price with the winner at k. */
  predicate Rivals(offers: seq<Offer>, request: AuctionRequest, now: Int64, k: nat, i: nat)
    requires k < |offers| && i < |offers|
  {
    i != k && Qualifies(offers[i], request, now) && offers[i].bid.priority == offers[k].bid.priority
  }

  /** r is the highest price among the winner's rivals; 0 when there is none. */
  ghost predicate RunnerUpAt(offers: seq<Offer>, request: AuctionRequest, now: Int64, k: nat, r: Int64)
    requires k < |offers|
  {
    && (forall i: nat :: i < |offers| && Rivals(offers, request, now, k, i) ==> offers[i].price <= r)
    && (r == 0 || exists i: nat :: i < |offers| && Rivals(offers, request, now, k, i) && offers[i].price == r)
  }

  ghost predicate TallyAt(offers: seq<Offer>, request: AuctionRequest, now: Int64, t: Tally, k: nat) {
    && WinsAt(offers, request, now, k)
    && t.winner == Some(offers[k])
    && t.winnerPrice == offers[k].price
    && RunnerUpAt(offers, request, now, k, t.runnerUpPrice)
  }

  ghost predicate IsTally(offers: seq<Offer>, request: AuctionRequest, now: Int64, t: Tally) {
    && t.candidates == CountQualified(offers, request, now)
    && match t.winner {
         case None =>
           && t.winnerPrice == t.runnerUpPrice == 0
           && forall i :: 0 <= i < |offers| ==> !Qualifies(offers[i], request, now)
         case Some(_) => exists k: nat :: TallyAt(offers, request, now, t, k)
       }
  }

  // ---------------------------------------------------------------------------
  // The pass
  // ---------------------------------------------------------------------------

  class Accumulator {
    const request: AuctionRequest
    const nowUnix: Int64
    var winner: Option<Bid>
    var winnerPrice: Int64
    var runnerUpPrice: Int64
    var candidates: nat
    var winnerBidderId: Text

    function Result(): Tally
      reads this
    {
      Tally(if winner.Some? then Some(Offer(winner.value, winnerBidderId, winnerPrice)) else None,
            winnerPrice, runnerUpPrice, candidates)
    }

    constructor (request: AuctionRequest, nowUnix: Int64)
      ensures this.request == request && this.nowUnix == nowUnix
      ensures IsTally([], request, nowUnix, Result())
    {
      this.request, this.nowUnix := request, nowUnix;
      winner, winnerPrice, runnerUpPrice, candidates, winnerBidderId := None, 0, 0, 0, [];
    }

    /** Whatever was considered before, the tally is right again with one more offer. */
    method Consider(bid: Bid, bidderId: Text, ghost seen: seq<Offer>)
      requires IsTally(seen, request, nowUnix, Result())
      modifies this
      ensures IsTally(seen + [Priced(bid, bidderId)], request, nowUnix, Result())
    {
      ghost var before := Result();
      var price := EffectivePrice(bid);
      if !Eligible(bid, request, nowUnix, price) {
        UnqualifiedChangesNothing(seen, Priced(bid, bidderId), request, nowUnix, before);
        return;
      }
      candidates := candidates + 1;
      if winner.None? || RanksAhead(bid, price, winner.value, winnerPrice) {
        if winner.Some? && bid.priority == winner.value.priority {
          runnerUpPrice := winnerPrice;
        } else {
          runnerUpPrice := 0;
        }
        winner, winnerPrice, winnerBidderId := Some(bid), price, bidderId;
        NewLeader(seen, Priced(bid, bidderId), request, nowUnix, before, Result());
        return;
      }
      if bid.priority == winner.value.priority && price > runnerUpPrice {
        runnerUpPrice := price;
      }
      OldLeader(seen, Priced(bid, bidderId), request, nowUnix, before, Result());
    }
  }

  lemma UnqualifiedChangesNothing(seen: seq<Offer>, o: Offer, request: AuctionRequest, now: Int64, t: Tally)
    requires IsTally(seen, request, now, t) && !Qualifies(o, request, now)
    ensures IsTally(seen + [o], request, now, t)
  {
    var all := seen + [o];
    assert all[..|all| - 1] == seen;
    if t.winner.Some? {
      var k: nat :| TallyAt(seen, request, now, t, k);
      assert forall i: nat :: i < |seen| ==> (Rivals(all, request, now, k, i) <==> Rivals(seen, request, now, k, i));
      assert TallyAt(all, request, now, t, k);
    }
  }

  lemma NewLeader(seen: seq<Offer>, o: Offer, request: AuctionRequest, now: Int64, t: Tally, t': Tally)
    requires IsTally(seen, request, now, t) && Qualifies(o, request, now)
    requires t.winner.Some? ==> Outranks(o, t.winner.value)
    requires t'.winner == Some(o) && t'.winnerPrice == o.price && t'.candidates == t.candidates + 1
    requires t'.runnerUpPrice == if t.winner.Some? && o.bid.priority == t.winner.value.bid.priority
                                 then t.winnerPrice else 0
    ensures IsTally(seen + [o], request, now, t')
  {
    hide EffectivePrice;
    hide Eligible;
    var all, n := seen + [o], |seen|;
    assert all[..|all| - 1] == seen;
    if t.winner.Some? {
      var k: nat :| TallyAt(seen, request, now, t, k);
      forall i | 0 <= i < n && Qualifies(all[i], request, now)
        ensures Outranks(o, all[i])
        ensures all[i].bid.priority == o.bid.priority ==>
                  all[k].bid.priority == o.bid.priority && all[i].price <= all[k].price
      {
        if i != k {
          RanksAheadAsymmetric(seen[k].bid, seen[k].price, seen[i].bid, seen[i].price);
          RanksAheadWeakTransitive(o.bid, o.price, seen[k].bid, seen[k].price, seen[i].bid, seen[i].price);
        }
      }
      assert o.bid.priority == seen[k].bid.priority ==> Rivals(all, request, now, n, k);
    }
    assert TallyAt(all, request, now, t', n);
  }

  lemma OldLeader(seen: seq<Offer>, o: Offer, request: AuctionRequest, now: Int64, t: Tally, t': Tally)
    requires IsTally(seen, request, now, t) && Qualifies(o, request, now)
    requires t.winner.Some? && !Outranks(o, t.winner.value)
    requires t'.winner == t.winner && t'.winnerPrice == t.winnerPrice && t'.candidates == t.candidates + 1
    requires t'.runnerUpPrice == if o.bid.priority == t.winner.value.bid.priority && o.price > t.runnerUpPrice
                                 then o.price else t.runnerUpPrice
    ensures IsTally(seen + [o], request, now, t')
  {
    hide EffectivePrice;
    hide Eligible;
    var all, n := seen + [o], |seen|;
    assert all[..|all| - 1] == seen;
    var k: nat :| TallyAt(seen, request, now, t, k);
    assert forall i: nat :: i < n ==> (Rivals(all, request, now, k, i) <==> Rivals(seen, request, now, k, i));
    if t'.runnerUpPrice != t.runnerUpPrice {
      assert Rivals(all, request, now, k, n);
    } else if t.runnerUpPrice != 0 {
      var i: nat :| i < n && Rivals(seen, request, now, k, i) && seen[i].price == t.runnerUpPrice;
      assert Rivals(all, request, now, k, i);
    }
    assert TallyAt(all, request, now, t', k);
  }

  // ---------------------------------------------------------------------------
  // Facts about one tally
  // ---------------------------------------------------------------------------

  /** Every qualified offer stays within the winner's rank; a rival also within the runner-up price. */
  lemma TallyFacts(offers: seq<Offer>, request: AuctionRequest, now: Int64, t: Tally, k: nat)
    requires TallyAt(offers, request, now, t, k) && request.floorMicros >= 0
    ensures forall i: nat :: i < |offers| && Qualifies(offers[i], request, now) ==>
              && !Outranks(offers[i], offers[k])
              && offers[i].bid.priority <= offers[k].bid.priority
              && (i != k && offers[i].bid.priority == offers[k].bid.priority ==> offers[i].price <= t.runnerUpPrice)
    ensures 0 <= t.runnerUpPrice <= t.winnerPrice
    ensures Max(request.floorMicros, offers[k].bid.floorMicros) <= t.winnerPrice
  {
    forall i: nat | i < |offers| && Qualifies(offers[i], request, now)
      ensures !Outranks(offers[i], offers[k])
    {
      RanksAheadAsymmetric(offers[k].bid, offers[k].price, offers[i].bid, offers[i].price);
    }
    assert forall i: nat | i < |offers| && i != k && Qualifies(offers[i], request, now) ::
        offers[i].bid.priority == offers[k].bid.priority ==> Rivals(offers, request, now, k, i);
  }

  // ---------------------------------------------------------------------------
  // The auction
  // ---------------------------------------------------------------------------

  datatype NoBidReason = Filled | ColdCache | StaleSnapshot | NoEligibleBid

  datatype Decision = Decision(
    bid: Option<Bid>,
    effectivePriceMicros: Int64,
    clearingPriceMicros: Int64,
    eligibleCandidates: nat,
    noBidReason: NoBidReason,
    servedStale: bool,
    snapshotAge: int,
    dynamicBidderId: Text)

  const NO_DECISION := Decision(None, 0, 0, 0, Filled, false, 0, [])

  /** The Redis snapshot first, then the cached DSP bids. */
  function Offers(bids: seq<Bid>, dynamic: seq<DynamicBid>): seq<Offer> {
    StaticOffers(bids) + DynamicOffers(dynamic)
  }

  function StaticOffers(bids: seq<Bid>): (offers: seq<Offer>)
    ensures |offers| == |bids|
    ensures forall i :: 0 <= i < |bids| ==> offers[i] == Priced(bids[i], [])
  {
    seq(|bids|, i requires 0 <= i < |bids| => Priced(bids[i], []))
  }

  function DynamicOffers(dynamic: seq<DynamicBid>): (offers: seq<Offer>)
    ensures |offers| == |dynamic|
    ensures forall i :: 0 <= i < |dynamic| ==> offers[i] == Priced(dynamic[i].bid, dynamic[i].bidderId)
  {
    seq(|dynamic|, i requires 0 <= i < |dynamic| => Priced(dynamic[i].bid, dynamic[i].bidderId))
  }

  function Charge(policy: AuctionPolicy, request: AuctionRequest, t: Tally): Int64
    requires t.winner.Some?
  {
    ClearingPrice(policy, t.winner.value.bid, t.winnerPrice, t.runnerUpPrice, request.floorMicros)
  }

  /** Which decision answers a request over a snapshot that may be served. */
  ghost predicate Answers(d: Decision, policy: AuctionPolicy, offers: seq<Offer>, request: AuctionRequest,
                          now: Int64, t: Tally)
  {
    && IsTally(offers, request, now, t)
    && d.eligibleCandidates == t.candidates
    && match t.winner {
         case None =>
           && d.bid == None
           && d.effectivePriceMicros == 0 && d.clearingPriceMicros == 0 && d.dynamicBidderId == []
           && d.noBidReason == NoEligibleBid
         case Some(w) =>
           && d.bid == Some(w.bid)
           && d.dynamicBidderId == w.bidderId
           && d.effectivePriceMicros == t.winnerPrice
           && d.clearingPriceMicros == Charge(policy, request, t)
           && d.noBidReason == Filled
       }
  }

  // ---------------------------------------------------------------------------
  // The right decision, in the fields of bids and request alone
  // ---------------------------------------------------------------------------

  /** Prices and pacings that validation lets through. */
  predicate Priceable(b: Bid) {
    b.priceMicros >= 0 && 0 <= b.pacingBps <= 10_000
  }

  /** What a bid is worth: its price at its pacing, rounded down. */
  function Worth(b: Bid): int {
    b.priceMicros * b.pacingBps / 10_000
  }

  /** The request is one that the bid asks for, at a time within its window, and the bid is worth both floors. */
  predicate MayServe(b: Bid, request: AuctionRequest, now: Int64) {
    && (b.countries == [] || request.country in b.countries)
    && (b.devices == [] || request.device in b.devices)
    && (b.activeFromUnix == 0 || b.activeFromUnix <= now)
    && (b.activeToUnix == 0 || now < b.activeToUnix)
    && request.floorMicros <= Worth(b)
    && b.floorMicros <= Worth(b)
  }

  /** The higher priority, then the higher worth, then the lower ID. */
  predicate Precedes(a: Bid, b: Bid) {
    || a.priority > b.priority
    || (a.priority == b.priority && Worth(a) > Worth(b))
    || (a.priority == b.priority && Worth(a) == Worth(b) && TextLess(a.id, b.id))
  }

  function AllBids(bids: seq<Bid>, dynamic: seq<DynamicBid>): (all: seq<Bid>)
    ensures |all| == |bids| + |dynamic|
    ensures forall i :: 0 <= i < |bids| ==> all[i] == bids[i]
    ensures forall i :: 0 <= i < |dynamic| ==> all[|bids| + i] == dynamic[i].bid
  {
    bids + seq(|dynamic|, i requires 0 <= i < |dynamic| => dynamic[i].bid)
  }

  /** Nothing that may serve precedes the bid at k; of bids that tie it is the first. */
  ghost predicate BestAt(all: seq<Bid>, request: AuctionRequest, now: Int64, k: nat) {
    && k < |all| && MayServe(all[k], request, now)
    && (forall i :: 0 <= i < |all| && MayServe(all[i], request, now) ==> !Precedes(all[i], all[k]))
    && (forall i :: 0 <= i < k && MayServe(all[i], request, now) ==> Precedes(all[k], all[i]))
  }

  predicate Competes(all: seq<Bid>, request: AuctionRequest, now: Int64, k: nat, i: nat)
    requires k < |all| && i < |all|
  {
    i != k && MayServe(all[i], request, now) && all[i].priority == all[k].priority
  }

  /** r is what the best other bid of the winner's priority is worth; 0 without one. */
  ghost predicate NextWorth(all: seq<Bid>, request: AuctionRequest, now: Int64, k: nat, r: int)
    requires k < |all|
  {
    && r >= 0
    && (forall i: nat :: i < |all| && Competes(all, request, now, k, i) ==> Worth(all[i]) <= r)
    && (r == 0 || exists i: nat :: i < |all| && Competes(all, request, now, k, i) && Worth(all[i]) == r)
  }

  /** First price: the winner's worth. Second price: the floor, or what the next bid is worth and the increment. */
  predicate Pays(policy: AuctionPolicy, floor: int, worth: int, next: int, paid: int) {
    match policy.pricingModel
    case FirstPrice => paid == worth
    case _ =>
      if next == 0 then paid == floor
      else paid == Max(floor, Min(worth, next + policy.secondPriceIncrementMicros))
  }

  /** The bid at k wins, and the decision says who that is and what it pays. */
  ghost predicate FillsWith(d: Decision, policy: AuctionPolicy, bids: seq<Bid>, dynamic: seq<DynamicBid>,
                            request: AuctionRequest, now: Int64, k: nat) {
    var all := AllBids(bids, dynamic);
    && BestAt(all, request, now, k)
    && d.bid == Some(all[k])
    && d.dynamicBidderId == (if k < |bids| then [] else dynamic[k - |bids|].bidderId)
    && d.noBidReason == Filled
    && d.effectivePriceMicros == Worth(all[k])
    && exists next :: NextWorth(all, request, now, k, next)
                      && Pays(policy, Max(request.floorMicros, all[k].floorMicros), Worth(all[k]), next,
                              d.clearingPriceMicros)
  }

  ghost predicate RightDecision(d: Decision, policy: AuctionPolicy, bids: seq<Bid>, dynamic: seq<DynamicBid>,
                                request: AuctionRequest, now: Int64) {
    var all := AllBids(bids, dynamic);
    && d.eligibleCandidates == |set i: nat | i < |all| && MayServe(all[i], request, now)|
    && if forall i :: 0 <= i < |all| ==> !MayServe(all[i], request, now)
       then d.bid == None && d.noBidReason == NoEligibleBid && d.effectivePriceMicros == d.clearingPriceMicros == 0
       else exists k: nat :: FillsWith(d, policy, bids, dynamic, request, now, k)
  }

  ghost predicate AllPriceable(bids: seq<Bid>, dynamic: seq<DynamicBid>) {
    (forall b :: b in bids ==> Priceable(b)) && (forall o :: o in dynamic ==> Priceable(o.bid))
  }

  /** An offer is priced at its worth, and qualifies exactly when its bid may serve. */
  lemma OffersInFields(bids: seq<Bid>, dynamic: seq<DynamicBid>, request: AuctionRequest, now: Int64, i: nat)
    requires AllPriceable(bids, dynamic) && i < |bids| + |dynamic|
    ensures var o, all := Offers(bids, dynamic)[i], AllBids(bids, dynamic);
            && o.bid == all[i] && o.price == Worth(all[i]) >= 0
            && o.bidderId == (if i < |bids| then [] else dynamic[i - |bids|].bidderId)
            && (Qualifies(o, request, now) <==> MayServe(all[i], request, now))
  {
    var all := AllBids(bids, dynamic);
    if i < |bids| {
      assert all[i] in bids;
    } else {
      assert dynamic[i - |bids|] in dynamic && all[i] == dynamic[i - |bids|].bid;
    }
    EffectivePriceIsFloor(all[i]);
    hide EffectivePrice;
  }

  /** The same for two Redis bids and their rank. */
  lemma BidsInFields(a: Bid, b: Bid, request: AuctionRequest, now: Int64)
    requires Priceable(a) && Priceable(b)
    ensures Qualifies(Priced(a, []), request, now) <==> MayServe(a, request, now)
    ensures Outranks(Priced(a, []), Priced(b, [])) <==> Precedes(a, b)
  {
    EffectivePriceIsFloor(a);
    EffectivePriceIsFloor(b);
    hide EffectivePrice;
  }

  lemma {:induction false} CountIsCardinality(offers: seq<Offer>, request: AuctionRequest, now: Int64)
    ensures CountQualified(offers, request, now) == |set i: nat | i < |offers| && Qualifies(offers[i], request, now)|
  {
    hide Eligible;
    if offers == [] {
    } else {
      var n := |offers| - 1;
      CountIsCardinality(offers[..n], request, now);
      var before := set i: nat | i < n && Qualifies(offers[..n][i], request, now);
      var after := set i: nat | i < |offers| && Qualifies(offers[i], request, now);
      assert after == if Qualifies(offers[n], request, now) then before + {n} else before;
    }
  }

  /** Whatever answers the offers is the right decision. */
  lemma AnswersAreRight(d: Decision, policy: AuctionPolicy, bids: seq<Bid>, dynamic: seq<DynamicBid>,
                        request: AuctionRequest, now: Int64, t: Tally)
    requires policy.Valid() && request.floorMicros >= 0 && AllPriceable(bids, dynamic)
    requires Answers(d, policy, Offers(bids, dynamic), request, now, t)
    ensures RightDecision(d, policy, bids, dynamic, request, now)
  {
    hide Qualifies;
    hide MayServe;
    hide Worth;
    hide EffectivePrice;
    hide ClearingPrice;
    hide CountQualified;
    var offers, all := Offers(bids, dynamic), AllBids(bids, dynamic);
    forall i: nat | i < |all|
      ensures offers[i].bid == all[i] && offers[i].price == Worth(all[i])
      ensures offers[i].bidderId == (if i < |bids| then [] else dynamic[i - |bids|].bidderId)
      ensures Qualifies(offers[i], request, now) <==> MayServe(all[i], request, now)
    {
      OffersInFields(bids, dynamic, request, now, i);
    }
    CountIsCardinality(offers, request, now);
    assert (set i: nat | i < |offers| && Qualifies(offers[i], request, now))
        == (set i: nat | i < |all| && MayServe(all[i], request, now));
    if t.winner.Some? {
      var k: nat :| TallyAt(offers, request, now, t, k);
      WinnerInFields(d, policy, bids, dynamic, request, now, t, k);
    }
  }

  lemma WinnerInFields(d: Decision, policy: AuctionPolicy, bids: seq<Bid>, dynamic: seq<DynamicBid>,
                       request: AuctionRequest, now: Int64, t: Tally, k: nat)
    requires policy.Valid() && request.floorMicros >= 0 && AllPriceable(bids, dynamic)
    requires Answers(d, policy, Offers(bids, dynamic), request, now, t)
    requires TallyAt(Offers(bids, dynamic), request, now, t, k)
    ensures FillsWith(d, policy, bids, dynamic, request, now, k)
  {
    hide Qualifies;
    hide MayServe;
    hide Worth;
    hide EffectivePrice;
    hide ClearingPrice;
    hide CountQualified;
    var offers, all := Offers(bids, dynamic), AllBids(bids, dynamic);
    TallyFacts(offers, request, now, t, k);
    forall i: nat | i < |all|
      ensures offers[i].bid == all[i] && offers[i].price == Worth(all[i])
      ensures offers[i].bidderId == (if i < |bids| then [] else dynamic[i - |bids|].bidderId)
      ensures Qualifies(offers[i], request, now) <==> MayServe(all[i], request, now)
    {
      OffersInFields(bids, dynamic, request, now, i);
    }
    assert forall i: nat :: i < |all| ==> (Competes(all, request, now, k, i) <==> Rivals(offers, request, now, k, i));
    ClearingPriceExact(policy, all[k], t.winnerPrice, t.runnerUpPrice, request.floorMicros);
    assert BestAt(all, request, now, k);
    assert NextWorth(all, request, now, k, t.runnerUpPrice);
  }

  /**
  `bids` and `snapshot` are what the local cache returned. `refresh` says that
  the auction asked for a background refresh of the placement.
  */
  method Run(policy: AuctionPolicy, request: AuctionRequest, bids: seq<Bid>, snapshot: SnapshotState,
             dynamic: seq<DynamicBid>, now: Int64)
    returns (d: Decision, refresh: bool)
    ensures refresh <==> !snapshot.found || snapshot.stale
    ensures !snapshot.found ==> d == NO_DECISION.(noBidReason := ColdCache)
    ensures snapshot.found && snapshot.stale && snapshot.rejectStale ==>
              d == NO_DECISION.(noBidReason := StaleSnapshot, snapshotAge := snapshot.age)
    ensures snapshot.found && !(snapshot.stale && snapshot.rejectStale) ==>
              && d.servedStale == snapshot.stale
              && d.snapshotAge == snapshot.age
              && (exists t :: Answers(d, policy, Offers(bids, dynamic), request, now, t))
              && (policy.Valid() && request.floorMicros >= 0 && AllPriceable(bids, dynamic) ==>
                    RightDecision(d, policy, bids, dynamic, request, now))
  {
    hide EffectivePrice;
    hide ClearingPrice;
    hide IsTally;
    hide RightDecision;
    hide AllPriceable;
    refresh := false;
    if !snapshot.found {
      return NO_DECISION.(noBidReason := ColdCache), true;
    }
    if snapshot.stale {
      refresh := true;
      if snapshot.rejectStale {
        return NO_DECISION.(noBidReason := StaleSnapshot, snapshotAge := snapshot.age), refresh;
      }
    }
    var accumulator := new Accumulator(request, now);
    ghost var offers := Offers(bids, dynamic);
    for i := 0 to |bids|
      invariant IsTally(offers[..i], request, now, accumulator.Result())
    {
      accumulator.Consider(bids[i], [], offers[..i]);
      assert offers[..i + 1] == offers[..i] + [Priced(bids[i], [])];
    }
    for i := 0 to |dynamic|
      invariant IsTally(offers[..|bids| + i], request, now, accumulator.Result())
    {
      accumulator.Consider(dynamic[i].bid, dynamic[i].bidderId, offers[..|bids| + i]);
      assert offers[..|bids| + i + 1] == offers[..|bids| + i] + [Priced(dynamic[i].bid, dynamic[i].bidderId)];
    }
    assert offers[..|offers|] == offers;
    ghost var t := accumulator.Result();
    if accumulator.winner.None? {
      d := NO_DECISION.(eligibleCandidates := accumulator.candidates, noBidReason := NoEligibleBid,
                        servedStale := snapshot.stale, snapshotAge := snapshot.age);
      assert Answers(d, policy, offers, request, now, t);
      if policy.Valid() && request.floorMicros >= 0 && AllPriceable(bids, dynamic) {
        AnswersAreRight(d, policy, bids, dynamic, request, now, t);
      }
      return;
    }
    d := Decision(accumulator.winner, accumulator.winnerPrice,
                  ClearingPrice(policy, accumulator.winner.value, accumulator.winnerPrice, accumulator.runnerUpPrice,
                                request.floorMicros),
                  accumulator.candidates, Filled, snapshot.stale, snapshot.age, accumulator.winnerBidderId);
    assert Answers(d, policy, offers, request, now, t);
    if policy.Valid() && request.floorMicros >= 0 && AllPriceable(bids, dynamic) {
      AnswersAreRight(d, policy, bids, dynamic, request, now, t);
    }
  }
}
