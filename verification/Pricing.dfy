/** Prices, eligibility, rank and clearing of one auction (auction.go). */
module Pricing {
  import opened Types

  /** Go arithmetic, left to right: every product and the sum may wrap. */
  function EffectivePrice(bid: Bid): Int64 {
    Wrap64(Wrap64(TruncDiv(bid.priceMicros, 10_000) * bid.pacingBps)
           + TruncDiv(Wrap64(TruncMod(bid.priceMicros, 10_000) * bid.pacingBps), 10_000))
  }

  predicate Matches(allowed: seq<Text>, value: Text) {
    allowed == [] || value in allowed
  }

  predicate Eligible(bid: Bid, request: AuctionRequest, nowUnix: Int64, price: Int64) {
    && price >= Max(request.floorMicros, bid.floorMicros)
    && !(bid.activeFromUnix != 0 && nowUnix < bid.activeFromUnix)
    && !(bid.activeToUnix != 0 && nowUnix >= bid.activeToUnix)
    && Matches(bid.countries, request.country)
    && Matches(bid.devices, request.device)
  }

  predicate RanksAhead(candidate: Bid, candidatePrice: Int64, winner: Bid, winnerPrice: Int64) {
    if candidate.priority != winner.priority then candidate.priority > winner.priority
    else if candidatePrice != winnerPrice then candidatePrice > winnerPrice
    else TextLess(candidate.id, winner.id)
  }

  function ClearingPrice(policy: AuctionPolicy, winner: Bid, winnerPrice: Int64, runnerUpPrice: Int64,
                         requestFloor: Int64): Int64 {
    var floor := Max(requestFloor, winner.floorMicros);
    if policy.pricingModel.FirstPrice? then winnerPrice
    else if runnerUpPrice == 0 then floor
    else
      var sum := Wrap64(runnerUpPrice + policy.secondPriceIncrementMicros);
      var secondPrice := if sum < runnerUpPrice || sum > winnerPrice then winnerPrice else sum;
      Max(floor, secondPrice)
  }

  // ---------------------------------------------------------------------------
  // Money
  // ---------------------------------------------------------------------------

  lemma MulBounds(x: int, y: int, c: int)
    requires 0 <= x && 0 <= y <= c
    ensures 0 <= x * y <= x * c
  {
    assert x * c - x * y == x * (c - y);
  }

  /** Dividing before multiplying loses nothing: high and low parts floor together. */
  lemma SplitFloor(high: int, low: int, pacing: int)
    ensures ((high * 10_000 + low) * pacing) / 10_000 == high * pacing + (low * pacing) / 10_000
  {
    assert (high * 10_000 + low) * pacing == (high * pacing) * 10_000 + low * pacing;
  }

  /**
  For a price that is not negative and a pacing within 0..10000, no
  intermediate result leaves int64, and the result is the rounded-down product.
  */
  lemma EffectivePriceIsFloor(bid: Bid)
    requires bid.priceMicros >= 0 && 0 <= bid.pacingBps <= 10_000
    ensures EffectivePrice(bid) == (bid.priceMicros * bid.pacingBps) / 10_000
    ensures 0 <= EffectivePrice(bid) <= bid.priceMicros
  {
    var high, low, pacing := bid.priceMicros / 10_000, bid.priceMicros % 10_000, bid.pacingBps;
    MulBounds(high, pacing, 10_000);
    MulBounds(low, pacing, 10_000);
    SplitFloor(high, low, pacing);
    assert bid.priceMicros == high * 10_000 + low;
    assert TruncMod(bid.priceMicros, 10_000) == low;
    assert 0 <= (low * pacing) / 10_000 <= low;
    assert Wrap64(high * pacing) == high * pacing && Wrap64(low * pacing) == low * pacing;
  }

  /**
  The wrapping computation with its overflow test equals the formula over the
  unbounded integers, and the price charged lies between the floor and the bid.
  */
  lemma ClearingPriceExact(policy: AuctionPolicy, winner: Bid, winnerPrice: Int64, runnerUpPrice: Int64,
                           requestFloor: Int64)
    requires policy.Valid()
    requires 0 <= runnerUpPrice <= winnerPrice && Max(requestFloor, winner.floorMicros) <= winnerPrice
    ensures var floor := Max(requestFloor, winner.floorMicros);
            var clearing := ClearingPrice(policy, winner, winnerPrice, runnerUpPrice, requestFloor);
            && clearing == (if policy.pricingModel.FirstPrice? then winnerPrice
                            else if runnerUpPrice == 0 then floor
                            else Max(floor, Min(winnerPrice, runnerUpPrice + policy.secondPriceIncrementMicros)))
            && floor <= clearing <= winnerPrice
  {
    var sum := runnerUpPrice + policy.secondPriceIncrementMicros;
    if sum > INT64_MAX {
      assert Wrap64(sum) == sum - 0x1_0000_0000_0000_0000 < runnerUpPrice;
    }
  }

  // ---------------------------------------------------------------------------
  // Rank is a strict weak order; bids that tie agree on priority, price and ID
  // ---------------------------------------------------------------------------

  lemma RanksAheadAsymmetric(a: Bid, pa: Int64, b: Bid, pb: Int64)
    ensures !(RanksAhead(a, pa, b, pb) && RanksAhead(b, pb, a, pa))
    ensures RanksAhead(a, pa, b, pb) || RanksAhead(b, pb, a, pa)
            || (a.priority == b.priority && pa == pb && a.id == b.id)
  {
    TextLessTotal(a.id, b.id);
  }

  /** Whatever does not rank behind something ahead of `c` ranks ahead of `c`. */
  lemma RanksAheadWeakTransitive(a: Bid, pa: Int64, b: Bid, pb: Int64, c: Bid, pc: Int64)
    requires (!RanksAhead(b, pb, a, pa) && RanksAhead(b, pb, c, pc))
          || (RanksAhead(a, pa, b, pb) && !RanksAhead(c, pc, b, pb))
    ensures RanksAhead(a, pa, c, pc)
  {
    TextLessTotal(a.id, b.id);
    TextLessTotal(b.id, c.id);
    if TextLess(a.id, b.id) && TextLess(b.id, c.id) {
      TextLessTransitive(a.id, b.id, c.id);
    }
  }

  // ---------------------------------------------------------------------------
  // Eligibility
  // ---------------------------------------------------------------------------

  /** Back-to-back windows neither overlap nor leave a gap: exactly one is active at every time of the whole window. */
  lemma WindowsHandOver(bid: Bid, from: Int64, switch: Int64, to: Int64, request: AuctionRequest, now: Int64,
                        price: Int64)
    requires from != 0 && switch != 0 && to != 0 && from <= switch <= to
    ensures var whole := bid.(activeFromUnix := from, activeToUnix := to);
            var first := bid.(activeFromUnix := from, activeToUnix := switch);
            var second := bid.(activeFromUnix := switch, activeToUnix := to);
            && (Eligible(whole, request, now, price) <==>
                Eligible(first, request, now, price) || Eligible(second, request, now, price))
            && !(Eligible(first, request, now, price) && Eligible(second, request, now, price))
  {
  }

  /** A target list reaches exactly the requests that its single targets reach; no list reaches them all. */
  lemma TargetsAreAlternatives(bid: Bid, request: AuctionRequest, now: Int64, price: Int64)
    ensures bid.countries != [] ==>
              (Eligible(bid, request, now, price) <==>
                 exists c :: c in bid.countries && Eligible(bid.(countries := [c]), request, now, price))
    ensures bid.devices != [] ==>
              (Eligible(bid, request, now, price) <==>
                 exists v :: v in bid.devices && Eligible(bid.(devices := [v]), request, now, price))
    ensures Eligible(bid, request, now, price) ==> Eligible(bid.(countries := [], devices := []), request, now, price)
  {
    assert request.country in bid.countries ==>
        Eligible(bid, request, now, price) == Eligible(bid.(countries := [request.country]), request, now, price);
    assert request.device in bid.devices ==>
        Eligible(bid, request, now, price) == Eligible(bid.(devices := [request.device]), request, now, price);
  }

  /** One target country admits the requests from there alone, one target device those of that kind; none admits all. */
  lemma TargetsMeanWhatTheySay(bid: Bid, request: AuctionRequest, now: Int64, price: Int64, target: Text)
    ensures Eligible(bid.(countries := [target]), request, now, price) <==>
              request.country == target && Eligible(bid.(countries := []), request, now, price)
    ensures Eligible(bid.(devices := [target]), request, now, price) <==>
              request.device == target && Eligible(bid.(devices := []), request, now, price)
    ensures bid.countries == [] ==>
              (Eligible(bid, request, now, price) <==> Eligible(bid, request.(country := target), now, price))
    ensures bid.devices == [] ==>
              (Eligible(bid, request, now, price) <==> Eligible(bid, request.(device := target), now, price))
  {
  }

  /** A bound of 0 is none; a window holds its first instant and not its end. */
  lemma WindowEdges(bid: Bid, request: AuctionRequest, now: Int64, price: Int64)
    ensures var always := bid.(activeFromUnix := 0, activeToUnix := 0);
            && (Eligible(bid, request, now, price) ==> Eligible(always, request, now, price))
            && (Eligible(always, request, now, price) ==>
                  (Eligible(bid, request, now, price) <==>
                     (bid.activeFromUnix == 0 || bid.activeFromUnix <= now)
                     && (bid.activeToUnix == 0 || now < bid.activeToUnix)))
    ensures forall later :: Eligible(bid.(activeFromUnix := 0, activeToUnix := 0), request, now, price)
                      == Eligible(bid.(activeFromUnix := 0, activeToUnix := 0), request, later, price)
  {
  }
}
