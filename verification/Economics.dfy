/**
What bidders can rely on: facts about every correct auction result, that is
about every tally that the pass in `Auction` can return.
*/
module Economics {
  import opened Types
  import opened Pricing
  import opened Auction

  // ---------------------------------------------------------------------------
  // Facts about one tally
  // ---------------------------------------------------------------------------

  lemma FillsWhenSomeoneQualifies(offers: seq<Offer>, request: AuctionRequest, now: Int64, t: Tally)
    requires IsTally(offers, request, now, t)
    ensures t.winner.Some? <==> exists o :: o in offers && Qualifies(o, request, now)
  {
    if t.winner.Some? {
      assert t.winner.value in offers;
    }
  }

  lemma WinnerIndexUnique(offers: seq<Offer>, request: AuctionRequest, now: Int64, k: nat, k': nat)
    requires WinsAt(offers, request, now, k) && WinsAt(offers, request, now, k')
    ensures k == k'
  {
  }

  lemma RunnerUpUnique(offers: seq<Offer>, request: AuctionRequest, now: Int64, k: nat, r: Int64, r': Int64)
    requires k < |offers| && request.floorMicros >= 0
    requires RunnerUpAt(offers, request, now, k, r) && RunnerUpAt(offers, request, now, k, r')
    requires 0 <= r && 0 <= r'
    ensures r == r'
  {
  }

  /** The offers, the request and the time leave one possible tally. */
  lemma TallyIsUnique(offers: seq<Offer>, request: AuctionRequest, now: Int64, t: Tally, t': Tally)
    requires request.floorMicros >= 0
    requires IsTally(offers, request, now, t) && IsTally(offers, request, now, t')
    ensures t == t'
  {
    if t.winner.Some? && t'.winner.Some? {
      var k: nat :| TallyAt(offers, request, now, t, k);
      var k': nat :| TallyAt(offers, request, now, t', k');
      WinnerIndexUnique(offers, request, now, k, k');
      TallyFacts(offers, request, now, t, k);
      TallyFacts(offers, request, now, t', k);
      RunnerUpUnique(offers, request, now, k, t.runnerUpPrice, t'.runnerUpPrice);
    }
  }

  /** The charge is never below the floors and never above the winner's own price. */
  lemma ChargeBounds(policy: AuctionPolicy, offers: seq<Offer>, request: AuctionRequest, now: Int64, t: Tally)
    requires policy.Valid() && request.floorMicros >= 0
    requires IsTally(offers, request, now, t) && t.winner.Some?
    ensures Max(request.floorMicros, t.winner.value.bid.floorMicros) <= Charge(policy, request, t) <= t.winnerPrice
    ensures policy.pricingModel.SecondPrice? ==>
              && t.runnerUpPrice <= Charge(policy, request, t)
              && Charge(policy, request, t)
                 <= Max(Max(request.floorMicros, t.winner.value.bid.floorMicros),
                        t.runnerUpPrice + policy.secondPriceIncrementMicros)
  {
    var k: nat :| TallyAt(offers, request, now, t, k);
    TallyFacts(offers, request, now, t, k);
    ClearingPriceExact(policy, t.winner.value.bid, t.winnerPrice, t.runnerUpPrice, request.floorMicros);
  }

  // ---------------------------------------------------------------------------
  // The order of arrival does not matter
  // ---------------------------------------------------------------------------

  function Without<T>(s: seq<T>, i: nat): seq<T>
    requires i < |s|
  {
    s[..i] + s[i + 1..]
  }

  lemma WithoutAsBag<T>(s: seq<T>, i: nat)
    requires i < |s|
    ensures multiset(Without(s, i)) == multiset(s) - multiset{s[i]}
  {
    assert s == s[..i] + [s[i]] + s[i + 1..];
  }

  lemma {:induction false} CountWithout(offers: seq<Offer>, request: AuctionRequest, now: Int64, i: nat)
    requires i < |offers|
    ensures CountQualified(offers, request, now)
         == CountQualified(Without(offers, i), request, now) + (if Qualifies(offers[i], request, now) then 1 else 0)
  {
    hide Eligible;
    var n, rest := |offers| - 1, Without(offers, i);
    if i == n {
      assert rest == offers[..n];
    } else {
      CountWithout(offers[..n], request, now, i);
      assert rest[..|rest| - 1] == Without(offers[..n], i);
      assert rest[|rest| - 1] == offers[n];
    }
  }

  lemma {:induction false} CountPermutes(offers: seq<Offer>, offers': seq<Offer>, request: AuctionRequest, now: Int64)
    requires multiset(offers) == multiset(offers')
    ensures CountQualified(offers, request, now) == CountQualified(offers', request, now)
    decreases |offers|
  {
    assert |offers| == |multiset(offers)| == |multiset(offers')| == |offers'|;
    if |offers| == 0 {
    } else {
      var o := offers[0];
      assert o in multiset(offers');
      var j: nat :| j < |offers'| && offers'[j] == o;
      WithoutAsBag(offers, 0);
      WithoutAsBag(offers', j);
      CountPermutes(Without(offers, 0), Without(offers', j), request, now);
      CountWithout(offers, request, now, 0);
      CountWithout(offers', request, now, j);
    }
  }

  /** An offer at another index than k is an offer left in the bag when the one at k is taken out. */
  lemma OthersAsBag(offers: seq<Offer>, k: nat, o: Offer)
    requires k < |offers|
    ensures (exists i: nat :: i < |offers| && i != k && offers[i] == o) <==> o in multiset(offers) - multiset{offers[k]}
  {
    var rest := Without(offers, k);
    WithoutAsBag(offers, k);
    if i: nat :| i < |offers| && i != k && offers[i] == o {
      assert rest[if i < k then i else i - 1] == o;
    }
    if o in multiset(rest) {
      var j: nat :| j < |rest| && rest[j] == o;
      assert offers[if j < k then j else j + 1] == o;
    }
  }

  /** The same bag of offers has the same runner-up price for the same winning offer. */
  lemma RunnerUpPermutes(offers: seq<Offer>, offers': seq<Offer>, request: AuctionRequest, now: Int64, k: nat,
                         k': nat, r: Int64)
    requires multiset(offers) == multiset(offers') && k < |offers| && k' < |offers'| && offers[k] == offers'[k']
    requires RunnerUpAt(offers, request, now, k, r)
    ensures RunnerUpAt(offers', request, now, k', r)
  {
    forall i: nat | i < |offers'| && Rivals(offers', request, now, k', i)
      ensures offers'[i].price <= r
    {
      OthersAsBag(offers', k', offers'[i]);
      OthersAsBag(offers, k, offers'[i]);
      var j: nat :| j < |offers| && j != k && offers[j] == offers'[i];
      assert Rivals(offers, request, now, k, j);
    }
    if r != 0 {
      var j: nat :| j < |offers| && Rivals(offers, request, now, k, j) && offers[j].price == r;
      OthersAsBag(offers, k, offers[j]);
      OthersAsBag(offers', k', offers[j]);
      var i: nat :| i < |offers'| && i != k' && offers'[i] == offers[j];
      assert Rivals(offers', request, now, k', i);
    }
  }

  /** When two different offers share the top rank, the runner-up price is the winning price. */
  lemma TieMeansRunnerUpIsWinner(offers: seq<Offer>, request: AuctionRequest, now: Int64, t: Tally, k: nat,
                                 other: Offer)
    requires TallyAt(offers, request, now, t, k) && request.floorMicros >= 0
    requires other in offers && other != offers[k] && Qualifies(other, request, now)
    requires other.bid.priority == offers[k].bid.priority && other.price == offers[k].price
    ensures t.runnerUpPrice == t.winnerPrice
  {
    TallyFacts(offers, request, now, t, k);
  }

  lemma PermutedRunnerUp(offers: seq<Offer>, offers': seq<Offer>, request: AuctionRequest, now: Int64, t: Tally,
                         t': Tally, k: nat, k': nat)
    requires request.floorMicros >= 0 && multiset(offers) == multiset(offers')
    requires TallyAt(offers, request, now, t, k) && TallyAt(offers', request, now, t', k')
    requires offers[k] in offers' && offers'[k'] in offers
    requires offers[k].bid.priority == offers'[k'].bid.priority && offers[k].price == offers'[k'].price
    ensures t.runnerUpPrice == t'.runnerUpPrice
  {
    hide Eligible;
    hide RanksAhead;
    if offers[k] == offers'[k'] {
      TallyFacts(offers, request, now, t, k);
      TallyFacts(offers', request, now, t', k');
      RunnerUpPermutes(offers, offers', request, now, k, k', t.runnerUpPrice);
      RunnerUpUnique(offers', request, now, k', t.runnerUpPrice, t'.runnerUpPrice);
    } else {
      TieMeansRunnerUpIsWinner(offers, request, now, t, k, offers'[k']);
      TieMeansRunnerUpIsWinner(offers', request, now, t', k', offers[k]);
    }
  }

  /**
  Auctions over the same bag of offers, in any two orders, agree on the winning
  rank, on every price and on the count.
  */
  lemma PermutationInvariance(policy: AuctionPolicy, offers: seq<Offer>, offers': seq<Offer>,
                              request: AuctionRequest, now: Int64, t: Tally, t': Tally)
    requires policy.Valid() && request.floorMicros >= 0
    requires multiset(offers) == multiset(offers')
    requires IsTally(offers, request, now, t) && IsTally(offers', request, now, t')
    ensures t.candidates == t'.candidates && t.winner.Some? == t'.winner.Some?
    ensures t.winnerPrice == t'.winnerPrice && t.runnerUpPrice == t'.runnerUpPrice
    ensures t.winner.Some? ==>
              && t.winner.value.bid.priority == t'.winner.value.bid.priority
              && t.winner.value.bid.id == t'.winner.value.bid.id
              && Charge(policy, request, t) == Charge(policy, request, t')
  {
    hide Eligible;
    hide RanksAhead;
    CountPermutes(offers, offers', request, now);
    assert forall o :: o in offers <==> o in multiset(offers');
    assert forall o :: o in offers <==> o in offers';
    FillsWhenSomeoneQualifies(offers, request, now, t);
    FillsWhenSomeoneQualifies(offers', request, now, t');
    if t.winner.Some? {
      var k: nat :| TallyAt(offers, request, now, t, k);
      assert offers[k] in offers';
      var k': nat :| TallyAt(offers', request, now, t', k');
      assert offers'[k'] in offers;
      TallyFacts(offers, request, now, t, k);
      TallyFacts(offers', request, now, t', k');
      var w, w' := offers[k], offers'[k'];
      assert !Outranks(w, w') && !Outranks(w', w);
      RanksAheadAsymmetric(w.bid, w.price, w'.bid, w'.price);
      PermutedRunnerUp(offers, offers', request, now, t, t', k, k');
      ClearingPriceExact(policy, w.bid, t.winnerPrice, t.runnerUpPrice, request.floorMicros);
      ClearingPriceExact(policy, w'.bid, t'.winnerPrice, t'.runnerUpPrice, request.floorMicros);
    }
  }

  // ---------------------------------------------------------------------------
  // Bids of lower priority do not interfere
  // ---------------------------------------------------------------------------

  lemma {:induction false} CountAppend(a: seq<Offer>, b: seq<Offer>, request: AuctionRequest, now: Int64)
    ensures CountQualified(a + b, request, now) == CountQualified(a, request, now) + CountQualified(b, request, now)
  {
    if b == [] {
      assert a + b == a;
    } else {
      var n := |b| - 1;
      CountAppend(a, b[..n], request, now);
      assert (a + b)[..|a + b| - 1] == a + b[..n];
    }
  }

  /** Adding offers below the winner's priority changes the count and nothing else. */
  lemma LowerPriorityDoesNotInterfere(offers: seq<Offer>, extra: seq<Offer>, request: AuctionRequest, now: Int64,
                                      t: Tally, t': Tally)
    requires request.floorMicros >= 0
    requires IsTally(offers, request, now, t) && IsTally(offers + extra, request, now, t') && t.winner.Some?
    requires forall i :: 0 <= i < |extra| ==> extra[i].bid.priority < t.winner.value.bid.priority
    ensures t' == t.(candidates := t.candidates + CountQualified(extra, request, now))
  {
    hide Eligible;
    hide CountQualified;
    CountAppend(offers, extra, request, now);
    var all := offers + extra;
    var k: nat :| TallyAt(offers, request, now, t, k);
    assert forall i :: |offers| <= i < |all| ==> all[i] == extra[i - |offers|];
    assert forall i: nat :: i < |offers| ==> (Rivals(all, request, now, k, i) <==> Rivals(offers, request, now, k, i));
    var expected := t.(candidates := t.candidates + CountQualified(extra, request, now));
    assert TallyAt(all, request, now, expected, k);
    TallyIsUnique(all, request, now, expected, t');
  }

  // ---------------------------------------------------------------------------
  // Truthful bidding in the second-price auction
  // ---------------------------------------------------------------------------

  /** What `own` earns when its impression is worth `value`. */
  function Surplus(policy: AuctionPolicy, request: AuctionRequest, t: Tally, own: Offer, value: int): int {
    if t.winner == Some(own) then value - Charge(policy, request, t) else 0
  }

  /** How much of the increment can show: a price is an int64 and the price below it is at least 1. */
  function Reach(policy: AuctionPolicy): int {
    Min(policy.secondPriceIncrementMicros, INT64_MAX - 1)
  }

  /** `lie` differs from `own` in its price, and the bid price and pacing that it comes from, alone. */
  predicate Reprices(own: Offer, lie: Offer) {
    lie == own.(price := lie.price, bid := own.bid.(priceMicros := lie.bid.priceMicros, pacingBps := lie.bid.pacingBps))
  }

  /**
  With everybody else, the request and the time fixed, a bidder that moves its
  effective price away from its true value gains at most the increment, up to
  what an int64 price can show.
  */
  lemma IncentiveBound(policy: AuctionPolicy, request: AuctionRequest, now: Int64,
                       before: seq<Offer>, own: Offer, lie: Offer, after: seq<Offer>, t: Tally, t': Tally)
    requires policy.Valid() && policy.pricingModel.SecondPrice? && request.floorMicros >= 0
    requires Reprices(own, lie) && own !in before && own !in after && lie !in before && lie !in after
    requires IsTally(before + [own] + after, request, now, t)
    requires IsTally(before + [lie] + after, request, now, t')
    ensures Surplus(policy, request, t', lie, own.price)
         <= Surplus(policy, request, t, own, own.price) + Reach(policy)
  {
    if t.winner == Some(own) {
      ChargeBounds(policy, before + [own] + after, request, now, t);
    }
    if t'.winner == Some(lie) {
      ChargeBounds(policy, before + [lie] + after, request, now, t');
      if t.winner == Some(own) {
        SameRunnerUp(request, now, before, own, lie, after, t, t');
      } else {
        LosingMeansPricedOut(request, now, before, own, lie, after, t, t');
      }
    }
  }

  /** Repricing keeps the competition of a bidder that wins either way. */
  lemma SameRunnerUp(request: AuctionRequest, now: Int64, before: seq<Offer>, own: Offer, lie: Offer,
                     after: seq<Offer>, t: Tally, t': Tally)
    requires request.floorMicros >= 0
    requires Reprices(own, lie) && own !in before && own !in after && lie !in before && lie !in after
    requires IsTally(before + [own] + after, request, now, t) && t.winner == Some(own)
    requires IsTally(before + [lie] + after, request, now, t') && t'.winner == Some(lie)
    ensures t.runnerUpPrice == t'.runnerUpPrice
  {
    hide Eligible;
    hide RanksAhead;
    var offers, offers', n := before + [own] + after, before + [lie] + after, |before|;
    var k: nat :| TallyAt(offers, request, now, t, k);
    var k': nat :| TallyAt(offers', request, now, t', k');
    OnlyAt(before, own, after, k);
    OnlyAt(before, lie, after, k');
    assert forall i: nat :: i < |offers| ==>
             (Rivals(offers, request, now, n, i) <==> Rivals(offers', request, now, n, i));
    assert forall i: nat :: i < |offers| && i != n ==> offers[i] == offers'[i];
    TallyFacts(offers, request, now, t, n);
    TallyFacts(offers', request, now, t', n);
    assert RunnerUpAt(offers', request, now, n, t.runnerUpPrice);
    RunnerUpUnique(offers', request, now, n, t.runnerUpPrice, t'.runnerUpPrice);
  }

  lemma OnlyAt(before: seq<Offer>, own: Offer, after: seq<Offer>, k: nat)
    requires own !in before && own !in after && k < |before + [own] + after| && (before + [own] + after)[k] == own
    ensures k == |before|
  {
  }

  /** A bidder that loses with its true value faces a floor or a rival that is worth at least as much. */
  lemma LosingMeansPricedOut(request: AuctionRequest, now: Int64, before: seq<Offer>, own: Offer, lie: Offer,
                             after: seq<Offer>, t: Tally, t': Tally)
    requires request.floorMicros >= 0
    requires Reprices(own, lie) && own !in before && own !in after && lie !in before && lie !in after
    requires IsTally(before + [own] + after, request, now, t) && t.winner != Some(own)
    requires IsTally(before + [lie] + after, request, now, t') && t'.winner == Some(lie)
    ensures own.price <= Max(Max(request.floorMicros, own.bid.floorMicros), t'.runnerUpPrice)
  {
    hide CountQualified;
    var offers, offers', n := before + [own] + after, before + [lie] + after, |before|;
    var k': nat :| TallyAt(offers', request, now, t', k');
    OnlyAt(before, lie, after, k');
    assert offers[n] == own && offers'[n] == lie;
    TallyFacts(offers', request, now, t', n);
    if Qualifies(own, request, now) {
      assert t.winner.Some?;
      var k: nat :| TallyAt(offers, request, now, t, k);
      assert k != n && offers[k] == offers'[k];
      TallyFacts(offers, request, now, t, k);
      assert !Outranks(own, offers[k]) && !Outranks(offers[k], lie);
    }
  }

  // ---------------------------------------------------------------------------
  // Raising the request floor
  // ---------------------------------------------------------------------------

  /** How far the charge can fall when the floor rises: not at all, or the increment less one. */
  function FloorSlack(policy: AuctionPolicy): int {
    if policy.pricingModel.FirstPrice? then 0 else Max(0, Reach(policy) - 1)
  }

  /** Only offers below the new floor drop out of the competition. */
  lemma FloorKeepsWinner(offers: seq<Offer>, request: AuctionRequest, floor: Int64, now: Int64,
                         t: Tally, t': Tally, k: nat, k': nat)
    requires 0 <= request.floorMicros <= floor
    requires IsTally(offers, request, now, t) && TallyAt(offers, request, now, t, k)
    requires IsTally(offers, request.(floorMicros := floor), now, t')
    requires TallyAt(offers, request.(floorMicros := floor), now, t', k')
    ensures if Qualifies(offers[k], request.(floorMicros := floor), now)
            then k == k' && (t'.runnerUpPrice == t.runnerUpPrice || (t.runnerUpPrice < floor && t'.runnerUpPrice == 0))
            else t.winnerPrice < floor
  {
    hide RanksAhead;
    hide CountQualified;
    var request' := request.(floorMicros := floor);
    TallyFacts(offers, request, now, t, k);
    TallyFacts(offers, request', now, t', k');
    assert forall o :: Qualifies(o, request', now) <==> Qualifies(o, request, now) && o.price >= floor;
  }

  /**
  While the auction still fills, a higher floor keeps the winner if it still
  qualifies, and lowers the charge by no more than `FloorSlack`.
  */
  lemma FloorMonotone(policy: AuctionPolicy, offers: seq<Offer>, request: AuctionRequest, floor: Int64, now: Int64,
                      t: Tally, t': Tally)
    requires policy.Valid() && 0 <= request.floorMicros <= floor
    requires IsTally(offers, request, now, t) && t.winner.Some?
    requires IsTally(offers, request.(floorMicros := floor), now, t') && t'.winner.Some?
    ensures Qualifies(t.winner.value, request.(floorMicros := floor), now) ==> t'.winner == t.winner
    ensures Charge(policy, request.(floorMicros := floor), t') >= Charge(policy, request, t) - FloorSlack(policy)
  {
    hide RanksAhead;
    hide CountQualified;
    hide ClearingPrice;
    var request' := request.(floorMicros := floor);
    var k: nat :| TallyAt(offers, request, now, t, k);
    var k': nat :| TallyAt(offers, request', now, t', k');
    TallyFacts(offers, request, now, t, k);
    TallyFacts(offers, request', now, t', k');
    ClearingPriceExact(policy, offers[k].bid, t.winnerPrice, t.runnerUpPrice, request.floorMicros);
    ClearingPriceExact(policy, offers[k'].bid, t'.winnerPrice, t'.runnerUpPrice, floor);
    FloorKeepsWinner(offers, request, floor, now, t, t', k, k');
  }

  // ---------------------------------------------------------------------------
  // A sorted snapshot
  // ---------------------------------------------------------------------------

  /** No bid is sorted behind one that it outranks. */
  ghost predicate Ranked(offers: seq<Offer>) {
    forall i, j :: 0 <= i < j < |offers| ==> !Outranks(offers[j], offers[i])
  }

  /** k is the first qualified offer from index `from` on; |offers| when there is none. */
  ghost predicate FirstFrom(offers: seq<Offer>, request: AuctionRequest, now: Int64, from: nat, k: nat) {
    && from <= k <= |offers|
    && (forall i :: from <= i < k ==> !Qualifies(offers[i], request, now))
    && (k < |offers| ==> Qualifies(offers[k], request, now))
  }

  /** On a sorted snapshot the first qualified bid wins and the next one sets the price. */
  lemma SortedFastPath(offers: seq<Offer>, request: AuctionRequest, now: Int64, t: Tally, first: nat, next: nat)
    requires request.floorMicros >= 0 && Ranked(offers)
    requires IsTally(offers, request, now, t)
    requires FirstFrom(offers, request, now, 0, first)
    requires first < |offers| ==> FirstFrom(offers, request, now, first + 1, next)
    ensures t.winner == if first < |offers| then Some(offers[first]) else None
    ensures first < |offers| ==>
              t.runnerUpPrice == if next < |offers| && offers[next].bid.priority == offers[first].bid.priority
                                 then offers[next].price else 0
  {
    if first < |offers| {
      var k: nat :| TallyAt(offers, request, now, t, k);
      TallyFacts(offers, request, now, t, k);
      assert k == first;
      if next < |offers| {
        if offers[next].bid.priority == offers[first].bid.priority {
          assert Rivals(offers, request, now, first, next);
        }
        assert forall i: nat :: next < i < |offers| ==> !Outranks(offers[i], offers[next]);
      }
    }
  }

  // ---------------------------------------------------------------------------
  // Both bounds are reached
  // ---------------------------------------------------------------------------

  const ANYWHERE := AuctionRequest([112], [], [], [], 0)

  /** A bid without targeting whose effective price is its price. */
  function Plain(id: Byte, price: Int64): (o: Offer)
    requires price > 0
    ensures Valid(o.bid) && o == Priced(o.bid, []) && o.price == price && o.bid.id == [id]
    ensures forall request, now :: Qualifies(o, request, now) <==> request.floorMicros <= price
  {
    var bid := Bid([id], 1, [112], [99], [99], [], [], price, 0, [], 0, 10_000, [], [], 0, 0);
    EffectivePriceIsFloor(bid);
    Priced(bid, [])
  }

  function SecondPriceWith(increment: Int64): AuctionPolicy {
    AuctionPolicy(SecondPrice, increment)
  }

  /** The tally of two plain offers of which the first is not behind the second. */
  lemma TwoOffers(a: Offer, b: Offer, request: AuctionRequest, now: Int64)
    requires a.bid.priority == b.bid.priority && Qualifies(a, request, now)
    requires a.price > b.price > 0 || (a.price == b.price > 0 && TextLess(a.bid.id, b.bid.id))
    ensures IsTally([a, b], request, now,
                    if Qualifies(b, request, now) then Tally(Some(a), a.price, b.price, 2)
                    else Tally(Some(a), a.price, 0, 1))
  {
    var offers := [a, b];
    var t := if Qualifies(b, request, now) then Tally(Some(a), a.price, b.price, 2) else Tally(Some(a), a.price, 0, 1);
    assert offers[..1] == [a] && [a][..0] == [];
    assert CountQualified([a], request, now) == 1;
    RanksAheadAsymmetric(a.bid, a.price, b.bid, b.price);
    assert Qualifies(b, request, now) ==> Rivals(offers, request, now, 0, 1);
    assert TallyAt(offers, request, now, t, 0);
  }

  lemma PlainReprices(id: Byte, price: Int64, price': Int64)
    requires price > 0 && price' > 0
    ensures Reprices(Plain(id, price), Plain(id, price'))
    ensures Plain(id, price).bid.priority == 0 && Plain(id, price).bid.floorMicros == 0
  {
  }

  /** For every increment some bidder gains exactly that much by shading its bid. */
  lemma IncentiveBoundIsReached(increment: Int64, now: Int64)
    returns (own: Offer, lie: Offer, rival: Offer, t: Tally, t': Tally)
    requires increment >= 0
    ensures Reprices(own, lie) && own != rival && lie != rival && Valid(own.bid) && Valid(lie.bid) && Valid(rival.bid)
    ensures IsTally([own, rival], ANYWHERE, now, t) && IsTally([lie, rival], ANYWHERE, now, t')
    ensures Surplus(SecondPriceWith(increment), ANYWHERE, t', lie, own.price)
         == Surplus(SecondPriceWith(increment), ANYWHERE, t, own, own.price) + Reach(SecondPriceWith(increment))
  {
    hide Plain;
    hide IsTally;
    hide Qualifies;
    var top := 1 + Reach(SecondPriceWith(increment));
    own, lie, rival := Plain(1, top), Plain(1, 1), Plain(2, 1);
    PlainReprices(1, top, 1);
    PlainReprices(1, 1, 1);
    PlainReprices(2, 1, 1);
    assert TextLess([1], [2]);
    TwoOffers(own, rival, ANYWHERE, now);
    TwoOffers(lie, rival, ANYWHERE, now);
    t, t' := Tally(Some(own), top, 1, 2), Tally(Some(lie), 1, 1, 2);
    ClearingPriceExact(SecondPriceWith(increment), own.bid, top, 1, 0);
    ClearingPriceExact(SecondPriceWith(increment), lie.bid, 1, 1, 0);
  }

  /** For every increment above 1 some higher floor lowers the charge by exactly `FloorSlack`. */
  lemma FloorSlackIsReached(increment: Int64, now: Int64) returns (offers: seq<Offer>, t: Tally, t': Tally)
    requires increment > 1
    ensures IsTally(offers, ANYWHERE, now, t) && IsTally(offers, ANYWHERE.(floorMicros := 2), now, t')
    ensures t.winner.Some? && t'.winner == t.winner
    ensures Charge(SecondPriceWith(increment), ANYWHERE.(floorMicros := 2), t')
         == Charge(SecondPriceWith(increment), ANYWHERE, t) - FloorSlack(SecondPriceWith(increment))
  {
    hide Plain;
    hide IsTally;
    hide Qualifies;
    var top := 1 + Reach(SecondPriceWith(increment));
    var winner, rival := Plain(1, top), Plain(2, 1);
    PlainReprices(1, top, 1);
    PlainReprices(2, 1, 1);
    offers := [winner, rival];
    TwoOffers(winner, rival, ANYWHERE, now);
    TwoOffers(winner, rival, ANYWHERE.(floorMicros := 2), now);
    t, t' := Tally(Some(winner), top, 1, 2), Tally(Some(winner), top, 0, 1);
    ClearingPriceExact(SecondPriceWith(increment), winner.bid, top, 1, 0);
    ClearingPriceExact(SecondPriceWith(increment), winner.bid, top, 0, 2);
  }

  // ---------------------------------------------------------------------------
  // Exactly which policies reward the truth, and which respect a higher floor
  // ---------------------------------------------------------------------------

  /** One bidder, with its true price and with another one, among the same others. */
  ghost predicate Deviation(request: AuctionRequest, now: Int64, before: seq<Offer>, own: Offer, lie: Offer,
                            after: seq<Offer>, t: Tally, t': Tally) {
    && request.floorMicros >= 0
    && Reprices(own, lie) && own !in before && own !in after && lie !in before && lie !in after
    && IsTally(before + [own] + after, request, now, t)
    && IsTally(before + [lie] + after, request, now, t')
  }

  ghost predicate TruthfulIsBest(policy: AuctionPolicy) {
    forall request, now, before, own, lie, after, t, t' :: Deviation(request, now, before, own, lie, after, t, t') ==>
      Surplus(policy, request, t', lie, own.price) <= Surplus(policy, request, t, own, own.price)
  }

  /** In the second-price auction, bidding the true value is best for everyone exactly when the increment is 0. */
  lemma TruthfulIffNoIncrement(policy: AuctionPolicy)
    requires policy.Valid() && policy.pricingModel.SecondPrice?
    ensures TruthfulIsBest(policy) <==> policy.secondPriceIncrementMicros == 0
  {
    hide IsTally;
    hide Surplus;
    hide Plain;
    if policy.secondPriceIncrementMicros == 0 {
      forall request, now, before, own, lie, after, t, t' | Deviation(request, now, before, own, lie, after, t, t')
        ensures Surplus(policy, request, t', lie, own.price) <= Surplus(policy, request, t, own, own.price)
      {
        IncentiveBound(policy, request, now, before, own, lie, after, t, t');
      }
    } else {
      var t, t' := ShadingPays(policy);
      var own, lie, rival := Plain(1, 2), Plain(1, 1), Plain(2, 1);
      assert [] + [own] + [rival] == [own, rival] && [] + [lie] + [rival] == [lie, rival];
      assert Deviation(ANYWHERE, 0, [], own, lie, [rival], t, t');
    }
  }

  lemma ShadingPays(policy: AuctionPolicy) returns (t: Tally, t': Tally)
    requires policy.pricingModel.SecondPrice? && policy.secondPriceIncrementMicros > 0
    ensures var own, lie, rival := Plain(1, 2), Plain(1, 1), Plain(2, 1);
            && Reprices(own, lie) && own != rival && lie != rival
            && IsTally([own, rival], ANYWHERE, 0, t) && IsTally([lie, rival], ANYWHERE, 0, t')
            && Surplus(policy, ANYWHERE, t', lie, own.price) > Surplus(policy, ANYWHERE, t, own, own.price)
  {
    hide Plain;
    hide IsTally;
    hide Qualifies;
    var own, lie, rival := Plain(1, 2), Plain(1, 1), Plain(2, 1);
    PlainReprices(1, 2, 1);
    PlainReprices(1, 1, 1);
    PlainReprices(2, 1, 1);
    assert TextLess([1], [2]);
    TwoOffers(own, rival, ANYWHERE, 0);
    TwoOffers(lie, rival, ANYWHERE, 0);
    t, t' := Tally(Some(own), 2, 1, 2), Tally(Some(lie), 1, 1, 2);
    ClearingPriceExact(policy, own.bid, 2, 1, 0);
    ClearingPriceExact(policy, lie.bid, 1, 1, 0);
  }

  /** The same offers under a floor and under a higher one; both auctions fill. */
  ghost predicate FloorRaise(offers: seq<Offer>, request: AuctionRequest, floor: Int64, now: Int64, t: Tally,
                             t': Tally) {
    && 0 <= request.floorMicros <= floor
    && IsTally(offers, request, now, t) && t.winner.Some?
    && IsTally(offers, request.(floorMicros := floor), now, t') && t'.winner.Some?
  }

  ghost predicate FloorsNeverLowerCharges(policy: AuctionPolicy) {
    forall offers, request, floor, now, t, t' :: FloorRaise(offers, request, floor, now, t, t') ==>
      Charge(policy, request.(floorMicros := floor), t') >= Charge(policy, request, t)
  }

  /** A higher floor never lowers a charge exactly under first price, or with an increment of at most 1. */
  lemma FloorsNeverLowerChargesIff(policy: AuctionPolicy)
    requires policy.Valid()
    ensures FloorsNeverLowerCharges(policy) <==>
            policy.pricingModel.FirstPrice? || policy.secondPriceIncrementMicros <= 1
  {
    hide IsTally;
    hide Charge;
    hide Plain;
    if policy.pricingModel.FirstPrice? || policy.secondPriceIncrementMicros <= 1 {
      forall offers, request, floor, now, t, t' | FloorRaise(offers, request, floor, now, t, t')
        ensures Charge(policy, request.(floorMicros := floor), t') >= Charge(policy, request, t)
      {
        FloorMonotone(policy, offers, request, floor, now, t, t');
      }
    } else {
      var t, t' := FloorLowersCharge(policy);
      assert FloorRaise([Plain(1, 3), Plain(2, 1)], ANYWHERE, 2, 0, t, t');
    }
  }

  lemma FloorLowersCharge(policy: AuctionPolicy) returns (t: Tally, t': Tally)
    requires policy.pricingModel.SecondPrice? && policy.secondPriceIncrementMicros > 1
    ensures var offers := [Plain(1, 3), Plain(2, 1)];
            && IsTally(offers, ANYWHERE, 0, t) && t.winner.Some?
            && IsTally(offers, ANYWHERE.(floorMicros := 2), 0, t') && t'.winner.Some?
            && Charge(policy, ANYWHERE.(floorMicros := 2), t') < Charge(policy, ANYWHERE, t)
  {
    hide Plain;
    hide IsTally;
    hide Qualifies;
    var winner, rival := Plain(1, 3), Plain(2, 1);
    PlainReprices(1, 3, 1);
    PlainReprices(2, 1, 1);
    TwoOffers(winner, rival, ANYWHERE, 0);
    TwoOffers(winner, rival, ANYWHERE.(floorMicros := 2), 0);
    t, t' := Tally(Some(winner), 3, 1, 2), Tally(Some(winner), 3, 0, 1);
    ClearingPriceExact(policy, winner.bid, 3, 1, 0);
    ClearingPriceExact(policy, winner.bid, 3, 0, 2);
  }
}
