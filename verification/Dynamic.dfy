/**
DSP bids on their way into an auction (dynamic_bidding.go): cache keys, bidder
namespaces, the sanitizer, and why deals in Redis are out of their reach.
*/
module Dynamic {
  import opened Types
  import opened Pricing
  import opened Auction
  import opened Economics
  import opened DynamicCache

  const SEPARATOR: Byte := 0x1f
  const COLON: Byte := 58
  const MINUS: Byte := 45
  const ZERO: Byte := 48

  // ---------------------------------------------------------------------------
  // Cache keys
  // ---------------------------------------------------------------------------

  function Digits(n: nat): Text {
    if n < 10 then [(48 + n) as Byte] else Digits(n / 10) + [(48 + n % 10) as Byte]
  }

  /** strconv.FormatInt in base 10. */
  function FormatInt(n: int): Text {
    if n < 0 then [MINUS] + Digits(-n) else Digits(n)
  }

  function CacheKey(r: AuctionRequest): Text {
    r.placementId + [SEPARATOR] + r.country + [SEPARATOR] + r.device + [SEPARATOR] + FormatInt(r.floorMicros)
  }

  lemma {:induction false} DigitsAreDigits(n: nat)
    ensures Digits(n) != [] && forall c :: c in Digits(n) ==> 48 <= c <= 57
  {
    if n < 10 {
    } else {
      DigitsAreDigits(n / 10);
    }
  }

  lemma {:induction false} DigitsInjective(m: nat, n: nat)
    requires Digits(m) == Digits(n)
    ensures m == n
  {
    DigitsAreDigits(m / 10);
    DigitsAreDigits(n / 10);
    var a, b := Digits(m), Digits(n);
    assert a[|a| - 1] == (48 + m % 10) as Byte && b[|b| - 1] == (48 + n % 10) as Byte;
    if m >= 10 && n >= 10 {
      assert a[..|a| - 1] == Digits(m / 10) && b[..|b| - 1] == Digits(n / 10);
      DigitsInjective(m / 10, n / 10);
    }
  }

  lemma SignFirst(n: int)
    ensures FormatInt(n) != [] && (FormatInt(n)[0] == MINUS <==> n < 0)
  {
    if n >= 0 {
      DigitsAreDigits(n);
      assert Digits(n)[0] in Digits(n);
    }
  }

  lemma FormatIntInjective(m: int, n: int)
    requires FormatInt(m) == FormatInt(n)
    ensures m == n
  {
    SignFirst(m);
    SignFirst(n);
    if m < 0 {
      assert FormatInt(m)[1..] == Digits(-m) && FormatInt(n)[1..] == Digits(-n);
      DigitsInjective(-m, -n);
    } else {
      DigitsInjective(m, n);
    }
  }

  lemma FormatIntHasNoSeparator(n: int)
    ensures SEPARATOR !in FormatInt(n)
  {
    DigitsAreDigits(if n < 0 then -n else n);
  }

  /** Parts behind the last separator are equal, and so is what stands before it. */
  lemma SplitLast(a: Text, x: Text, b: Text, y: Text, c: Byte)
    requires a + [c] + x == b + [c] + y && c !in x && c !in y
    ensures a == b && x == y
  {
    var s := a + [c] + x;
    assert s[|a|] == c && s[|b|] == c;
    assert forall i :: |a| < i < |s| ==> s[i] == x[i - |a| - 1];
    assert forall i :: |b| < i < |s| ==> s[i] == y[i - |b| - 1];
    assert |a| == |b|;
    assert s[..|a|] == a && s[..|b|] == b && s[|a| + 1..] == x && s[|b| + 1..] == y;
  }

  /** The same for the first separator. */
  lemma SplitFirst(a: Text, x: Text, b: Text, y: Text, c: Byte)
    requires a + [c] + x == b + [c] + y && c !in a && c !in b
    ensures a == b && x == y
  {
    var s := a + [c] + x;
    assert s[|a|] == c && s[|b|] == c;
    assert forall i :: 0 <= i < |a| ==> s[i] == a[i];
    assert forall i :: 0 <= i < |b| ==> s[i] == b[i];
    assert |a| == |b|;
    assert s[..|a|] == a && s[..|b|] == b && s[|a| + 1..] == x && s[|b| + 1..] == y;
  }

  /** Requests with different floors never share a key, whatever their fields hold. */
  lemma KeysSeparateFloors(r: AuctionRequest, r': AuctionRequest)
    requires CacheKey(r) == CacheKey(r')
    ensures r.floorMicros == r'.floorMicros
    ensures r.placementId + [SEPARATOR] + r.country + [SEPARATOR] + r.device
         == r'.placementId + [SEPARATOR] + r'.country + [SEPARATOR] + r'.device
  {
    FormatIntHasNoSeparator(r.floorMicros);
    FormatIntHasNoSeparator(r'.floorMicros);
    SplitLast(r.placementId + [SEPARATOR] + r.country + [SEPARATOR] + r.device, FormatInt(r.floorMicros),
              r'.placementId + [SEPARATOR] + r'.country + [SEPARATOR] + r'.device,
              FormatInt(r'.floorMicros), SEPARATOR);
    FormatIntInjective(r.floorMicros, r'.floorMicros);
  }

  /** Country and device leave the separator alone; the placement may hold anything. */
  predicate Separable(r: AuctionRequest) {
    SEPARATOR !in r.country && SEPARATOR !in r.device
  }

  /** Everything that a DSP is told about a request. */
  predicate SameTargeting(r: AuctionRequest, r': AuctionRequest) {
    r.placementId == r'.placementId && r.country == r'.country
    && r.device == r'.device && r.floorMicros == r'.floorMicros
  }

  lemma KeysSeparateRequests(r: AuctionRequest, r': AuctionRequest)
    requires Separable(r) && Separable(r')
    ensures CacheKey(r) == CacheKey(r') <==> SameTargeting(r, r')
  {
    if CacheKey(r) == CacheKey(r') {
      KeysSeparateFloors(r, r');
      SplitLast(r.placementId + [SEPARATOR] + r.country, r.device,
                r'.placementId + [SEPARATOR] + r'.country, r'.device, SEPARATOR);
      SplitLast(r.placementId, r.country, r'.placementId, r'.country, SEPARATOR);
    }
  }

  /** Everything in the key but the floor. */
  function Joined(r: AuctionRequest): Text {
    r.placementId + [SEPARATOR] + r.country + [SEPARATOR] + r.device
  }

  /**
  A separator in the country or the device can be taken for the one before: the
  text in front moves one field left.
  */
  lemma ShiftLeft(r: AuctionRequest) returns (r': AuctionRequest)
    requires !Separable(r)
    ensures CacheKey(r') == CacheKey(r) && r'.placementId != r.placementId
    ensures r.Valid() && |r.placementId| + 1 + |r.country| <= 128 && |r.device| <= 16 ==> r'.Valid()
  {
    if SEPARATOR in r.country {
      var i :| 0 <= i < |r.country| && r.country[i] == SEPARATOR;
      var before, after := r.country[..i], r.country[i + 1..];
      assert r.country == before + [SEPARATOR] + after;
      r' := r.(placementId := r.placementId + [SEPARATOR] + before, country := after);
      assert |r'.placementId| > |r.placementId|;
    } else {
      var i :| 0 <= i < |r.device| && r.device[i] == SEPARATOR;
      var before, after := r.device[..i], r.device[i + 1..];
      assert r.device == before + [SEPARATOR] + after;
      r' := r.(placementId := r.placementId + [SEPARATOR] + r.country, country := before, device := after);
      assert |r'.placementId| > |r.placementId|;
    }
    assert Joined(r') == Joined(r);
  }

  /** The same to the right, for a separator in the placement. */
  lemma ShiftRight(r: AuctionRequest) returns (r': AuctionRequest)
    requires SEPARATOR in r.placementId
    ensures CacheKey(r') == CacheKey(r) && r'.placementId != r.placementId
  {
    var i :| 0 <= i < |r.placementId| && r.placementId[i] == SEPARATOR;
    var before, after := r.placementId[..i], r.placementId[i + 1..];
    assert r.placementId == before + [SEPARATOR] + after;
    r' := r.(placementId := before, country := after, device := r.country + [SEPARATOR] + r.device);
    assert |r'.placementId| < |r.placementId|;
    assert Joined(r') == Joined(r);
  }

  ghost predicate OwnsItsKey(r: AuctionRequest) {
    forall r' :: CacheKey(r') == CacheKey(r) ==> SameTargeting(r, r')
  }

  function Separators(t: Text): nat {
    multiset(t)[SEPARATOR]
  }

  /** Nothing else has a request's key exactly when none of its three texts holds the separator. */
  lemma OwnsItsKeyIff(r: AuctionRequest)
    ensures OwnsItsKey(r) <==> Separable(r) && SEPARATOR !in r.placementId
  {
    if !Separable(r) {
      var r' := ShiftLeft(r);
    } else if SEPARATOR in r.placementId {
      var r' := ShiftRight(r);
    } else {
      forall r' | CacheKey(r') == CacheKey(r)
        ensures SameTargeting(r, r')
      {
        KeysSeparateFloors(r, r');
        assert Separators(Joined(r)) == 2;
        assert Separators(Joined(r')) ==
              2 + Separators(r'.placementId) + Separators(r'.country) + Separators(r'.device);
        KeysSeparateRequests(r, r');
      }
    }
  }

  /** The text without its last separated part, and that part. */
  function CutLast(t: Text): (cut: (Text, Text))
    requires SEPARATOR in t
    ensures t == cut.0 + [SEPARATOR] + cut.1 && SEPARATOR !in cut.1
  {
    var n := |t| - 1;
    if t[n] == SEPARATOR then
      assert t == t[..n] + [SEPARATOR] + [];
      (t[..n], [])
    else
      assert t == t[..n] + [t[n]];
      var cut := CutLast(t[..n]);
      assert t == cut.0 + [SEPARATOR] + (cut.1 + [t[n]]);
      (cut.0, cut.1 + [t[n]])
  }

  /** The one request with the same key whose country and device leave the separator alone. */
  function Canonical(r: AuctionRequest): (c: AuctionRequest)
    ensures Separable(c) && Joined(c) == Joined(r) && c.floorMicros == r.floorMicros
  {
    var last := CutLast(Joined(r));
    assert SEPARATOR in last.0 by {
      assert Separators(Joined(r)) == Separators(last.0) + 1 + Separators(last.1);
      assert Separators(Joined(r)) == 2 + Separators(r.placementId) + Separators(r.country) + Separators(r.device);
    }
    var middle := CutLast(last.0);
    r.(placementId := middle.0, country := middle.1, device := last.1)
  }

  lemma CanonicalHasTheKey(r: AuctionRequest)
    ensures CacheKey(Canonical(r)) == CacheKey(r)
  {
    hide Canonical;
    assert CacheKey(r) == Joined(r) + [SEPARATOR] + FormatInt(r.floorMicros);
    var c := Canonical(r);
    assert CacheKey(c) == Joined(c) + [SEPARATOR] + FormatInt(c.floorMicros);
  }

  /** Exactly which requests share a key: those with one canonical form. */
  lemma KeysAgreeIff(r: AuctionRequest, r': AuctionRequest)
    ensures CacheKey(r) == CacheKey(r') <==> SameTargeting(Canonical(r), Canonical(r'))
  {
    hide Canonical;
    CanonicalHasTheKey(r);
    CanonicalHasTheKey(r');
    KeysSeparateRequests(Canonical(r), Canonical(r'));
  }

  /** A request is its own canonical form exactly when its country and device leave the separator alone. */
  lemma SeparableIffCanonical(r: AuctionRequest)
    ensures Separable(r) <==> SameTargeting(r, Canonical(r))
  {
    hide Canonical;
    CanonicalHasTheKey(r);
    if Separable(r) {
      KeysSeparateRequests(r, Canonical(r));
    }
  }

  /** Two valid requests for different placements with one key. */
  lemma KeysCanCollide() returns (r: AuctionRequest, r': AuctionRequest)
    ensures r.Valid() && r'.Valid() && r.placementId != r'.placementId && CacheKey(r) == CacheKey(r')
  {
    r := AuctionRequest([97, SEPARATOR, 98], [], [99], [], 0);
    r' := AuctionRequest([97], [], [98], [99, SEPARATOR], 0);
    assert r.placementId[1] == SEPARATOR;
    assert CacheKey(r) == [97, SEPARATOR, 98, SEPARATOR, 99, SEPARATOR, SEPARATOR, 48];
    assert CacheKey(r') == [97, SEPARATOR, 98, SEPARATOR, 99, SEPARATOR, SEPARATOR, 48];
  }

  // ---------------------------------------------------------------------------
  // Bidder IDs
  // ---------------------------------------------------------------------------

  predicate BidderChar(c: Byte) {
    97 <= c <= 122 || 65 <= c <= 90 || 48 <= c <= 57 || c == 45 || c == 95 || c == 46
  }

  ghost predicate BidderId(id: Text) {
    1 <= |id| <= 64 && forall i :: 0 <= i < |id| ==> BidderChar(id[i])
  }

  method ValidBidderID(id: Text) returns (valid: bool)
    ensures valid <==> BidderId(id)
  {
    if id == [] || |id| > 64 {
      return false;
    }
    for i := 0 to |id|
      invariant forall k :: 0 <= k < i ==> BidderChar(id[k])
    {
      if !BidderChar(id[i]) {
        return false;
      }
    }
    return true;
  }

  function Namespaced(bidderId: Text, id: Text): Text {
    bidderId + [COLON] + id
  }

  /** Bids of different bidders, and different bids of one bidder, have different IDs. */
  lemma NamespacesAreDisjoint(bidder: Text, id: Text, bidder': Text, id': Text)
    requires BidderId(bidder) && BidderId(bidder')
    ensures Namespaced(bidder, id) == Namespaced(bidder', id') <==> bidder == bidder' && id == id'
  {
    if Namespaced(bidder, id) == Namespaced(bidder', id') {
      SplitFirst(bidder, id, bidder', id', COLON);
    }
  }

  // ---------------------------------------------------------------------------
  // The sanitizer
  // ---------------------------------------------------------------------------

  function Cleaned(bidderId: Text, bid: Bid): Bid {
    Normalize(bid).(revision := 0, priority := 0, dealId := [], id := Namespaced(bidderId, bid.id))
  }

  predicate Kept(bidderId: Text, placement: Text, bid: Bid) {
    bid.placementId == placement && ValidDynamic(Cleaned(bidderId, bid))
  }

  /** Only pacing, revision, priority, deal and ID change; an omitted pacing means full pacing. */
  lemma CleanedInFields(bidderId: Text, bid: Bid)
    ensures var clean := Cleaned(bidderId, bid);
            && clean.priceMicros == bid.priceMicros && clean.floorMicros == bid.floorMicros
            && clean.placementId == bid.placementId
            && clean.campaignId == bid.campaignId && clean.creativeId == bid.creativeId
            && clean.markup == bid.markup && clean.clickUrl == bid.clickUrl
            && clean.countries == bid.countries && clean.devices == bid.devices
            && clean.activeFromUnix == bid.activeFromUnix && clean.activeToUnix == bid.activeToUnix
            && clean.pacingBps == (if bid.pacingBps == 0 then 10_000 else bid.pacingBps)
            && clean.revision == 0 && clean.priority == 0 && clean.dealId == []
            && clean.id == bidderId + [COLON] + bid.id
  {
  }

  /** Exactly which bids of a bidder stay: no revision, priority or deal is asked for, and the ID may be empty. */
  lemma KeptIff(bidderId: Text, placement: Text, bid: Bid)
    ensures Kept(bidderId, placement, bid) <==>
              && bid.placementId == placement
              && 1 <= |placement| <= 128 && OPEN_BRACE !in placement && CLOSE_BRACE !in placement
              && |bidderId| + 1 + |bid.id| <= 128
              && bid.campaignId != [] && bid.creativeId != []
              && |bid.markup| <= 65536 && |bid.clickUrl| <= 4096
              && bid.priceMicros > 0 && 0 <= bid.floorMicros <= bid.priceMicros
              && (bid.activeToUnix == 0 || bid.activeFromUnix <= bid.activeToUnix)
              && 0 <= bid.pacingBps <= 10_000
  {
  }

  /** The bids that stay, cleaned, in the order of the response. */
  function Sanitized(bidderId: Text, placement: Text, bids: seq<Bid>): seq<DynamicBid> {
    if bids == [] then []
    else
      var n := |bids| - 1;
      Sanitized(bidderId, placement, bids[..n])
      + (if Kept(bidderId, placement, bids[n]) then [DynamicBid(Cleaned(bidderId, bids[n]), bidderId)] else [])
  }

  /** Each bid is treated alone and keeps its place. */
  lemma {:induction false} SanitizedAppend(bidderId: Text, placement: Text, a: seq<Bid>, b: seq<Bid>)
    ensures Sanitized(bidderId, placement, a + b)
         == Sanitized(bidderId, placement, a) + Sanitized(bidderId, placement, b)
    decreases |b|
  {
    hide Kept;
    hide Cleaned;
    if b == [] {
      assert a + b == a;
    } else {
      var n := |b| - 1;
      SanitizedAppend(bidderId, placement, a, b[..n]);
      assert (a + b)[..|a + b| - 1] == a + b[..n];
    }
  }

  lemma SanitizedOne(bidderId: Text, placement: Text, bid: Bid)
    ensures Sanitized(bidderId, placement, [bid])
         == if Kept(bidderId, placement, bid) then [DynamicBid(Cleaned(bidderId, bid), bidderId)] else []
  {
    assert [bid][..0] == [];
  }

  method SanitizeDynamicBids(bidderId: Text, placement: Text, bids: seq<Bid>) returns (clean: seq<DynamicBid>)
    ensures clean == Sanitized(bidderId, placement, bids)
  {
    clean := [];
    for i := 0 to |bids|
      invariant clean == Sanitized(bidderId, placement, bids[..i])
    {
      assert bids[..i + 1][..i] == bids[..i];
      var bid := Normalize(bids[i]);
      bid := bid.(revision := 0);
      bid := bid.(priority := 0, dealId := []);
      if bid.placementId != placement {
        continue;
      }
      bid := bid.(id := bidderId + [COLON] + bid.id);
      if Check(bid, false).Some? {
        continue;
      }
      clean := clean + [DynamicBid(bid, bidderId)];
    }
    assert bids[..|bids|] == bids;
  }

  /** What every DSP offer for a placement looks like, whoever sent whatever. */
  predicate DspOffer(o: DynamicBid, placement: Text) {
    && ValidDynamic(o.bid)
    && o.bid.placementId == placement
    && o.bid.priority == 0 && o.bid.dealId == [] && o.bid.revision == 0
    && o.bidderId != [] && Namespaced(o.bidderId, []) <= o.bid.id
  }

  /** The sanitizer keeps exactly the bids that pass, and only offers of that look come out. */
  lemma {:induction false} SanitizerOutput(bidderId: Text, placement: Text, bids: seq<Bid>)
    requires BidderId(bidderId)
    ensures forall o :: o in Sanitized(bidderId, placement, bids) ==> DspOffer(o, placement) && o.bidderId == bidderId
    ensures forall o :: o in Sanitized(bidderId, placement, bids) <==>
              exists b :: b in bids && Kept(bidderId, placement, b) && o == DynamicBid(Cleaned(bidderId, b), bidderId)
  {
    hide ValidDynamic;
    if bids == [] {
    } else {
      var n := |bids| - 1;
      SanitizerOutput(bidderId, placement, bids[..n]);
      assert forall b :: b in bids <==> b in bids[..n] || b == bids[n];
    }
  }

  datatype BidderResult = BidderResult(bids: seq<DynamicBid>, success: bool)

  /** The bids of the successful results, in the order of their arrival. */
  function Merged(results: seq<BidderResult>): seq<DynamicBid> {
    if results == [] then []
    else
      var n := |results| - 1;
      Merged(results[..n]) + (if results[n].success then results[n].bids else [])
  }

  /** Results follow one another in the list, each as it is or not at all. */
  lemma {:induction false} MergedAppend(a: seq<BidderResult>, b: seq<BidderResult>)
    ensures Merged(a + b) == Merged(a) + Merged(b)
    decreases |b|
  {
    if b == [] {
      assert a + b == a;
    } else {
      var n := |b| - 1;
      MergedAppend(a, b[..n]);
      assert (a + b)[..|a + b| - 1] == a + b[..n];
    }
  }

  lemma MergedOne(result: BidderResult)
    ensures Merged([result]) == if result.success then result.bids else []
  {
    assert [result][..0] == [];
  }

  predicate AnySuccess(results: seq<BidderResult>) {
    exists r :: r in results && r.success
  }

  /** An offer is in the merged list exactly when a successful result holds it. */
  lemma {:induction false} MergedOffers(results: seq<BidderResult>, o: DynamicBid)
    ensures o in Merged(results) <==> exists r :: r in results && r.success && o in r.bids
  {
    if results == [] {
    } else {
      var n := |results| - 1;
      MergedOffers(results[..n], o);
      assert forall r :: r in results <==> r in results[..n] || r == results[n];
    }
  }

  /** The end of refresh: results in the order of their arrival become one list and its lifetime. */
  method Merge(results: seq<BidderResult>, cacheTtl: int, failureTtl: int) returns (bids: seq<DynamicBid>, ttl: int)
    ensures bids == Merged(results)
    ensures ttl == if AnySuccess(results) then cacheTtl else failureTtl
  {
    bids := [];
    var success := false;
    for i := 0 to |results|
      invariant bids == Merged(results[..i])
      invariant success <==> AnySuccess(results[..i])
    {
      assert results[..i + 1][..i] == results[..i];
      assert forall r :: r in results[..i + 1] <==> r in results[..i] || r == results[i];
      if results[i].success {
        success := true;
        bids := bids + results[i].bids;
      }
    }
    assert results[..|results|] == results;
    ttl := failureTtl;
    if success {
      ttl := cacheTtl;
    }
  }

  // ---------------------------------------------------------------------------
  // Deals are out of reach
  // ---------------------------------------------------------------------------

  /** When a deal wins among the Redis bids, DSP offers change neither winner nor any price. */
  lemma DealIsolation(policy: AuctionPolicy, bids: seq<Bid>, dynamic: seq<DynamicBid>, placement: Text,
                      request: AuctionRequest, now: Int64, t: Tally, t': Tally)
    requires request.floorMicros >= 0
    requires IsTally(StaticOffers(bids), request, now, t) && t.winner.Some? && t.winner.value.bid.priority > 0
    requires IsTally(Offers(bids, dynamic), request, now, t')
    requires forall o :: o in dynamic ==> DspOffer(o, placement)
    ensures t'.winner == t.winner && t'.winnerPrice == t.winnerPrice && t'.runnerUpPrice == t.runnerUpPrice
    ensures Charge(policy, request, t') == Charge(policy, request, t)
  {
    hide IsTally;
    hide ValidDynamic;
    forall i | 0 <= i < |dynamic|
      ensures dynamic[i].bid.priority == 0
    {
      assert dynamic[i] in dynamic;
    }
    LowerPriorityDoesNotInterfere(StaticOffers(bids), DynamicOffers(dynamic), request, now, t, t');
  }

  /** A DSP offer wins only when no deal in Redis qualifies. */
  lemma DynamicWinMeansNoDeal(bids: seq<Bid>, dynamic: seq<DynamicBid>, placement: Text, request: AuctionRequest,
                              now: Int64, t: Tally)
    requires request.floorMicros >= 0
    requires IsTally(Offers(bids, dynamic), request, now, t)
    requires forall o :: o in dynamic ==> DspOffer(o, placement)
    requires t.winner.Some? && t.winner.value.bidderId != []
    ensures forall b :: b in bids && Qualifies(Priced(b, []), request, now) ==> b.priority <= 0
  {
    hide ValidDynamic;
    var offers := Offers(bids, dynamic);
    var k: nat :| TallyAt(offers, request, now, t, k);
    assert k >= |bids|;
    assert dynamic[k - |bids|] in dynamic;
    TallyFacts(offers, request, now, t, k);
    forall b | b in bids && Qualifies(Priced(b, []), request, now)
      ensures b.priority <= 0
    {
      var i: nat :| i < |bids| && bids[i] == b;
      assert offers[i] == Priced(b, []);
    }
  }
}
