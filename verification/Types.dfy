/**
The records of the ad server and the checks that guard them.

A Go string is a sequence of bytes: its length counts bytes and `<` compares
bytes. A Go int64 keeps its value between two bounds and wraps around when an
operation leaves them; `Wrap64` writes that wrap-around out.
*/
module Types {

  newtype Byte = b: int | 0 <= b < 256

  type Text = seq<Byte>

  const INT64_MIN: int := -0x8000_0000_0000_0000
  const INT64_MAX: int := 0x7FFF_FFFF_FFFF_FFFF

  type Int64 = n: int | INT64_MIN <= n <= INT64_MAX

  type Uint64 = n: int | 0 <= n <= 0xFFFF_FFFF_FFFF_FFFF

  datatype Option<+T> = None | Some(value: T)

  /** The int64 that Go keeps of an integer result. */
  function Wrap64(n: int): Int64 {
    if INT64_MIN <= n <= INT64_MAX then n
    else (n + 0x8000_0000_0000_0000) % 0x1_0000_0000_0000_0000 - 0x8000_0000_0000_0000
  }

  /** Go's `/`: the quotient is cut toward zero. */
  function TruncDiv(a: int, b: int): int
    requires b > 0
  {
    if a >= 0 then a / b else -((-a) / b)
  }

  /** Go's `%`: the remainder has the sign of the dividend. */
  function TruncMod(a: int, b: int): int
    requires b > 0
  {
    a - b * TruncDiv(a, b)
  }

  function Max(a: int, b: int): int {
    if a >= b then a else b
  }

  function Min(a: int, b: int): int {
    if a <= b then a else b
  }

  // ---------------------------------------------------------------------------
  // Byte order of strings
  // ---------------------------------------------------------------------------

  predicate TextLess(a: Text, b: Text) {
    |b| > 0 && (|a| == 0 || a[0] < b[0] || (a[0] == b[0] && TextLess(a[1..], b[1..])))
  }

  lemma {:induction false} TextLessTotal(a: Text, b: Text)
    ensures a == b ==> !TextLess(a, b) && !TextLess(b, a)
    ensures a != b ==> TextLess(a, b) != TextLess(b, a)
  {
    if |a| > 0 && |b| > 0 && a[0] == b[0] {
      TextLessTotal(a[1..], b[1..]);
      assert a == [a[0]] + a[1..] && b == [b[0]] + b[1..];
    }
  }

  lemma {:induction false} TextLessTransitive(a: Text, b: Text, c: Text)
    requires TextLess(a, b) && TextLess(b, c)
    ensures TextLess(a, c)
  {
    if |a| > 0 && a[0] == b[0] == c[0] {
      TextLessTransitive(a[1..], b[1..], c[1..]);
    }
  }

  /** The texts part at i: one ends there, or has the lower byte. */
  predicate PartsAt(a: Text, b: Text, i: nat) {
    i <= |a| && i < |b| && a[..i] == b[..i] && (i == |a| || a[i] < b[i])
  }

  /** The order of Go strings: a proper prefix comes first, else the first different byte decides. */
  lemma {:induction false} TextLessIff(a: Text, b: Text)
    ensures TextLess(a, b) <==> exists i: nat :: PartsAt(a, b, i)
  {
    if |a| == 0 || |b| == 0 || a[0] != b[0] {
      assert |b| > 0 && (|a| == 0 || a[0] < b[0]) ==> PartsAt(a, b, 0);
      assert forall i: nat :: PartsAt(a, b, i) && i > 0 ==> a[..i][0] == b[..i][0];
    } else {
      TextLessIff(a[1..], b[1..]);
      if TextLess(a, b) {
        var i: nat :| PartsAt(a[1..], b[1..], i);
        assert a[..i + 1] == [a[0]] + a[1..][..i] && b[..i + 1] == [b[0]] + b[1..][..i];
        assert PartsAt(a, b, i + 1);
      }
      if i: nat :| PartsAt(a, b, i) {
        assert a[1..][..i - 1] == a[..i][1..] && b[1..][..i - 1] == b[..i][1..];
        assert PartsAt(a[1..], b[1..], i - 1);
      }
    }
  }

  // ---------------------------------------------------------------------------
  // Bids and requests
  // ---------------------------------------------------------------------------

  datatype Bid = Bid(
    id: Text,
    revision: Uint64,
    placementId: Text,
    campaignId: Text,
    creativeId: Text,
    markup: Text,
    clickUrl: Text,
    priceMicros: Int64,
    floorMicros: Int64,
    dealId: Text,
    priority: Int64,
    pacingBps: Int64,
    countries: seq<Text>,
    devices: seq<Text>,
    activeFromUnix: Int64,
    activeToUnix: Int64)

  datatype BidError = MissingField | FieldTooLong | BadPrice | BadWindow | BadPriority | BadPacing

  const OPEN_BRACE: Byte := 123
  const CLOSE_BRACE: Byte := 125

  /** The first check a bid fails, in the order in which the server tests them. */
  function Check(b: Bid, requireRevision: bool): Option<BidError> {
    if b.id == [] || (requireRevision && b.revision == 0) || b.placementId == []
       || b.campaignId == [] || b.creativeId == [] then
      Some(MissingField)
    else if (requireRevision && b.revision > INT64_MAX) || |b.id| > 128 || |b.placementId| > 128
            || OPEN_BRACE in b.placementId || CLOSE_BRACE in b.placementId
            || |b.markup| > 65536 || |b.clickUrl| > 4096 || |b.dealId| > 128 then
      Some(FieldTooLong)
    else if b.priceMicros <= 0 || b.floorMicros < 0 || b.priceMicros < b.floorMicros then
      Some(BadPrice)
    else if b.activeToUnix != 0 && b.activeFromUnix > b.activeToUnix then
      Some(BadWindow)
    else if b.priority < 0 || b.priority > 1000 || (b.priority > 0 && b.dealId == []) then
      Some(BadPriority)
    else if b.pacingBps < 1 || b.pacingBps > 10_000 then
      Some(BadPacing)
    else
      None
  }

  predicate Valid(b: Bid) {
    Check(b, true).None?
  }

  predicate ValidDynamic(b: Bid) {
    Check(b, false).None?
  }

  function Normalize(b: Bid): Bid {
    if b.pacingBps == 0 then b.(pacingBps := 10_000) else b
  }

  datatype AuctionRequest = AuctionRequest(
    placementId: Text,
    userId: Text,
    country: Text,
    device: Text,
    floorMicros: Int64)
  {
    predicate Valid() {
      placementId != [] && |placementId| <= 128 && |userId| <= 256 && |country| <= 16 && |device| <= 64
      && floorMicros >= 0
    }
  }

  datatype PricingModel = FirstPrice | SecondPrice | OtherModel

  datatype AuctionPolicy = AuctionPolicy(pricingModel: PricingModel, secondPriceIncrementMicros: Int64)
  {
    predicate Valid() {
      !pricingModel.OtherModel? && secondPriceIncrementMicros >= 0
    }
  }

  const DEFAULT_POLICY := AuctionPolicy(FirstPrice, 1)

  /** The policy of a new auctioneer: the default in place of an invalid one. */
  function PolicyInForce(policy: AuctionPolicy): (p: AuctionPolicy)
    ensures p.Valid()
    ensures policy.Valid() ==> p == policy
    ensures !policy.Valid() ==> p.pricingModel.FirstPrice? && p.secondPriceIncrementMicros == 1
  {
    if policy.Valid() then policy else DEFAULT_POLICY
  }

  /** What an auction learns about the snapshot it reads. */
  datatype SnapshotState = SnapshotState(found: bool, stale: bool, rejectStale: bool, age: int)
}
