/**
Lua's `tonumber` reads a revision as a double. `Double` is the integer that the
double nearest to n stands for (ties to even); the bid scripts compare these.
*/
module LuaNumbers {

  const EXACT_LIMIT: nat := 0x20_0000_0000_0000   // 2 to the power 53

  function Double(n: nat): nat {
    if n < EXACT_LIMIT then n else Rounded(n, false)
  }

  /**
  Drops bits until 53 are left and rounds on the last bit dropped; `inexact`
  says that some bit dropped before was set.
  */
  function Rounded(n: nat, inexact: bool): nat
    requires n >= EXACT_LIMIT
  {
    var half, bit := n / 2, n % 2 == 1;
    if half < EXACT_LIMIT then 2 * (if bit && (inexact || half % 2 == 1) then half + 1 else half)
    else 2 * Rounded(half, inexact || bit)
  }

  lemma {:induction false} RoundedBounds(n: nat, inexact: bool)
    requires n >= EXACT_LIMIT
    ensures Rounded(n, inexact) >= EXACT_LIMIT
    ensures n < 2 * EXACT_LIMIT ==> Rounded(n, inexact) <= 2 * EXACT_LIMIT
  {
    if n / 2 < EXACT_LIMIT {
    } else {
      RoundedBounds(n / 2, inexact || n % 2 == 1);
    }
  }

  lemma {:induction false} RoundedMonotone(a: nat, inexactA: bool, b: nat, inexactB: bool)
    requires EXACT_LIMIT <= a <= b && (a == b && inexactA ==> inexactB)
    ensures Rounded(a, inexactA) <= Rounded(b, inexactB)
  {
    if a / 2 >= EXACT_LIMIT {
      RoundedMonotone(a / 2, inexactA || a % 2 == 1, b / 2, inexactB || b % 2 == 1);
    } else if b / 2 >= EXACT_LIMIT {
      RoundedBounds(a, inexactA);
      RoundedBounds(b / 2, inexactB || b % 2 == 1);
    }
  }

  /** Rounding keeps the order of revisions. */
  lemma DoubleMonotone(a: nat, b: nat)
    requires a <= b
    ensures Double(a) <= Double(b)
  {
    if a >= EXACT_LIMIT {
      RoundedMonotone(a, false, b, false);
    } else if b >= EXACT_LIMIT {
      RoundedBounds(b, false);
    }
  }

  /** Up to 2^53 a double holds the revision itself. */
  lemma DoubleExact(n: nat)
    requires n <= EXACT_LIMIT
    ensures Double(n) == n
  {
  }

  /** The integers with a significand of 53 bits. */
  predicate Representable(m: nat) {
    m <= EXACT_LIMIT || (m % 2 == 0 && Representable(m / 2))
  }

  /** The last of the 53 bits is 0. */
  predicate EvenSignificand(m: nat) {
    if m < EXACT_LIMIT then m % 2 == 0 else EvenSignificand(m / 2)
  }

  function Distance(x: real, m: nat): real {
    if x >= m as real then x - m as real else m as real - x
  }

  /** No number m is nearer to x than r; if one is as near, the last bit of r is 0. */
  predicate Nearest(x: real, r: nat, m: nat) {
    && Distance(x, r) <= Distance(x, m)
    && (Distance(x, r) == Distance(x, m) && m != r ==> EvenSignificand(r))
  }

  /** `rest` is what the bits dropped so far stand for. */
  lemma {:induction false} RoundedIsNearest(n: nat, rest: real, m: nat)
    requires n >= EXACT_LIMIT && 0.0 <= rest < 1.0 && Representable(m)
    ensures Representable(Rounded(n, rest > 0.0)) && Nearest(n as real + rest, Rounded(n, rest > 0.0), m)
    decreases n, 1
  {
    if m % 2 == 0 {
      RoundedIsNearestEven(n, rest, m);
    } else {
      hide Rounded;
      RoundedIsNearestEven(n, rest, EXACT_LIMIT);
    }
  }

  lemma {:induction false} RoundedIsNearestEven(n: nat, rest: real, m: nat)
    requires n >= EXACT_LIMIT && 0.0 <= rest < 1.0 && Representable(m) && m % 2 == 0
    ensures Representable(Rounded(n, rest > 0.0)) && Nearest(n as real + rest, Rounded(n, rest > 0.0), m)
    decreases n, 0
  {
    var half, left, k := n / 2, ((n % 2) as real + rest) / 2.0, m / 2;
    RoundedHalf(n, rest);
    assert m == 2 * k && Representable(k);
    hide Rounded;
    hide Nearest;
    hide Representable;
    if half < EXACT_LIMIT {
      var q := if left > 0.5 || (left == 0.5 && half % 2 == 1) then half + 1 else half;
      RoundedUpOrDown(half, left, q, k);
    } else {
      RoundedIsNearest(half, left, k);
      RoundedBounds(half, left > 0.0);
      Doubled(half as real + left, Rounded(half, left > 0.0), k);
    }
  }

  /** One bit dropped: what is left, and how the rounding goes on. */
  lemma RoundedHalf(n: nat, rest: real)
    requires n >= EXACT_LIMIT && 0.0 <= rest < 1.0
    ensures var half, left := n / 2, ((n % 2) as real + rest) / 2.0;
            && 0.0 <= left < 1.0
            && n as real + rest == 2.0 * (half as real + left)
            && Rounded(n, rest > 0.0)
               == 2 * if half >= EXACT_LIMIT then Rounded(half, left > 0.0)
                      else if left > 0.5 || (left == 0.5 && half % 2 == 1) then half + 1
                      else half
  {
  }

  /** Twice as far apart is as near. */
  lemma Doubled(x: real, r: nat, m: nat)
    requires Nearest(x, r, m) && r >= EXACT_LIMIT
    ensures Nearest(2.0 * x, 2 * r, 2 * m)
    ensures Representable(r) ==> Representable(2 * r)
  {
    DoubledDistance(x, r);
    DoubledDistance(x, m);
    hide Distance;
    assert (2 * r) / 2 == r;
  }

  lemma DoubledDistance(x: real, m: nat)
    ensures Distance(2.0 * x, 2 * m) == 2.0 * Distance(x, m)
  {
    assert (2 * m) as real == 2.0 * m as real;
  }

  /** The last bit dropped and the rest decide between the two neighbours. */
  lemma RoundedUpOrDown(half: nat, left: real, q: nat, m: nat)
    requires EXACT_LIMIT / 2 <= half < EXACT_LIMIT && 0.0 <= left < 1.0
    requires q == if left > 0.5 || (left == 0.5 && half % 2 == 1) then half + 1 else half
    ensures Representable(2 * q) && Nearest(2.0 * (half as real + left), 2 * q, 2 * m)
  {
    assert m <= half || m >= half + 1;
    assert (2 * q) / 2 == q;
  }

  /** A revision is read as the nearest number with 53 bits, and as the even one of two. */
  lemma DoubleIsNearest(n: nat, m: nat)
    requires Representable(m)
    ensures Representable(Double(n))
    ensures Nearest(n as real, Double(n), m)
  {
    if n >= EXACT_LIMIT {
      RoundedIsNearest(n, 0.0, m);
    }
  }

  /** Just above it, two different revisions become the same number. */
  lemma DoubleCollides()
    ensures Double(EXACT_LIMIT + 1) == Double(EXACT_LIMIT)
  {
  }

  ghost predicate ComparesExactly(limit: nat) {
    forall a: nat, b: nat :: a < b <= limit ==> Double(a) < Double(b)
  }

  /** All revisions up to a limit compare as the integers they are exactly when the limit is at most 2^53. */
  lemma ComparesExactlyIff(limit: nat)
    ensures ComparesExactly(limit) <==> limit <= EXACT_LIMIT
  {
    hide Double;
    if limit <= EXACT_LIMIT {
      forall a: nat, b: nat | a < b <= limit
        ensures Double(a) < Double(b)
      {
        DoubleExact(a);
        DoubleExact(b);
      }
    } else {
      DoubleCollides();
      assert EXACT_LIMIT < EXACT_LIMIT + 1 <= limit;
    }
  }
}
