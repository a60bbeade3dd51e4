/**
 * The binary16 number line and rounding to nearest, ties to even.
 *
 * A non-negative half is named by its 15-bit code, 0 .. 0x7C00. Its value is counted in units of the
 * smallest subnormal, 2^-24, so that every finite half is an integer. The code 0x7C00 of infinity stands
 * at 2^40 units (2^16), the first value past the largest finite half: rounding to it is overflow.
 * An exact result that need not be a half is a fraction num / den of the same unit.
 */
module Rounding {

  const INFINITY := 0x7C00

  function Pow2(n: nat): (p: nat)
    ensures p >= 1
  {
    if n == 0 then 1 else 2 * Pow2(n - 1)
  }

  lemma {:induction false} Pow2Adds(a: nat, b: nat)
    ensures Pow2(a + b) == Pow2(a) * Pow2(b)
  {
    if a > 0 {
      Pow2Adds(a - 1, b);
      assert Pow2(a + b) == 2 * Pow2(a - 1 + b);
      assert Pow2(a) * Pow2(b) == 2 * (Pow2(a - 1) * Pow2(b));
    }
  }

  lemma SamePower(a: nat, b: nat, c: nat, d: nat)
    requires a + b == c + d
    ensures Pow2(a) * Pow2(b) == Pow2(c) * Pow2(d)
    decreases a < c
  {
    if a < c {
      SamePower(c, d, a, b);
    } else {
      Pow2Adds(c, a - c);
      Pow2Adds(a - c, b);
      Regroup(Pow2(c), Pow2(a - c), Pow2(b));
    }
  }

  lemma {:induction false} Pow2Grows(a: nat, b: nat)
    requires a <= b
    ensures Pow2(a) <= Pow2(b)
  {
    if a < b { Pow2Grows(a, b - 1); }
  }

  lemma Pow2Values()
    ensures Pow2(1) == 2 && Pow2(2) == 4 && Pow2(3) == 8 && Pow2(10) == 0x400 && Pow2(11) == 0x800
    ensures Pow2(13) == 0x2000 && Pow2(14) == 0x4000 && Pow2(20) == 0x100000 && Pow2(21) == 0x200000
    ensures Pow2(23) == 0x800000 && Pow2(24) == 0x1000000
  {
    assert Pow2(5) == 32;
    Pow2Adds(5, 5);
    Pow2Adds(10, 3);
    Pow2Adds(10, 10);
    Pow2Adds(10, 13);
  }

  // ----- products, kept apart because the solver should see one at a time -----

  lemma Scales(a: int, b: int, k: nat)
    requires a < b && k > 0
    ensures k * a < k * b
  {
    assert k * (b - a) > 0 by { assert b - a >= 1; }
    assert k * (b - a) == k * b - k * a;
  }

  lemma ScalesWeakly(a: int, b: int, k: nat)
    requires a <= b
    ensures k * a <= k * b
  {
    assert k * (b - a) >= 0;
    assert k * (b - a) == k * b - k * a;
  }

  lemma Distributes(k: int, a: int, b: int)
    ensures k * (a + b) == k * a + k * b
  {
  }

  lemma Regroup(a: int, b: int, c: int)
    ensures a * (b * c) == a * b * c == b * (a * c)
  {
  }

  lemma Ordered(a: int, b: int, p: nat)
    requires p > 0
    ensures a < b <==> p * a < p * b
    ensures a == b <==> p * a == p * b
  {
    if a < b { Scales(a, b, p); }
    if b < a { Scales(b, a, p); }
  }

  /** Codes below 0x800 count units; from there each further 0x400 codes double the value. */
  function Value(code: nat): nat
    requires code <= INFINITY
  {
    if code < 0x800 then code else 2 * Value(code - 0x400)
  }

  /** A code written as exponent field e and significand q, possibly one carry too high. */
  lemma {:induction false} ValueAt(q: nat, e: nat)
    requires e <= 29 && q <= 0x800 && (e > 0 ==> q >= 0x400)
    ensures e * 0x400 + q <= INFINITY
    ensures Value(e * 0x400 + q) == q * Pow2(e)
  {
    if e > 0 {
      ValueAt(q, e - 1);
      Regroup(q, 2, Pow2(e - 1));
    }
  }

  lemma {:induction false} ValueIncreases(c: nat, d: nat)
    requires c < d <= INFINITY
    ensures Value(c) < Value(d)
  {
    if c >= 0x800 {
      ValueIncreases(c - 0x400, d - 0x400);
    } else if d >= 0x800 {
      ValueAtLeast(d);
    }
  }

  lemma {:induction false} ValueAtLeast(c: nat)
    requires 0x400 <= c <= INFINITY
    ensures Value(c) >= c
  {
    if c >= 0x800 { ValueAtLeast(c - 0x400); }
  }

  // ----- rounding to nearest -----

  function Distance(a: nat, b: nat): nat {
    if a >= b then a - b else b - a
  }

  function Gap(num: nat, den: nat, code: nat): (g: nat)
    requires code <= INFINITY
  {
    Distance(num, den * Value(code))
  }

  /** No half is closer to num / den, and a half that is as close leaves the even one chosen. */
  ghost predicate Nearest(num: nat, den: nat, r: nat) {
    && r <= INFINITY
    && forall c: nat :: c <= INFINITY && c != r ==>
         Gap(num, den, r) < Gap(num, den, c) || (Gap(num, den, r) == Gap(num, den, c) && r % 2 == 0)
  }

  /** The same, looking only at the midpoints towards the two neighbours. */
  ghost predicate Between(num: nat, den: nat, r: nat) {
    && r <= INFINITY
    && (r > 0 ==> den * (Value(r - 1) + Value(r)) <= 2 * num)
    && (r > 0 && r % 2 != 0 ==> den * (Value(r - 1) + Value(r)) < 2 * num)
    && (r < INFINITY ==> 2 * num <= den * (Value(r) + Value(r + 1)))
    && (r < INFINITY && r % 2 != 0 ==> 2 * num < den * (Value(r) + Value(r + 1)))
  }

  /** A midpoint on the far side decides against c. */
  lemma CloserThan(num: nat, den: nat, r: nat, c: nat)
    requires den > 0 && r <= INFINITY && c <= INFINITY && r != c
    ensures r < c ==> (Gap(num, den, r) < Gap(num, den, c) <==> 2 * num < den * (Value(r) + Value(c)))
    ensures c < r ==> (Gap(num, den, r) < Gap(num, den, c) <==> den * (Value(c) + Value(r)) < 2 * num)
    ensures Gap(num, den, r) == Gap(num, den, c) <==> 2 * num == den * (Value(r) + Value(c))
  {
    var lo, hi := if r < c then r else c, if r < c then c else r;
    ValueIncreases(lo, hi);
    Scales(Value(lo), Value(hi), den);
    Distributes(den, Value(r), Value(c));
    Distributes(den, Value(c), Value(r));
    MidpointDecides(num, den * Value(lo), den * Value(hi));
  }

  lemma MidpointDecides(num: nat, x: nat, y: nat)
    requires x < y
    ensures Distance(num, x) < Distance(num, y) <==> 2 * num < x + y
    ensures Distance(num, x) == Distance(num, y) <==> 2 * num == x + y
  {
  }

  lemma NeighboursDecide(num: nat, den: nat, r: nat)
    requires den > 0 && Between(num, den, r)
    ensures Nearest(num, den, r)
  {
    forall c: nat | c <= INFINITY && c != r
      ensures Gap(num, den, r) < Gap(num, den, c) || (Gap(num, den, r) == Gap(num, den, c) && r % 2 == 0)
    {
      CloserThan(num, den, r, c);
      if r < c {
        if r + 1 < c { ValueIncreases(r + 1, c); Scales(Value(r) + Value(r + 1), Value(r) + Value(c), den); }
      } else {
        if c < r - 1 { ValueIncreases(c, r - 1); Scales(Value(c) + Value(r), Value(r - 1) + Value(r), den); }
      }
    }
  }

  lemma NearestIsBetween(num: nat, den: nat, r: nat)
    requires den > 0 && Nearest(num, den, r)
    ensures Between(num, den, r)
  {
    if r > 0 { CloserThan(num, den, r, r - 1); }
    if r < INFINITY { CloserThan(num, den, r, r + 1); }
  }

  /** Rounding never reverses an order; in particular the nearest half is unique. */
  lemma NearestIsMonotone(num1: nat, den1: nat, r1: nat, num2: nat, den2: nat, r2: nat)
    requires den1 > 0 && den2 > 0 && num1 * den2 <= num2 * den1
    requires Nearest(num1, den1, r1) && Nearest(num2, den2, r2)
    ensures r1 <= r2
  {
    hide Nearest, Value;
    NearestIsBetween(num1, den1, r1);
    NearestIsBetween(num2, den2, r2);
    if r2 < r1 {
      MidpointsIncrease(r2, r1);
      Crossing(num1, den1, num2, den2, Value(r2) + Value(r2 + 1), Value(r1 - 1) + Value(r1));
    }
  }

  lemma MidpointsIncrease(c: nat, d: nat)
    requires c < d <= INFINITY
    ensures c + 1 < d ==> Value(c) + Value(c + 1) < Value(d - 1) + Value(d)
  {
    if c + 1 < d {
      ValueIncreases(c, d - 1);
      ValueIncreases(c + 1, d);
    }
  }

  lemma Crossing(num1: nat, den1: nat, num2: nat, den2: nat, low: nat, high: nat)
    requires den1 > 0 && den2 > 0 && num1 * den2 <= num2 * den1
    requires den1 * high <= 2 * num1 && 2 * num2 <= den2 * low
    ensures high <= low
    ensures high == low ==> den1 * high == 2 * num1 && 2 * num2 == den2 * low
  {
    hide *;
    Regroup(den2, den1, high);
    Regroup(den1, den2, low);
    Regroup(den2, 2, num1);
    Regroup(den1, 2, num2);
    Ordered(den1 * high, 2 * num1, den2);
    Ordered(2 * num2, den2 * low, den1);
    Product(den1, den2);
    Ordered(low, high, den1 * den2);
  }

  lemma Product(a: nat, b: nat)
    requires a > 0 && b > 0
    ensures a * b > 0
  {
  }

  lemma NearestIsUnique(num: nat, den: nat, r1: nat, r2: nat)
    requires den > 0 && Nearest(num, den, r1) && Nearest(num, den, r2)
    ensures r1 == r2
  {
    NearestIsMonotone(num, den, r1, num, den, r2);
    NearestIsMonotone(num, den, r2, num, den, r1);
  }

  /** A value that is a half rounds to itself. */
  lemma HalvesRoundToThemselves(den: nat, r: nat)
    requires den > 0 && r <= INFINITY
    ensures Nearest(den * Value(r), den, r)
  {
    var n := den * Value(r);
    if r > 0 { BelowMidpoint(den, r - 1, n); }
    if r < INFINITY { AboveMidpoint(den, r, n); }
    NeighboursDecide(n, den, r);
  }

  /** Nearest depends on the fraction only, not on how it is written. */
  lemma SameFraction(num1: nat, den1: nat, num2: nat, den2: nat, r: nat)
    requires den1 > 0 && den2 > 0 && num1 * den2 == num2 * den1
    requires Nearest(num1, den1, r)
    ensures Nearest(num2, den2, r)
  {
    NearestIsBetween(num1, den1, r);
    if r > 0 { SameSide(num1, den1, num2, den2, Value(r - 1) + Value(r)); }
    if r < INFINITY { SameSide(num1, den1, num2, den2, Value(r) + Value(r + 1)); }
    NeighboursDecide(num2, den2, r);
  }

  lemma SameSide(num1: nat, den1: nat, num2: nat, den2: nat, b: nat)
    requires den1 > 0 && den2 > 0 && num1 * den2 == num2 * den1
    ensures den1 * b < 2 * num1 <==> den2 * b < 2 * num2
    ensures den1 * b == 2 * num1 <==> den2 * b == 2 * num2
  {
    assert den2 * (den1 * b) == den1 * (den2 * b);
    assert den2 * (2 * num1) == den1 * (2 * num2);
    if den1 * b < 2 * num1 { Scales(den1 * b, 2 * num1, den2); }
    if den1 * b > 2 * num1 { Scales(2 * num1, den1 * b, den2); }
    if den2 * b < 2 * num2 { Scales(den2 * b, 2 * num2, den1); }
    if den2 * b > 2 * num2 { Scales(2 * num2, den2 * b, den1); }
  }

  lemma TooLarge(num: nat, den: nat)
    requires den > 0 && den * Value(INFINITY) <= num
    ensures Nearest(num, den, INFINITY)
  {
    ValueIncreases(INFINITY - 1, INFINITY);
    Scales(Value(INFINITY - 1) + Value(INFINITY), 2 * Value(INFINITY), den);
    assert den * (2 * Value(INFINITY)) == 2 * (den * Value(INFINITY));
    NeighboursDecide(num, den, INFINITY);
  }

  lemma TooSmall(num: nat, den: nat)
    requires 2 * num < den
    ensures Nearest(num, den, 0)
  {
    assert Value(0) == 0 && Value(1) == 1;
    NeighboursDecide(num, den, 0);
  }

  // ----- sticky bits -----

  /**
   * The integer z stands for num / den: exactly, or as an odd multiple of w less than w away. The last bit
   * kept is then a sticky bit, and no even multiple of w lies between z and the value it stands for.
   */
  predicate Jam(num: nat, den: nat, z: nat, w: nat) {
    && den > 0 && w > 0
    && (num == z * den || (z % (2 * w) == w && (z - w) * den < num < (z + w) * den))
  }

  lemma JamKeepsSides(num: nat, den: nat, z: nat, w: nat, b: nat)
    requires Jam(num, den, z, w) && b % (2 * w) == 0
    ensures num < b * den <==> z < b
    ensures num == b * den <==> z == b
  {
    if z < b {
      if num != z * den {
        Multiples(z, b, w);
        ScalesWeakly(z + w, b, den);
        assert den * (z + w) == (z + w) * den && den * b == b * den;
      } else {
        Scales(z, b, den);
      }
    } else if b < z {
      if num != z * den {
        Multiples(b, z, w);
        ScalesWeakly(b, z - w, den);
        assert den * (z - w) == (z - w) * den && den * b == b * den;
      } else {
        Scales(b, z, den);
      }
    } else {
      assert z % (2 * w) == 0;
    }
  }

  lemma Multiples(low: nat, high: nat, w: nat)
    requires w > 0 && low < high
    requires (low % (2 * w) == 0 && high % (2 * w) == w) || (low % (2 * w) == w && high % (2 * w) == 0)
    ensures low + w <= high
  {
    var d := 2 * w;
    var i, j := low / d, high / d;
    assert low == d * i + low % d;
    assert high == d * j + high % d;
    Distributes(d, i, 1);
    if high < low + w {
      if i < j { ScalesWeakly(i + 1, j, d); }
      Distributes(d, j, 1);
      if j < i { ScalesWeakly(j + 1, i, d); }
    }
  }

  /** The round-up decision: guard bit set, and either sticky or an odd last place. */
  function Rounded(value: nat, guard: bool, sticky: bool): (r: nat) {
    value + if guard && (sticky || value % 2 == 1) then 1 else 0
  }

  lemma QuotientIsNatural(z: nat, d: nat)
    requires d > 0
    ensures z / d >= 0
  {
  }

  /** z >> k */
  function ShiftRight(z: nat, k: nat): nat {
    QuotientIsNatural(z, Pow2(k));
    z / Pow2(k)
  }

  function GuardBit(z: nat, k: nat): bool
    requires k > 0
  {
    ShiftRight(z, k - 1) % 2 == 1
  }

  function StickyBits(z: nat, k: nat): bool
    requires k > 0
  {
    z % Pow2(k - 1) != 0
  }

  /** z split at a cut of k bits: quotient, guard bit and the rest. */
  lemma Cut(z: nat, k: nat)
    requires k > 0
    ensures var q := ShiftRight(z, k);
            var mid := (2 * q + 1) * Pow2(k - 1);
            && q * Pow2(k) <= z < (q + 1) * Pow2(k)
            && (GuardBit(z, k) <==> mid <= z)
            && (GuardBit(z, k) && StickyBits(z, k) <==> mid < z)
  {
    CutAt(z, Pow2(k - 1));
  }

  lemma CutAt(z: nat, h: nat)
    requires h > 0
    ensures var q := z / (2 * h);
            var mid := (2 * q + 1) * h;
            && q * (2 * h) <= z < (q + 1) * (2 * h)
            && (z / h % 2 == 1 <==> mid <= z)
            && (z / h % 2 == 1 && z % h != 0 <==> mid < z)
  {
    var p, q := z / h, z / (2 * h);
    assert z == h * p + z % h;
    HalfOf(z, h);
    assert p == 2 * q || p == 2 * q + 1;
    Distributes(h, 2 * q, 1);
    Distributes(2 * h, q, 1);
    Regroup(h, 2, q);
  }

  lemma HalfOf(z: nat, h: nat)
    requires h > 0
    ensures z / (2 * h) == z / h / 2
  {
    var p := z / h;
    var q := p / 2;
    assert z == p * h + z % h;
    assert p == 2 * q + p % 2;
    assert p * h == q * (2 * h) + (p % 2) * h by {
      assert (2 * q + p % 2) * h == q * (2 * h) + (p % 2) * h;
    }
    var rest := (p % 2) * h + z % h;
    assert 0 <= rest < 2 * h by {
      assert p % 2 == 0 || p % 2 == 1;
    }
    Quotient(z, 2 * h, q, rest);
  }

  lemma Quotient(z: nat, d: nat, q: nat, rest: nat)
    requires d > 0 && z == q * d + rest && rest < d
    ensures z / d == q && z % d == rest
  {
    var p := z / d;
    assert z == d * p + z % d;
    Distributes(d, p, 1);
    Distributes(d, q, 1);
    if p < q { ScalesWeakly(p + 1, q, d); }
    if q < p { ScalesWeakly(q + 1, p, d); }
  }

  lemma Pow2Divides(b: nat, j: nat, k: nat)
    requires j <= k
    ensures b * Pow2(k) % Pow2(j) == 0
  {
    Pow2Adds(k - j, j);
    Regroup(b, Pow2(k - j), Pow2(j));
    Product(Pow2(j), Pow2(j));
    Exact(b * Pow2(k - j), Pow2(j));
  }

  lemma Exact(m: nat, d: nat)
    requires d > 0
    ensures m * d % d == 0 && m * d / d == m
  {
    Quotient(m * d, d, m, 0);
  }

  /**
   * The rounding step. z holds an 11-bit significand above k discarded bits and its last bit at weight
   * Pow2(j) is sticky, with at least one exact bit between it and the guard bit's place. Cutting at k bits,
   * placing the significand at exponent e and applying Rounded gives the half nearest to the value z
   * stands for. A carry into the exponent field, and from the largest exponent into infinity, is included.
   */
  lemma RoundedIsNearest(num: nat, den: nat, z: nat, j: nat, k: nat, e: nat)
    requires Jam(num, den, z, Pow2(j)) && j + 1 < k
    requires e <= 29 && z < 0x800 * Pow2(k) && (e > 0 ==> 0x400 * Pow2(k) <= z)
    ensures ShiftRight(z, k) < 0x800
    ensures Nearest(num * Pow2(e), den * Pow2(k),
                    Rounded(e * 0x400 + ShiftRight(z, k), GuardBit(z, k), StickyBits(z, k)))
  {
    QuotientRange(z, Pow2(k), 0x800);
    QuotientRange(z, Pow2(k), 0x400);
    Cut(z, k);
    RoundedFromCut(num, den, z, j, k, e, ShiftRight(z, k), GuardBit(z, k), StickyBits(z, k));
  }

  lemma RoundedFromCut(num: nat, den: nat, z: nat, j: nat, k: nat, e: nat, q: nat, guard: bool, sticky: bool)
    requires Jam(num, den, z, Pow2(j)) && j + 1 < k
    requires e <= 29 && q < 0x800 && (e > 0 ==> q >= 0x400)
    requires q * Pow2(k) <= z < (q + 1) * Pow2(k)
    requires var mid := (2 * q + 1) * Pow2(k - 1); (guard <==> mid <= z) && (guard && sticky <==> mid < z)
    ensures Nearest(num * Pow2(e), den * Pow2(k), Rounded(e * 0x400 + q, guard, sticky))
  {
    assert den > 0;
    hide *;
    Sides(num, den, z, j, k, q);
    RoundedFromSides(num, den, z, k, e, q, (2 * q + 1) * Pow2(k - 1), guard, sticky);
  }

  lemma RoundedFromSides(num: nat, den: nat, z: nat, k: nat, e: nat, q: nat, mid: nat, guard: bool, sticky: bool)
    requires den > 0 && k > 0 && e <= 29 && q < 0x800 && (e > 0 ==> q >= 0x400)
    requires q * Pow2(k) * den <= num < (q + 1) * Pow2(k) * den && mid == (2 * q + 1) * Pow2(k - 1)
    requires (num < mid * den <==> z < mid) && (num == mid * den <==> z == mid)
    requires (guard <==> mid <= z) && (guard && sticky <==> mid < z)
    ensures Nearest(num * Pow2(e), den * Pow2(k), Rounded(e * 0x400 + q, guard, sticky))
  {
    hide *;
    Step(num, mid * den, z, mid, guard, sticky, e * 0x400 + q);
    NearestInCell(num, den, k, e, q, Rounded(e * 0x400 + q, guard, sticky));
  }

  lemma Step(num: nat, bound: nat, z: nat, mid: nat, guard: bool, sticky: bool, code: nat)
    requires (num < bound <==> z < mid) && (num == bound <==> z == mid)
    requires (guard <==> mid <= z) && (guard && sticky <==> mid < z)
    ensures Rounded(code, guard, sticky)
         == if num > bound || (num == bound && code % 2 == 1) then code + 1 else code
  {
  }

  lemma NearestInCell(num: nat, den: nat, k: nat, e: nat, q: nat, r: nat)
    requires den > 0 && k > 0 && e <= 29 && q < 0x800 && (e > 0 ==> q >= 0x400)
    requires q * Pow2(k) * den <= num < (q + 1) * Pow2(k) * den
    requires var code := e * 0x400 + q;
             var mid := (2 * q + 1) * Pow2(k - 1) * den;
             r == if num > mid || (num == mid && code % 2 == 1) then code + 1 else code
    ensures Nearest(num * Pow2(e), den * Pow2(k), r)
  {
    hide *;
    Cell(den, k, e, q);
    Product(den, Pow2(k));
    RoundedIsBetween(num, den * Pow2(k), Pow2(e), e * 0x400 + q, q * Pow2(k) * den, (q + 1) * Pow2(k) * den,
                     (2 * q + 1) * Pow2(k - 1) * den, r);
    NeighboursDecide(num * Pow2(e), den * Pow2(k), r);
  }

  lemma QuotientRange(z: nat, d: nat, bound: nat)
    requires d > 0
    ensures z < bound * d <==> z / d < bound
  {
    var q := z / d;
    assert z == d * q + z % d;
    Distributes(d, q, 1);
    if q < bound { ScalesWeakly(q + 1, bound, d); } else { ScalesWeakly(bound, q, d); }
  }

  /** Compared with the cell's two ends and its midpoint, num / den lies where z lies. */
  lemma Sides(num: nat, den: nat, z: nat, j: nat, k: nat, q: nat)
    requires Jam(num, den, z, Pow2(j)) && j + 1 < k && q * Pow2(k) <= z < (q + 1) * Pow2(k)
    ensures q * Pow2(k) * den <= num < (q + 1) * Pow2(k) * den
    ensures var mid := (2 * q + 1) * Pow2(k - 1);
            (num < mid * den <==> z < mid) && (num == mid * den <==> z == mid)
  {
    assert Pow2(j + 1) == 2 * Pow2(j);
    Pow2Divides(q, j + 1, k);
    JamKeepsSides(num, den, z, Pow2(j), q * Pow2(k));
    Pow2Divides(q + 1, j + 1, k);
    JamKeepsSides(num, den, z, Pow2(j), (q + 1) * Pow2(k));
    Pow2Divides(2 * q + 1, j + 1, k - 1);
    JamKeepsSides(num, den, z, Pow2(j), (2 * q + 1) * Pow2(k - 1));
  }

  lemma RoundedIsBetween(num: nat, d: nat, p: nat, code: nat, x: nat, y: nat, mid: nat, r: nat)
    requires d > 0 && p > 0 && code < INFINITY && x <= num < y
    requires d * Value(code) == p * x && d * Value(code + 1) == p * y
    requires d * (Value(code) + Value(code + 1)) == 2 * (p * mid)
    requires r == if num > mid || (num == mid && code % 2 == 1) then code + 1 else code
    ensures Between(num * p, d, r)
  {
    Ordered(num, mid, p);
    ScalesWeakly(x, num, p);
    Scales(num, y, p);
    Decide(d, num * p, code, r, p * mid);
  }

  lemma DecideDown(d: nat, n: nat, code: nat, mid: nat)
    requires d > 0 && code < INFINITY && d * Value(code) <= n
    requires d * (Value(code) + Value(code + 1)) == 2 * mid && n <= mid && (n == mid ==> code % 2 == 0)
    ensures Between(n, d, code)
  {
    hide Value;
    if code > 0 { BelowMidpoint(d, code - 1, n); }
  }

  lemma DecideUp(d: nat, n: nat, code: nat, mid: nat)
    requires d > 0 && code < INFINITY && n < d * Value(code + 1)
    requires d * (Value(code) + Value(code + 1)) == 2 * mid && n >= mid && (n == mid ==> code % 2 == 1)
    ensures Between(n, d, code + 1)
  {
    hide Value;
    if code + 1 < INFINITY { AboveMidpoint(d, code + 1, n); }
  }

  lemma Decide(d: nat, n: nat, code: nat, r: nat, mid: nat)
    requires d > 0 && code < INFINITY && d * Value(code) <= n < d * Value(code + 1)
    requires d * (Value(code) + Value(code + 1)) == 2 * mid
    requires r == if n > mid || (n == mid && code % 2 == 1) then code + 1 else code
    ensures Between(n, d, r)
  {
    if r == code {
      DecideDown(d, n, code, mid);
    } else {
      DecideUp(d, n, code, mid);
    }
  }

  /** The ends and the midpoint of the cell of q, at the scale of the exponent. */
  lemma Cell(den: nat, k: nat, e: nat, q: nat)
    requires k > 0 && e <= 29 && q < 0x800 && (e > 0 ==> q >= 0x400)
    ensures e * 0x400 + q < INFINITY
    ensures den * Pow2(k) * Value(e * 0x400 + q) == Pow2(e) * (q * Pow2(k) * den)
    ensures den * Pow2(k) * Value(e * 0x400 + q + 1) == Pow2(e) * ((q + 1) * Pow2(k) * den)
    ensures den * Pow2(k) * (Value(e * 0x400 + q) + Value(e * 0x400 + q + 1))
         == 2 * (Pow2(e) * ((2 * q + 1) * Pow2(k - 1) * den))
  {
    var code, p, w := e * 0x400 + q, Pow2(e), Pow2(k);
    ValueAt(q, e);
    ValueAt(q + 1, e);
    Swap(den, w, q, p);
    Swap(den, w, q + 1, p);
    Distributes(den * w, Value(code), Value(code + 1));
    Middle(q, Pow2(k - 1), den);
    Distributes(p, q * w * den, (q + 1) * w * den);
    Regroup(p, 2, (2 * q + 1) * Pow2(k - 1) * den);
  }

  lemma Swap(den: nat, w: nat, q: nat, p: nat)
    ensures den * w * (q * p) == p * (q * w * den)
  {
    hide *;
    Regroup(den * w, q, p);
    Regroup(q, w, den);
  }

  lemma Middle(q: nat, h: nat, den: nat)
    ensures q * (2 * h) * den + (q + 1) * (2 * h) * den == 2 * ((2 * q + 1) * h * den)
  {
    hide *;
    var c := h * den;
    Regroup(q, 2 * h, den);
    Regroup(q + 1, 2 * h, den);
    Regroup(2, h, den);
    Regroup(2 * q + 1, h, den);
    Distributes(2 * c, q, q + 1);
  }

  lemma BelowMidpoint(d: nat, c: nat, n: nat)
    requires d > 0 && c < INFINITY && d * Value(c + 1) <= n
    ensures d * (Value(c) + Value(c + 1)) < 2 * n
  {
    ValueIncreases(c, c + 1);
    Scales(Value(c), Value(c + 1), d);
    Distributes(d, Value(c), Value(c + 1));
  }

  lemma AboveMidpoint(d: nat, c: nat, n: nat)
    requires d > 0 && c < INFINITY && n <= d * Value(c)
    ensures 2 * n < d * (Value(c) + Value(c + 1))
  {
    ValueIncreases(c, c + 1);
    Scales(Value(c), Value(c + 1), d);
    Distributes(d, Value(c), Value(c + 1));
  }
}
