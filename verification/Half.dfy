/**
 * Half-precision addition, multiplication, division and fused multiply-add as lib/half.h
 * computes them with integers when no arithmetic type is configured, rounding to nearest, proved against
 * correct rounding: the exact result rounded once (IEEE 754-2008, sections 4.3.1 and 5.4.1).
 */
module HalfArithmetic {
  import opened Arithmetic
  import opened Rounding

  type Half = h: int | 0 <= h < 0x10000

  const NAN: Half := 0x7FFF

  function Magnitude(x: Half): nat {
    x % 0x8000
  }

  predicate Negative(x: Half) {
    x >= 0x8000
  }

  function SignBit(negative: bool): nat {
    if negative then 0x8000 else 0
  }

  predicate IsNan(x: Half) {
    Magnitude(x) > INFINITY
  }

  predicate IsInfinite(x: Half) {
    Magnitude(x) == INFINITY
  }

  predicate IsFinite(x: Half) {
    Magnitude(x) < INFINITY
  }

  /** A NaN with the quiet bit, 0x200, set. */
  function Quiet(x: Half): Half
    requires IsNan(x)
  {
    if x / 0x200 % 2 == 1 then x else x + 0x200
  }

  /** The finite value of x, in units of 2^-24. */
  function Units(x: Half): int
    requires IsFinite(x)
  {
    Signed(Negative(x), Value(Magnitude(x)))
  }

  /** r carries the given sign and its magnitude is num / den rounded to nearest even. */
  ghost predicate RoundsTo(negative: bool, num: nat, den: nat, r: Half) {
    Nearest(num, den, Magnitude(r)) && Negative(r) == negative
  }

  function Abs(x: int): nat {
    if x < 0 then -x else x
  }

  /** The first NaN among the operands, made quiet. */
  function PropagatedNan(x: Half, y: Half): Half
    requires IsNan(x) || IsNan(y)
  {
    if IsNan(x) then Quiet(x) else Quiet(y)
  }

  // ----- what each operation has to return -----

  ghost predicate IsSum(x: Half, y: Half, r: Half) {
    if IsNan(x) || IsNan(y) then r == PropagatedNan(x, y)
    else if IsInfinite(x) && IsInfinite(y) then r == if x == y then x else NAN
    else if IsInfinite(x) then r == x
    else if IsInfinite(y) then r == y
    else
      var exact := Units(x) + Units(y);
      RoundsTo(if exact == 0 then Negative(x) && Negative(y) else exact < 0, Abs(exact), 1, r)
  }

  ghost predicate IsProduct(x: Half, y: Half, r: Half) {
    var negative := Negative(x) != Negative(y);
    if IsNan(x) || IsNan(y) then r == PropagatedNan(x, y)
    else if IsInfinite(x) || IsInfinite(y) then
      r == if Magnitude(x) == 0 || Magnitude(y) == 0 then NAN else SignBit(negative) + INFINITY
    else RoundsTo(negative, Value(Magnitude(x)) * Value(Magnitude(y)), Pow2(24), r)
  }

  ghost predicate IsQuotient(x: Half, y: Half, r: Half) {
    var negative := Negative(x) != Negative(y);
    if IsNan(x) || IsNan(y) then r == PropagatedNan(x, y)
    else if IsInfinite(x) then r == if IsInfinite(y) then NAN else SignBit(negative) + INFINITY
    else if IsInfinite(y) then r == SignBit(negative)
    else if Magnitude(y) == 0 then r == if Magnitude(x) == 0 then NAN else SignBit(negative) + INFINITY
    else RoundsTo(negative, Value(Magnitude(x)) * Pow2(24), Value(Magnitude(y)), r)
  }

  function Signed(negative: bool, magnitude: nat): int {
    if negative then 0 - magnitude else magnitude
  }

  /** One rounding of x * y + z; the sum is exact in units of 2^-48. */
  ghost predicate IsFused(x: Half, y: Half, z: Half, r: Half) {
    var negative := Negative(x) != Negative(y);
    if IsNan(x) then r == Quiet(x)
    else if IsNan(y) then r == Quiet(y)
    else if IsNan(z) then r == Quiet(z)
    else if IsInfinite(x) || IsInfinite(y) then
      r == if Magnitude(x) == 0 || Magnitude(y) == 0 || (IsInfinite(z) && Negative(z) != negative) then NAN
           else SignBit(negative) + INFINITY
    else if IsInfinite(z) then r == z
    else
      var exact := Signed(negative, Value(Magnitude(x)) * Value(Magnitude(y)))
                 + Signed(Negative(z), Value(Magnitude(z)) * Pow2(24));
      RoundsTo(if exact == 0 then negative && Negative(z) else exact < 0, Abs(exact), Pow2(24), r)
  }

  // ----- sticky shifts -----

  /** a | b for a single bit b */
  function OrBit(a: nat, b: bool): (r: nat)
    ensures b ==> r % 2 == 1
    ensures r == a || (r == a + 1 && a % 2 == 0 && b)
  {
    if b && a % 2 == 0 then a + 1 else a
  }

  function StickyShift(m: nat, d: nat): nat {
    OrBit(ShiftRight(m, d), m % Pow2(d) != 0)
  }

  lemma StickyShiftJams(m: nat, d: nat)
    ensures Jam(m, Pow2(d), StickyShift(m, d), 1)
  {
    var q := ShiftRight(m, d);
    OrBitJams(m, Pow2(d), q);
  }

  lemma OrBitJams(m: nat, p: nat, q: nat)
    requires p > 0 && q == m / p
    ensures Jam(m, p, OrBit(q, m % p != 0), 1)
  {
    assert m == p * q + m % p;
    Distributes(p, q, 1);
    if m % p != 0 { InsideJams(m, p, q); }
  }

  lemma InsideJams(num: nat, den: nat, q: nat)
    requires den > 0 && q * den < num < (q + 1) * den
    ensures Jam(num, den, OrBit(q, true), 1)
  {
    Distributes(den, q, 1);
    Distributes(den, q, 2);
    Distributes(den, q, -1);
  }

  /** Shifted out entirely: one sticky bit remains. */
  lemma FarAwayJams(m: nat, d: nat)
    requires 0 < m < 2 * Pow2(d)
    ensures Jam(m, Pow2(d), 1, 1)
  {
  }

  lemma JamPlus(m: nat, num: nat, den: nat, z: nat)
    requires Jam(num, den, z, 1) && m % 2 == 0
    ensures Jam(m * den + num, den, m + z, 1)
  {
    Distributes(den, m, z);
    Distributes(den, m, z - 1);
    Distributes(den, m, z + 1);
  }

  lemma JamMinus(m: nat, num: nat, den: nat, z: nat)
    requires Jam(num, den, z, 1) && m % 2 == 0 && num <= m * den
    ensures z <= m
    ensures Jam(m * den - num, den, m - z, 1)
    ensures m - z == 0 <==> num == m * den
  {
    if num == z * den { ExactMinus(m, den, z); } else { InsideMinus(m, num, den, z); }
  }

  lemma ExactMinus(m: nat, den: nat, z: nat)
    requires den > 0 && z * den <= m * den
    ensures z <= m && m * den - z * den == (m - z) * den
    ensures m == z <==> z * den == m * den
  {
    Ordered(m, z, den);
    Distributes(den, z, m - z);
  }

  lemma InsideMinus(m: nat, num: nat, den: nat, z: nat)
    requires den > 0 && z > 0 && (z - 1) * den < num < (z + 1) * den && num <= m * den
    requires m % 2 == 0 && z % 2 == 1
    ensures z < m && num < m * den
    ensures (m - z - 1) * den < m * den - num < (m - z + 1) * den
  {
    Ordered(m, z - 1, den);
    assert z < m;
    Ordered(m, z + 1, den);
    Distributes(den, z + 1, m - z - 1);
    Distributes(den, z - 1, m - z + 1);
  }

  lemma JamHalves(num: nat, den: nat, z: nat)
    requires Jam(num, den, z, 1)
    ensures Jam(num, den * 2, OrBit(z / 2, z % 2 == 1), 1)
  {
    var q := z / 2;
    if z % 2 == 1 {
      OddHalves(num, den, q);
      InsideJams(num, den * 2, q);
    } else {
      Regroup(q, 2, den);
    }
  }

  lemma OddHalves(num: nat, den: nat, q: nat)
    requires den > 0 && (num == (2 * q + 1) * den || 2 * q * den < num < (2 * q + 2) * den)
    ensures q * (den * 2) < num < (q + 1) * (den * 2)
  {
    Regroup(q, 2, den);
    Regroup(q + 1, 2, den);
    Distributes(den, 2 * q, 1);
    Distributes(den, 2 * q, 2);
  }

  lemma JamDoubles(num: nat, den: nat, z: nat, w: nat)
    requires Jam(num, den, z, w)
    ensures Jam(2 * num, den, 2 * z, 2 * w)
  {
    Regroup(2, z, den);
    Regroup(2, z - w, den);
    Regroup(2, z + w, den);
    if num != z * den { DoubleCut(z, 0, 2 * w); }
  }

  /** Appending one bit to a number commutes with cutting it. */
  lemma DoubleCut(m: nat, s: nat, h: nat)
    requires s < 2 && h > 0
    ensures (2 * m + s) / (2 * h) == m / h && (2 * m + s) % (2 * h) == 2 * (m % h) + s
  {
    assert m == h * (m / h) + m % h;
    Regroup(2, h, m / h);
    Quotient(2 * m + s, 2 * h, m / h, 2 * (m % h) + s);
  }

  // ----- steps shared by the operations -----

  /**
   * Shifts a subnormal until its leading bit reaches the implicit position. The returned significand sig
   * and exponent satisfy magnitude = sig * 2^(exp - 1) units, with exp shifted by 11 to stay positive.
   */
  method Normalize(abs: nat) returns (sig: nat, exp: int)
    requires 0 < abs < INFINITY
    ensures 0x400 <= sig < 0x800 && -9 <= exp <= 30
    ensures Value(abs) * Pow2(10) == sig * Pow2(exp + 9)
  {
    var a := abs;
    exp := 0;
    ghost var shift := 0;
    while a < 0x400
      invariant 0 < a < INFINITY && exp == -shift && shift <= 10
      invariant a == Pow2(shift) * abs && (shift > 0 ==> a < 0x800)
      invariant a >= Pow2(shift)
    {
      Regroup(2, Pow2(shift), abs);
      Pow2Bound(shift);
      a := a * 2;
      exp := exp - 1;
      shift := shift + 1;
    }
    sig := a % 0x400 + 0x400;
    exp := exp + a / 0x400;
    NormalizedValue(abs, a, shift);
  }

  lemma Pow2Bound(n: nat)
    requires Pow2(n) < 0x400
    ensures n < 10
  {
    if n >= 10 { Pow2Values(); Pow2Grows(10, n); }
  }

  lemma NormalizedValue(abs: nat, a: nat, shift: nat)
    requires abs < INFINITY && 0x400 <= a < INFINITY && a == Pow2(shift) * abs && shift <= 10
    requires shift > 0 ==> a < 0x800
    ensures Value(abs) * Pow2(10) == (a % 0x400 + 0x400) * Pow2(a / 0x400 - shift + 9)
  {
    if shift == 0 {
      assert Pow2(0) == 1 && a == abs;
      hide *;
      NormalValue(a / 0x400 - 1, a % 0x400 + 0x400);
      assert a == (a / 0x400 - 1) * 0x400 + (a % 0x400 + 0x400);
    } else {
      hide *;
      SubnormalValue(abs, a, shift);
      assert a / 0x400 == 1 && a % 0x400 + 0x400 == a;
    }
  }

  lemma NormalValue(e: nat, sig: nat)
    requires e <= 29 && 0x400 <= sig < 0x800
    ensures e * 0x400 + sig <= INFINITY
    ensures Value(e * 0x400 + sig) * Pow2(10) == sig * Pow2(e + 10)
  {
    ValueAt(sig, e);
    Pow2Adds(e, 10);
    Regroup(sig, Pow2(e), Pow2(10));
  }

  lemma SubnormalValue(abs: nat, a: nat, shift: nat)
    requires abs < INFINITY && 0x400 <= a < 0x800 && a == Pow2(shift) * abs && 0 < shift <= 10
    ensures Value(abs) * Pow2(10) == a * Pow2(10 - shift)
  {
    Pow2Grows(1, shift);
    ScalesWeakly(1, Pow2(shift), abs);
    Pow2Adds(shift, 10 - shift);
    Regroup(abs, Pow2(shift), Pow2(10 - shift));
  }

  /**
   * Rounds the fixed-point significand m in [1, 2) with fraction bits below its leading bit and the
   * sticky bit s, at exponent exp, and attaches the sign. A result below the normal range is shifted
   * further right and keeps every discarded bit in the rounding decision.
   */
  method FixedToHalf(fraction: nat, m: nat, exp: int, sign: nat, s: nat, ghost num: nat, ghost den: nat, ghost j: nat)
    returns (r: Half)
    requires 11 <= fraction && Pow2(fraction) <= m < 2 * Pow2(fraction)
    requires -11 <= exp <= 29 && sign in {0, 0x8000} && s < 2
    requires Jam(num, den, 2 * m + s, Pow2(j)) && j + 10 < fraction
    ensures RoundsTo(sign == 0x8000, num * Pow2(exp + 64), den * Pow2(fraction + 55), r)
  {
    hide Jam, Nearest, Pow2;
    FixedIsNearest(fraction, m, exp, s, num, den, j);
    SignRidesAlong(sign, fraction, m, exp, s);
    WithSign(sign, num * Pow2(exp + 64), den * Pow2(fraction + 55), Fixed(fraction, m, exp, s));
    if exp < 0 {
      r := RoundedCut(sign, m, fraction - 10 - exp, s);
    } else {
      r := RoundedCut(sign + exp * 0x400, m, fraction - 10, s);
    }
  }

  /** base + (m >> k), rounded by the bits shifted out. */
  function RoundedCut(base: nat, m: nat, k: nat, s: nat): nat
    requires k > 0
  {
    Rounded(base + ShiftRight(m, k), GuardBit(m, k), s == 1 || StickyBits(m, k))
  }

  function Fixed(fraction: nat, m: nat, exp: int, s: nat): nat
    requires fraction >= 11
  {
    if exp < 0 then RoundedCut(0, m, fraction - 10 - exp, s) else RoundedCut(exp * 0x400, m, fraction - 10, s)
  }

  lemma FixedIsNearest(fraction: nat, m: nat, exp: int, s: nat, num: nat, den: nat, j: nat)
    requires 11 <= fraction && Pow2(fraction) <= m < 2 * Pow2(fraction)
    requires -11 <= exp <= 29 && s < 2
    requires Jam(num, den, 2 * m + s, Pow2(j)) && j + 10 < fraction
    ensures Nearest(num * Pow2(exp + 64), den * Pow2(fraction + 55), Fixed(fraction, m, exp, s))
  {
    var e := if exp < 0 then 0 else exp;
    var k := fraction - 10 - (exp - e);
    FixedInRange(fraction, m, k, s);
    CutIsNearest(num, den, m, s, j, k, e);
    Rescale(num, den, e, k + 1, 64 + exp - e, Fixed(fraction, m, exp, s));
  }

  /** The sign bit is far above the last place, so it does not disturb the rounding decision. */
  lemma SignRidesAlong(sign: nat, fraction: nat, m: nat, exp: int, s: nat)
    requires sign % 2 == 0 && fraction >= 11
    ensures Fixed(fraction, m, exp, s) + sign
         == if exp < 0 then RoundedCut(sign, m, fraction - 10 - exp, s)
            else RoundedCut(sign + exp * 0x400, m, fraction - 10, s)
  {
    hide GuardBit, StickyBits, ShiftRight, Pow2;
  }

  lemma WithSign(sign: nat, num: nat, den: nat, magnitude: nat)
    requires sign in {0, 0x8000} && Nearest(num, den, magnitude)
    ensures sign + magnitude < 0x10000 && RoundsTo(sign == 0x8000, num, den, sign + magnitude)
  {
  }

  lemma FixedInRange(fraction: nat, m: nat, k: nat, s: nat)
    requires 11 <= fraction && Pow2(fraction) <= m < 2 * Pow2(fraction) && k + 10 >= fraction && s < 2
    ensures 2 * m + s < 0x800 * Pow2(k + 1)
    ensures k + 10 == fraction ==> 0x400 * Pow2(k + 1) <= 2 * m + s
  {
    Pow2Values();
    Pow2Adds(11, k);
    Pow2Adds(10, k);
    Pow2Grows(fraction + 1, k + 11);
  }

  lemma CutIsNearest(num: nat, den: nat, m: nat, s: nat, j: nat, k: nat, e: nat)
    requires s < 2 && Jam(num, den, 2 * m + s, Pow2(j)) && j < k && e <= 29
    requires 2 * m + s < 0x800 * Pow2(k + 1) && (e > 0 ==> 0x400 * Pow2(k + 1) <= 2 * m + s)
    ensures Nearest(num * Pow2(e), den * Pow2(k + 1), RoundedCut(e * 0x400, m, k, s))
  {
    RoundedIsNearest(num, den, 2 * m + s, j, k + 1, e);
    AppendedBit(m, s, k);
  }

  lemma AppendedBit(m: nat, s: nat, k: nat)
    requires s < 2 && k > 0
    ensures ShiftRight(2 * m + s, k + 1) == ShiftRight(m, k)
    ensures GuardBit(2 * m + s, k + 1) == GuardBit(m, k)
    ensures StickyBits(2 * m + s, k + 1) == (s == 1 || StickyBits(m, k))
  {
    DoubleCut(m, s, Pow2(k));
    DoubleCut(m, s, Pow2(k - 1));
  }

  lemma Rescale(num: nat, den: nat, e: nat, k: nat, up: nat, r: nat)
    requires den > 0 && Nearest(num * Pow2(e), den * Pow2(k), r)
    ensures Nearest(num * Pow2(e + up), den * Pow2(k + up), r)
  {
    Product(den, Pow2(k));
    ScaleUp(num * Pow2(e), den * Pow2(k), Pow2(up), r);
    Pow2Adds(e, up);
    Pow2Adds(k, up);
    Regroup(num, Pow2(e), Pow2(up));
    Regroup(den, Pow2(k), Pow2(up));
  }

  lemma ScaleUp(num: nat, den: nat, scale: nat, r: nat)
    requires den > 0 && scale > 0 && Nearest(num, den, r)
    ensures Nearest(num * scale, den * scale, r)
  {
    Product(den, scale);
    Regroup(num, den, scale);
    Regroup(den, num, scale);
    SameFraction(num, den, num * scale, den * scale, r);
  }

  /** num / den at exponent exp, in the format with the given fraction bits, stands for n / d units. */
  ghost predicate Scaled(n: nat, d: nat, num: nat, den: nat, fraction: nat, exp: int) {
    exp >= -64 && n * (den * Pow2(fraction + 55)) == num * Pow2(exp + 64) * d
  }

  /** The tail of operator*, operator/ and fma: overflow, underflow or rounding. */
  method Finish(fraction: nat, m: nat, exp: int, sign: nat, s: nat,
                ghost num: nat, ghost den: nat, ghost j: nat, ghost n: nat, ghost d: nat)
    returns (r: Half)
    requires 11 <= fraction && Pow2(fraction) <= m < 2 * Pow2(fraction)
    requires sign in {0, 0x8000} && s < 2 && d > 0
    requires Jam(num, den, 2 * m + s, Pow2(j)) && j + 10 < fraction
    requires Scaled(n, d, num, den, fraction, exp)
    ensures RoundsTo(sign == 0x8000, n, d, r)
  {
    if exp > 29 {
      JamBounds(num, den, 2 * m + s, j, fraction + 1);
      Overflows(n, d, num, den, fraction, exp);
      WithSign(sign, n, d, INFINITY);
      r := sign + INFINITY;
    } else if exp < -11 {
      JamBounds(num, den, 2 * m + s, j, fraction + 1);
      Underflows(n, d, num, den, fraction, exp);
      WithSign(sign, n, d, 0);
      r := sign;
    } else {
      r := FixedToHalf(fraction, m, exp, sign, s, num, den, j);
      Product(den, Pow2(fraction + 55));
      SameFraction(num * Pow2(exp + 64), den * Pow2(fraction + 55), n, d, Magnitude(r));
    }
  }

  lemma JamBounds(num: nat, den: nat, z: nat, j: nat, top: nat)
    requires Jam(num, den, z, Pow2(j)) && j < top && Pow2(top) <= z < 2 * Pow2(top)
    ensures Pow2(top) * den <= num < 2 * Pow2(top) * den
  {
    Pow2Divides(1, j + 1, top);
    Pow2Divides(1, j + 1, top + 1);
    JamKeepsSides(num, den, z, Pow2(j), Pow2(top));
    JamKeepsSides(num, den, z, Pow2(j), 2 * Pow2(top));
  }

  lemma Overflows(n: nat, d: nat, num: nat, den: nat, fraction: nat, exp: int)
    requires d > 0 && den > 0 && exp > 29 && Scaled(n, d, num, den, fraction, exp)
    requires Pow2(fraction + 1) * den <= num
    ensures Nearest(n, d, INFINITY)
  {
    LargeAtExponent(num, den, fraction + 1, 94, 40, fraction + 55, exp + 64);
    Product(den, Pow2(fraction + 55));
    AtLeast(n, d, den * Pow2(fraction + 55), num * Pow2(exp + 64), Pow2(40));
    InfinityValue();
    TooLarge(n, d);
  }

  lemma InfinityValue()
    ensures Value(INFINITY) == Pow2(40)
  {
    Pow2Values();
    ValueAt(0x800, 29);
    Pow2Adds(11, 29);
  }

  lemma LargeAtExponent(num: nat, den: nat, a: nat, t: nat, b: nat, c: nat, up: nat)
    requires t <= up && a + t == b + c && Pow2(a) * den <= num
    ensures Pow2(b) * (den * Pow2(c)) <= num * Pow2(up)
  {
    Pow2Grows(t, up);
    SamePower(a, t, b, c);
    LargeProduct(Pow2(a), den, num, Pow2(t), Pow2(up), Pow2(b), Pow2(c));
  }

  lemma LargeProduct(a: nat, den: nat, num: nat, t: nat, up: nat, b: nat, c: nat)
    requires a * den <= num && t <= up && a * t == b * c
    ensures b * (den * c) <= num * up
  {
    Products(a * den, num, t, up);
    Rebalance(a, den, t, b, c);
  }

  lemma AtLeast(n: nat, d: nat, u: nat, w: nat, c: nat)
    requires u > 0 && n * u == w * d && c * u <= w
    ensures d * c <= n
  {
    ScalesWeakly(c * u, w, d);
    Regroup(d, c, u);
    Ordered(n, d * c, u);
  }

  lemma Less(n: nat, d: nat, u: nat, w: nat)
    requires u > 0 && d > 0 && n * (2 * u) == w * d && w < u
    ensures 2 * n < d
  {
    Scales(w, u, d);
    Regroup(n, 2, u);
    Ordered(2 * n, d, u);
  }

  lemma SmallAtExponent(num: nat, den: nat, a: nat, t: nat, c: nat, up: nat)
    requires up <= t && a + t == c && num < Pow2(a) * den
    ensures num * Pow2(up) < den * Pow2(c)
  {
    Pow2Grows(up, t);
    Pow2Adds(a, t);
    StrictProduct(num, Pow2(a) * den, Pow2(up), Pow2(t));
    Rebalance(Pow2(a), den, Pow2(t), 1, Pow2(c));
  }

  lemma Underflows(n: nat, d: nat, num: nat, den: nat, fraction: nat, exp: int)
    requires d > 0 && den > 0 && exp < -11 && Scaled(n, d, num, den, fraction, exp)
    requires num < Pow2(fraction + 2) * den
    ensures Nearest(n, d, 0)
  {
    SmallAtExponent(num, den, fraction + 2, 52, fraction + 54, exp + 64);
    Product(den, Pow2(fraction + 54));
    Regroup(den, 2, Pow2(fraction + 54));
    Less(n, d, den * Pow2(fraction + 54), num * Pow2(exp + 64));
    TooSmall(n, d);
  }

  lemma Products(a: nat, b: nat, p: nat, q: nat)
    requires a <= b && p <= q
    ensures a * p <= b * q
  {
    ScalesWeakly(a, b, p);
    ScalesWeakly(p, q, b);
  }

  lemma StrictProduct(a: nat, b: nat, p: nat, q: nat)
    requires a < b && 0 < p <= q
    ensures a * p < b * q
  {
    Scales(a, b, p);
    ScalesWeakly(p, q, b);
  }

  lemma Rebalance(a: nat, den: nat, b: nat, c: nat, e: nat)
    requires a * b == c * e
    ensures a * den * b == c * (den * e)
  {
    Regroup(den, a, b);
    Regroup(c, den, e);
    Regroup(den, c, e);
  }

  // ----- multiplication -----

  lemma FourFactors(a: nat, b: nat, c: nat, d: nat)
    ensures a * b * (c * d) == a * c * (b * d)
  {
    Regroup(a * b, c, d);
    Regroup(a, b, c);
    Regroup(a, c, b);
    Regroup(a * c, b, d);
  }

  lemma Lift(v: nat, p: nat, m: nat, q: nat, up: nat)
    requires v * Pow2(p) == m * Pow2(q)
    ensures v * Pow2(p + up) == m * Pow2(q + up)
  {
    Pow2Adds(p, up);
    Pow2Adds(q, up);
    Regroup(v, Pow2(p), Pow2(up));
    Regroup(m, Pow2(q), Pow2(up));
  }

  lemma ExactProduct(vx: nat, vy: nat, mx: nat, my: nat, a: nat, b: nat)
    requires vx * Pow2(10) == mx * Pow2(a) && vy * Pow2(10) == my * Pow2(b)
    ensures vx * vy * Pow2(20) == mx * my * Pow2(a + b)
  {
    Pow2Adds(10, 10);
    Pow2Adds(a, b);
    FourFactors(vx, vy, Pow2(10), Pow2(10));
    FourFactors(mx, my, Pow2(a), Pow2(b));
  }

  lemma SignificandProduct(mx: nat, my: nat)
    requires 0x400 <= mx < 0x800 && 0x400 <= my < 0x800
    ensures Pow2(20) == 0x100000 && 0x100000 <= mx * my < 0x400000
  {
    Pow2Values();
    Products(0x400, mx, 0x400, my);
    StrictProduct(mx, 0x800, my, 0x800);
  }

  lemma Doubles(n: nat)
    ensures Pow2(n + 1) == 2 * Pow2(n)
  {
  }

  lemma ProductScaled(n: nat, m: nat, i: nat, num: nat, q: nat, exp: int)
    requires n * Pow2(20) == m * Pow2(q) && i < 2 && exp == q - 34 + i
    requires num == if i == 1 then m else 2 * m
    ensures Scaled(n, Pow2(24), num, 1, 20, exp)
  {
    hide Pow2;
    Lift(n, 20, m, q, 55);
    Pow2Adds(exp + 64, 24);
    Regroup(num, Pow2(exp + 64), Pow2(24));
    assert exp + 64 + 24 + (1 - i) == q + 55;
    if i == 0 {
      Doubles(exp + 88);
      Regroup(m, 2, Pow2(exp + 88));
    }
  }

  lemma ZeroProduct(absx: nat, absy: nat)
    requires absx < INFINITY && absy < INFINITY && (absx == 0 || absy == 0)
    ensures Nearest(Value(absx) * Value(absy), Pow2(24), 0)
  {
    assert Value(absx) * Value(absy) == 0;
    TooSmall(Value(absx) * Value(absy), Pow2(24));
  }

  method Multiply(x: Half, y: Half) returns (r: Half)
    ensures IsProduct(x, y, r)
  {
    var absx, absy := Magnitude(x), Magnitude(y);
    var sign := SignBit(Negative(x) != Negative(y));
    if absx >= INFINITY || absy >= INFINITY {
      return if absx > INFINITY || absy > INFINITY then PropagatedNan(x, y)
             else if (absx == INFINITY && absy == 0) || (absy == INFINITY && absx == 0) then NAN
             else sign + INFINITY;
    }
    if absx == 0 || absy == 0 {
      ZeroProduct(absx, absy);
      return sign;
    }
    r := MultiplyMagnitudes(absx, absy, sign);
  }

  method MultiplyMagnitudes(absx: nat, absy: nat, sign: nat) returns (r: Half)
    requires 0 < absx < INFINITY && 0 < absy < INFINITY && sign in {0, 0x8000}
    ensures RoundsTo(sign == 0x8000, Value(absx) * Value(absy), Pow2(24), r)
  {
    var mx, ex := Normalize(absx);
    var my, ey := Normalize(absy);
    SignificandProduct(mx, my);
    ExactProduct(Value(absx), Value(absy), mx, my, ex + 9, ey + 9);
    r := FinishProduct(mx * my, -16 + ex + ey, sign, Value(absx) * Value(absy));
  }

  method FinishProduct(m: nat, exp: int, sign: nat, ghost n: nat) returns (r: Half)
    requires 0x100000 <= m < 0x400000 && exp >= -34 && sign in {0, 0x8000} && Pow2(20) == 0x100000
    requires n * Pow2(20) == m * Pow2(exp + 34)
    ensures RoundsTo(sign == 0x8000, n, Pow2(24), r)
  {
    hide *;
    var i := m / 0x200000;
    if i == 1 {
      ProductScaled(n, m, 1, m, exp + 34, exp + 1);
      ExactJam(m);
      r := Finish(20, m / 2, exp + 1, sign, m % 2, m, 1, 0, n, Pow2(24));
    } else {
      ProductScaled(n, m, 0, 2 * m, exp + 34, exp);
      ExactJam(2 * m);
      r := Finish(20, m, exp, sign, 0, 2 * m, 1, 0, n, Pow2(24));
    }
  }

  lemma ExactJam(m: nat)
    ensures Jam(m, 1, m, Pow2(0))
  {
  }

  // ----- division -----

  /** Quotient bit string with the remainder as its sticky bit. */
  lemma DivisionJams(p: nat, q: nat)
    requires q > 0
    ensures p / q >= 0
    ensures Jam(2 * p, q, 2 * (p / q) + if p % q != 0 then 1 else 0, Pow2(0))
  {
    var m := p / q;
    assert p == q * m + p % q;
    Regroup(2, m, q);
    Distributes(q, 2 * m, 1);
    Distributes(q, 2 * m, 2);
  }

  lemma QuotientBits(mx: nat, my: nat, i: nat)
    requires 0x400 <= mx < 0x800 && 0x400 <= my < 0x800 && i == if mx < my then 1 else 0
    ensures Pow2(11) <= mx * Pow2(12 + i) / (my * 2) < 2 * Pow2(11)
  {
    assert Pow2(10) == 0x400 && Pow2(11) == 0x800 && Pow2(12) == 0x1000 && Pow2(13) == 0x2000;
    QuotientRange(mx * Pow2(12 + i), my * 2, 0x800);
    QuotientRange(mx * Pow2(12 + i), my * 2, 0x1000);
  }

  lemma Collect(v: nat, w: nat, p: nat, q: nat)
    ensures v * Pow2(p) * (w * 2 * Pow2(q)) == v * w * Pow2(p + q + 1)
  {
    Pow2Adds(p, q + 1);
    Regroup(w, 2, Pow2(q));
    FourFactors(v, Pow2(p), w, Pow2(q + 1));
  }

  lemma CollectNumerator(m: nat, v: nat, p: nat, q: nat)
    ensures 2 * (m * Pow2(p)) * Pow2(q) * v == m * v * Pow2(p + q + 1)
  {
    Doubles(p);
    hide Pow2;
    Pow2Adds(p + 1, q);
    Regroup(2, m, Pow2(p));
    Regroup(m, 2, Pow2(p));
    Regroup(m, Pow2(p + 1), Pow2(q));
    Regroup(v, m, Pow2(p + q + 1));
  }

  lemma CrossProducts(vx: nat, vy: nat, mx: nat, my: nat, a: nat, b: nat, t: nat)
    requires vx * Pow2(10) == mx * Pow2(a) && vy * Pow2(10) == my * Pow2(b)
    requires t >= 10 && b + 10 <= a + t
    ensures vx * my * Pow2(t) == mx * vy * Pow2(t + a - b)
  {
    var common := Pow2(a + t - 10);
    Lift(vx, 10, mx, a, t - 10);
    Lift(vy, 10, my, b, a + t - 10 - b);
    Regroup(my, vx, Pow2(t));
    Regroup(mx, vy, Pow2(t + a - b));
    Regroup(my, mx, common);
    Commute(my, vx);
    Commute(my, mx);
  }

  /** Names the two sides of Scaled, with no literal exponent for the solver to multiply out. */
  lemma QuotientScaled(vx: nat, vy: nat, mx: nat, my: nat, a: nat, b: nat, i: nat, exp: int, u: nat, fraction: nat)
    requires vx * Pow2(10) == mx * Pow2(a) && vy * Pow2(10) == my * Pow2(b)
    requires i < 2 && a <= 39 && b <= 39 && exp == 14 + a - b - i && u == 24 && fraction == 11
    ensures Scaled(vx * Pow2(u), vy, 2 * (mx * Pow2(12 + i)), my * 2, fraction, exp)
  {
    hide Pow2;
    var t := u + fraction + 56;
    Collect(vx, my, u, fraction + 55);
    CollectNumerator(mx, vy, 12 + i, exp + 64);
    assert 12 + i + (exp + 64) + 1 == t + a - b;
    CrossProducts(vx, vy, mx, my, a, b, t);
  }

  method Divide(x: Half, y: Half) returns (r: Half)
    ensures IsQuotient(x, y, r)
  {
    var absx, absy := Magnitude(x), Magnitude(y);
    var sign := SignBit(Negative(x) != Negative(y));
    if absx >= INFINITY || absy >= INFINITY {
      return if absx > INFINITY || absy > INFINITY then PropagatedNan(x, y)
             else if absx == absy then NAN
             else sign + if absx == INFINITY then INFINITY else 0;
    }
    if absx == 0 {
      if absy != 0 { ZeroQuotient(absy); }
      return if absy != 0 then sign else NAN;
    }
    if absy == 0 {
      return sign + INFINITY;
    }
    r := DivideMagnitudes(absx, absy, sign);
  }

  lemma ZeroQuotient(absy: nat)
    requires 0 < absy < INFINITY
    ensures Nearest(Value(0) * Pow2(24), Value(absy), 0)
  {
    ValueIncreases(0, absy);
    assert Value(0) * Pow2(24) == 0;
    TooSmall(Value(0) * Pow2(24), Value(absy));
  }

  method DivideMagnitudes(absx: nat, absy: nat, sign: nat) returns (r: Half)
    requires 0 < absx < INFINITY && 0 < absy < INFINITY && sign in {0, 0x8000}
    ensures RoundsTo(sign == 0x8000, Value(absx) * Pow2(24), Value(absy), r)
  {
    var mx, ex := Normalize(absx);
    var my, ey := Normalize(absy);
    ValueIncreases(0, absy);
    r := DivideSignificands(mx, ex, my, ey, sign, Value(absx), Value(absy), 24);
  }

  method DivideSignificands(mx: nat, ex: int, my: nat, ey: int, sign: nat, ghost vx: nat, ghost vy: nat, ghost u: nat)
    returns (r: Half)
    requires 0x400 <= mx < 0x800 && 0x400 <= my < 0x800 && -9 <= ex <= 30 && -9 <= ey <= 30
    requires vx * Pow2(10) == mx * Pow2(ex + 9) && vy * Pow2(10) == my * Pow2(ey + 9) && vy > 0
    requires sign in {0, 0x8000} && u == 24
    ensures RoundsTo(sign == 0x8000, vx * Pow2(u), vy, r)
  {
    hide *;
    var i := if mx < my then 1 else 0;
    var exp := 14 + ex - ey - i;
    var fraction := 11;
    QuotientBits(mx, my, i);
    QuotientScaled(vx, vy, mx, my, ex + 9, ey + 9, i, exp, u, fraction);
    r := FinishQuotient(fraction, mx * Pow2(12 + i), my * 2, exp, sign, vx * Pow2(u), vy);
  }

  method FinishQuotient(fraction: nat, p: nat, q: nat, exp: int, sign: nat, ghost n: nat, ghost d: nat)
    returns (r: Half)
    requires q > 0 && d > 0 && sign in {0, 0x8000} && fraction >= 11
    requires Pow2(fraction) <= p / q < 2 * Pow2(fraction) && Scaled(n, d, 2 * p, q, fraction, exp)
    ensures RoundsTo(sign == 0x8000, n, d, r)
  {
    DivisionJams(p, q);
    r := Finish(fraction, p / q, exp, sign, if p % q != 0 then 1 else 0, 2 * p, q, 0, n, d);
  }

  // ----- addition -----

  /** The significand of a half with its implicit bit, and its exponent field with subnormals at 1. */
  function Significand(abs: nat): nat {
    if abs > 0x3FF then abs % 0x400 + 0x400 else abs
  }

  function Field(abs: nat): nat {
    abs / 0x400 + if abs <= 0x3FF then 1 else 0
  }

  lemma SplitValue(abs: nat)
    requires 0 < abs < INFINITY
    ensures 1 <= Field(abs) <= 30 && 0 < Significand(abs) < 0x800
    ensures Field(abs) > 1 ==> Significand(abs) >= 0x400
    ensures Value(abs) == Significand(abs) * Pow2(Field(abs) - 1)
  {
    assert (Field(abs) - 1) * 0x400 + Significand(abs) == abs;
    ValueAt(Significand(abs), Field(abs) - 1);
  }

  // ----- aligning two operands -----

  /**
   * A significand below 2^(top + 1) moved d places right with its last bit sticky; from top places on,
   * only the sticky bit is left.
   */
  function Aligned(m: nat, d: nat, top: nat): nat {
    if d < top then StickyShift(m, d) else 1
  }

  lemma AlignedJams(m: nat, d: nat, top: nat)
    requires 0 < m < 2 * Pow2(top)
    ensures Jam(m, Pow2(d), Aligned(m, d, top), 1)
  {
    if d < top {
      StickyShiftJams(m, d);
    } else {
      Pow2Grows(top, d);
      FarAwayJams(m, d);
    }
  }

  lemma AlignedBounds(m: nat, d: nat, top: nat)
    requires 0 < m < 2 * Pow2(top) && top >= 3
    ensures Aligned(m, d, top) < 2 * Pow2(top)
    ensures d >= 3 ==> Aligned(m, d, top) <= Pow2(top - 2)
  {
    if d == 0 {
      assert Pow2(0) == 1 && ShiftRight(m, 0) == m;
    } else if d < top {
      SmallShift(m, d, 1, Pow2(top));
      if d >= 3 { assert Pow2(3) == 8; SmallShift(m, d, 3, Pow2(top - 2)); }
    }
  }

  lemma SmallShift(m: nat, d: nat, least: nat, bound: nat)
    requires least <= d && m < bound * Pow2(least) && bound % 2 == 0
    ensures StickyShift(m, d) <= bound
  {
    Pow2Grows(least, d);
    ScalesWeakly(Pow2(least), Pow2(d), bound);
    QuotientRange(m, Pow2(d), bound);
  }

  lemma AlignedExactly(m: nat, d: nat, top: nat)
    requires m % 4 == 0 && d <= 2 < top
    ensures m == Aligned(m, d, top) * Pow2(d)
  {
    var k := m / 4;
    var q := if d == 0 then 4 * k else if d == 1 then 2 * k else k;
    assert Pow2(d) == if d == 0 then 1 else if d == 1 then 2 else 4;
    ShiftsBack(q, Pow2(d), m, d);
  }

  lemma ShiftsBack(q: nat, p: nat, m: nat, d: nat)
    requires p == Pow2(d) && m == q * p
    ensures StickyShift(m, d) == q
  {
    Exact(q, p);
  }

  /** num / den times 2^up, divided by 2^scale, is the integer exact. */
  ghost predicate StandsFor(exact: nat, num: nat, den: nat, scale: nat, up: int) {
    up >= 0 && den > 0 && exact * (den * Pow2(scale)) == num * Pow2(up)
  }

  /** Both operands over the common denominator Pow2(d): the larger one is a multiple of it. */
  lemma CommonScale(vx: nat, vy: nat, mx: nat, my: nat, scale: nat, up: nat, d: nat)
    requires up >= d && vx * Pow2(scale) == mx * Pow2(up) && vy * Pow2(scale) == my * Pow2(up - d)
    ensures StandsFor(vx, mx * Pow2(d), Pow2(d), scale, up)
    ensures StandsFor(vy, my, Pow2(d), scale, up)
  {
    Pow2Adds(up - d, d);
    var p := Pow2(d);
    Regroup(vx, p, Pow2(scale));
    Regroup(mx, p, Pow2(up));
    Regroup(vy, p, Pow2(scale));
    Regroup(my, Pow2(up - d), p);
    Commute(p, my * Pow2(up - d));
    Regroup(p, mx, Pow2(up));
  }

  lemma StandsForSum(vx: nat, vy: nat, nx: nat, ny: nat, den: nat, scale: nat, up: int)
    requires StandsFor(vx, nx, den, scale, up) && StandsFor(vy, ny, den, scale, up)
    ensures StandsFor(vx + vy, nx + ny, den, scale, up)
    ensures vy <= vx <==> ny <= nx
    ensures vy <= vx ==> StandsFor(vx - vy, nx - ny, den, scale, up)
    ensures vy == vx <==> ny == nx
  {
    var u, p := den * Pow2(scale), Pow2(up);
    Product(den, Pow2(scale));
    Distributes(u, vx, vy);
    Distributes(p, nx, ny);
    Ordered(vx, vy, u);
    Ordered(nx, ny, p);
    Distributes(u, vx, 0 - vy);
    Distributes(p, nx, 0 - ny);
  }

  lemma ExponentDown(exact: nat, num: nat, den: nat, scale: nat, up: int)
    requires up > 0 && StandsFor(exact, num, den, scale, up)
    ensures StandsFor(exact, 2 * num, den, scale, up - 1)
  {
    Regroup(num, 2, Pow2(up - 1));
    Commute(2, num);
  }

  lemma ExponentUp(exact: nat, num: nat, den: nat, scale: nat, up: int)
    requires StandsFor(exact, num, den, scale, up)
    ensures StandsFor(exact, num, den * 2, scale, up + 1)
  {
    Regroup(den, 2, Pow2(scale));
    Regroup(2, den, Pow2(scale));
    Regroup(exact, 2, den * Pow2(scale));
    Regroup(num, 2, Pow2(up));
  }

  /** What addition and subtraction need to know about the operands after alignment. */
  ghost predicate Ready(mx: nat, my: nat, a: nat, den: nat, vx: nat, vy: nat, top: nat, scale: nat, up: int) {
    && top >= 3 && 0 < mx < 2 * Pow2(top) && mx % 4 == 0 && a < 2 * Pow2(top)
    && Jam(my, den, a, 1)
    && (my == a * den || (mx >= Pow2(top) && a <= Pow2(top - 2)))
    && StandsFor(vx, mx * den, den, scale, up) && StandsFor(vy, my, den, scale, up)
  }

  lemma OperandsReady(mx: nat, my: nat, d: nat, vx: nat, vy: nat, top: nat, scale: nat, up: int)
    requires top >= 3 && 0 < mx < 2 * Pow2(top) && 0 < my < 2 * Pow2(top) && mx % 4 == 0 && my % 4 == 0
    requires d > 0 ==> mx >= Pow2(top)
    requires up >= d && vx * Pow2(scale) == mx * Pow2(up) && vy * Pow2(scale) == my * Pow2(up - d)
    ensures Ready(mx, my, Aligned(my, d, top), Pow2(d), vx, vy, top, scale, up)
  {
    CommonScale(vx, vy, mx, my, scale, up, d);
    AlignedJams(my, d, top);
    AlignedBounds(my, d, top);
    if d <= 2 { AlignedExactly(my, d, top); }
  }

  lemma Difference(mx: nat, my: nat, a: nat, den: nat, vx: nat, vy: nat, top: nat, scale: nat, up: int)
    requires Ready(mx, my, a, den, vx, vy, top, scale, up) && vy <= vx
    ensures a <= mx && my <= mx * den && (mx == a <==> vx == vy)
    ensures var num := mx * den - my;
            && Jam(num, den, mx - a, 1) && StandsFor(vx - vy, num, den, scale, up)
            && (num == (mx - a) * den || mx - a >= Pow2(top - 1))
  {
    DifferenceValue(mx, my, a, den, vx, vy, top, scale, up);
    assert my == a * den || (mx >= Pow2(top) && a <= Pow2(top - 2));
    hide *;
    DifferenceBits(mx, my, a, den, top);
  }

  lemma DifferenceValue(mx: nat, my: nat, a: nat, den: nat, vx: nat, vy: nat, top: nat, scale: nat, up: int)
    requires Ready(mx, my, a, den, vx, vy, top, scale, up) && vy <= vx
    ensures a <= mx && my <= mx * den && (mx == a <==> vx == vy)
    ensures Jam(mx * den - my, den, mx - a, 1) && StandsFor(vx - vy, mx * den - my, den, scale, up)
  {
    hide StandsFor, Jam;
    StandsForSum(vx, vy, mx * den, my, den, scale, up);
    JamMinus(mx, my, den, a);
  }

  /** The difference is exact, or keeps all but one of its leading places. */
  lemma DifferenceBits(mx: nat, my: nat, a: nat, den: nat, top: nat)
    requires top >= 3 && a <= mx && (my == a * den || (mx >= Pow2(top) && a <= Pow2(top - 2)))
    ensures mx * den - my == (mx - a) * den || mx - a >= Pow2(top - 1)
  {
    if my == a * den {
      Distributes(den, a, mx - a);
    } else {
      assert Pow2(top) == 2 * Pow2(top - 1) && Pow2(top - 1) == 2 * Pow2(top - 2);
    }
  }

  lemma Total(mx: nat, my: nat, a: nat, den: nat, vx: nat, vy: nat, top: nat, scale: nat, up: int)
    requires Ready(mx, my, a, den, vx, vy, top, scale, up)
    ensures Jam(mx * den + my, den, mx + a, 1) && StandsFor(vx + vy, mx * den + my, den, scale, up)
  {
    hide StandsFor, Jam, Pow2;
    StandsForSum(vx, vy, mx * den, my, den, scale, up);
    JamPlus(mx, my, den, a);
  }

  /** One step of a normalisation loop. Only a difference that is exact may lose more than one place. */
  lemma ShiftedLeft(exact: nat, num: nat, den: nat, m: nat, j: nat, top: nat, scale: nat, up: int) returns (j': nat)
    requires up > 0 && top > 0 && m < Pow2(top) && j <= 1
    requires Jam(num, den, m, Pow2(j)) && StandsFor(exact, num, den, scale, up)
    requires num == m * den || m >= (if j == 0 then Pow2(top - 1) else Pow2(top))
    ensures j' <= 1 && Jam(2 * num, den, 2 * m, Pow2(j')) && StandsFor(exact, 2 * num, den, scale, up - 1)
    ensures 2 * num == 2 * m * den || 2 * m >= (if j' == 0 then Pow2(top - 1) else Pow2(top))
  {
    ExponentDown(exact, num, den, scale, up);
    Regroup(2, m, den);
    if num == m * den {
      j' := 0;
    } else {
      JamDoubles(num, den, m, 1);
      j' := 1;
    }
  }

  method Add(x: Half, y: Half) returns (r: Half)
    ensures IsSum(x, y, r)
  {
    var absx, absy := Magnitude(x), Magnitude(y);
    var sub := Negative(x) != Negative(y);
    if absx >= INFINITY || absy >= INFINITY {
      return if absx > INFINITY || absy > INFINITY then PropagatedNan(x, y)
             else if absy != INFINITY then x
             else if sub && absx == INFINITY then NAN
             else y;
    }
    HalvesRoundToThemselves(1, absx);
    HalvesRoundToThemselves(1, absy);
    ValueIsPositive(absx);
    ValueIsPositive(absy);
    if absx == 0 {
      return if absy != 0 then y else SignBit(Negative(x) && Negative(y));
    }
    if absy == 0 {
      return x;
    }
    r := AddNonzero(absx, absy, Negative(x), Negative(y));
  }

  lemma ValueIsPositive(abs: nat)
    requires abs < INFINITY
    ensures Value(abs) > 0 <==> abs > 0
  {
    if abs > 0 { ValueIncreases(0, abs); }
  }

  /** The larger magnitude gives the sign. */
  method AddNonzero(absx: nat, absy: nat, xNegative: bool, yNegative: bool) returns (r: Half)
    requires 0 < absx < INFINITY && 0 < absy < INFINITY
    ensures var exact := Signed(xNegative, Value(absx)) + Signed(yNegative, Value(absy));
            RoundsTo(if exact == 0 then xNegative && yNegative else exact < 0, Abs(exact), 1, r)
  {
    hide Value, Nearest;
    var sub := xNegative != yNegative;
    var sign := SignBit(if sub && absy > absx then yNegative else xNegative);
    TooSmall(0, 1);
    if absy > absx {
      ValueIncreases(absx, absy);
      r := AddMagnitudes(absy, absx, sub, sign);
    } else {
      if absy < absx { ValueIncreases(absy, absx); }
      r := AddMagnitudes(absx, absy, sub, sign);
    }
  }

  method AddMagnitudes(absx: nat, absy: nat, sub: bool, sign: nat) returns (r: Half)
    requires 0 < absy <= absx < INFINITY && sign in {0, 0x8000}
    ensures var exact := if sub then Value(absx) - Value(absy) else Value(absx) + Value(absy);
            if exact == 0 then sub && r == 0 else exact > 0 && RoundsTo(sign == 0x8000, exact, 1, r)
  {
    hide *;
    var exp := Field(absx);
    var d := exp - Field(absy);
    var mx, my := Significand(absx) * 8, Significand(absy) * 8;
    if absy < absx { ValueIncreases(absy, absx); }
    ValueIncreases(0, absy);
    HalvesReady(absx, absy, 13, 3);
    if sub {
      r := SubtractAligned(mx, Aligned(my, d, 13), exp, sign, my, Pow2(d), Value(absx), Value(absy), 13, 3);
    } else {
      r := AddAligned(mx, Aligned(my, d, 13), exp, sign, my, Pow2(d), Value(absx), Value(absy), 13, 3);
    }
  }

  lemma HalvesReady(absx: nat, absy: nat, top: nat, scale: nat)
    requires 0 < absy <= absx < INFINITY && top == 13 && scale == 3
    ensures Field(absy) <= Field(absx) && 1 <= Field(absx) <= 30
    ensures Field(absx) > 1 ==> Significand(absx) >= 0x400
    ensures var d := Field(absx) - Field(absy);
            Ready(Significand(absx) * 8, Significand(absy) * 8, Aligned(Significand(absy) * 8, d, top), Pow2(d),
                  Value(absx), Value(absy), top, scale, Field(absx) - 1)
  {
    SplitValue(absx);
    SplitValue(absy);
    SignificandsReady(Significand(absx), Significand(absy), Field(absx) - 1, Field(absx) - Field(absy),
                      Value(absx), Value(absy), top, scale);
  }

  lemma SignificandsReady(sx: nat, sy: nat, up: nat, d: nat, vx: nat, vy: nat, top: nat, scale: nat)
    requires 0 < sx < 0x800 && 0 < sy < 0x800 && d <= up && top == 13 && scale == 3
    requires d > 0 ==> sx >= 0x400
    requires vx == sx * Pow2(up) && vy == sy * Pow2(up - d)
    ensures Ready(sx * 8, sy * 8, Aligned(sy * 8, d, top), Pow2(d), vx, vy, top, scale, up)
  {
    ThreePlaces(top, scale);
    hide *;
    EightTimes(vx, sx, Pow2(up));
    EightTimes(vy, sy, Pow2(up - d));
    OperandsReady(sx * 8, sy * 8, d, vx, vy, top, scale, up);
  }

  lemma ThreePlaces(top: nat, scale: nat)
    requires top == 13 && scale == 3
    ensures Pow2(top) == 0x2000 && Pow2(scale) == 8
  {
    Pow2Values();
  }

  lemma EightTimes(v: nat, s: nat, p: nat)
    requires v == s * p
    ensures v * 8 == s * 8 * p && s * 8 % 4 == 0
  {
  }

  method SubtractAligned(mx: nat, a: nat, exp: int, sign: nat, ghost my: nat, ghost den: nat,
                         ghost vx: nat, ghost vy: nat, ghost top: nat, ghost scale: nat)
    returns (r: Half)
    requires Ready(mx, my, a, den, vx, vy, top, scale, exp - 1) && vy <= vx && exp <= 30 && sign in {0, 0x8000}
    requires top == 13 && scale == 3
    ensures if vx == vy then r == 0 else RoundsTo(sign == 0x8000, vx - vy, 1, r)
  {
    assert Pow2(13) == 0x2000;
    Difference(mx, my, a, den, vx, vy, top, scale, exp - 1);
    if mx - a == 0 {
      return 0;
    }
    r := NormalizeSum(mx - a, exp, sign, mx * den - my, den, vx - vy, top, scale);
  }

  /** Cancellation leaves leading zeros; they are shifted out as far as the exponent allows. */
  method NormalizeSum(m0: nat, exp0: int, sign: nat,
                      ghost num0: nat, ghost den: nat, ghost exact: nat, ghost top: nat, ghost scale: nat)
    returns (r: Half)
    requires top == 13 && scale == 3 && Pow2(top) == 0x2000
    requires 0 < m0 < 0x4000 && 1 <= exp0 <= 30 && sign in {0, 0x8000}
    requires Jam(num0, den, m0, 1) && StandsFor(exact, num0, den, scale, exp0 - 1)
    requires num0 == m0 * den || m0 >= Pow2(top - 1)
    ensures RoundsTo(sign == 0x8000, exact, 1, r)
  {
    var m, exp := m0, exp0;
    ghost var num, j := num0, 0;
    while m < 0x2000 && exp > 1
      invariant 0 < m < 0x4000 && 1 <= exp <= 30 && j <= 1
      invariant Jam(num, den, m, Pow2(j)) && StandsFor(exact, num, den, scale, exp - 1)
      invariant num == m * den || m >= (if j == 0 then Pow2(top - 1) else Pow2(top))
      decreases exp
    {
      j := ShiftedLeft(exact, num, den, m, j, top, scale, exp - 1);
      m := m * 2;
      exp := exp - 1;
      num := 2 * num;
    }
    r := FinishSum(m, exp, sign, num, den, j, exact, scale);
  }

  method AddAligned(mx: nat, a: nat, exp: int, sign: nat, ghost my: nat, ghost den: nat,
                    ghost vx: nat, ghost vy: nat, ghost top: nat, ghost scale: nat)
    returns (r: Half)
    requires Ready(mx, my, a, den, vx, vy, top, scale, exp - 1) && exp <= 30 && sign in {0, 0x8000}
    requires top == 13 && scale == 3 && (exp > 1 ==> mx >= 0x2000)
    ensures RoundsTo(sign == 0x8000, vx + vy, 1, r)
  {
    assert Pow2(13) == 0x2000;
    Total(mx, my, a, den, vx, vy, top, scale, exp - 1);
    r := CarrySum(mx + a, exp, sign, mx * den + my, den, vx + vy, scale);
  }

  /** A carry out of the significand moves it back one place, keeping the bit shifted out as sticky. */
  method CarrySum(m: nat, exp: int, sign: nat, ghost num: nat, ghost den: nat, ghost exact: nat, ghost scale: nat)
    returns (r: Half)
    requires m < 0x8000 && 1 <= exp <= 30 && (exp > 1 ==> m >= 0x2000) && sign in {0, 0x8000} && scale == 3
    requires Jam(num, den, m, 1) && StandsFor(exact, num, den, scale, exp - 1)
    ensures RoundsTo(sign == 0x8000, exact, 1, r)
  {
    if m / 0x4000 == 1 {
      if exp + 1 > 30 {
        assert Pow2(14) == 0x4000;
        SumOverflows(num, den, m, exact, 14, 40, scale, exp - 1);
        WithSign(sign, exact, 1, INFINITY);
        return sign + INFINITY;
      }
      JamHalves(num, den, m);
      ExponentUp(exact, num, den, scale, exp - 1);
      r := FinishSum(OrBit(m / 2, m % 2 == 1), exp + 1, sign, num, den * 2, 0, exact, scale);
    } else {
      r := FinishSum(m, exp, sign, num, den, 0, exact, scale);
    }
  }

  lemma SumOverflows(num: nat, den: nat, m: nat, exact: nat, a: nat, top: nat, scale: nat, up: int)
    requires Jam(num, den, m, 1) && Pow2(a) <= m < 2 * Pow2(a) && StandsFor(exact, num, den, scale, up)
    requires top == 40 && a > 0 && a + up == top + scale
    ensures Nearest(exact, 1, INFINITY)
  {
    JamBounds(num, den, m, 0, a);
    LargeAtExponent(num, den, a, up, top, scale, up);
    Product(den, Pow2(scale));
    NotSmaller(Pow2(top), exact, den * Pow2(scale));
    InfinityValue();
    TooLarge(exact, 1);
  }

  lemma NotSmaller(a: nat, b: nat, u: nat)
    requires u > 0 && a * u <= b * u
    ensures a <= b
  {
    Ordered(b, a, u);
  }

  method FinishSum(m: nat, exp: int, sign: nat, ghost num: nat, ghost den: nat, ghost j: nat, ghost exact: nat,
                   ghost scale: nat)
    returns (r: Half)
    requires m < 0x4000 && 1 <= exp <= 30 && (exp > 1 ==> m >= 0x2000) && j <= 1 && sign in {0, 0x8000}
    requires Jam(num, den, m, Pow2(j)) && StandsFor(exact, num, den, scale, exp - 1) && scale == 3
    ensures RoundsTo(sign == 0x8000, exact, 1, r)
  {
    SumIsNearest(m, exp, num, den, j, exact, scale);
    WithSign(sign, exact, 1, RoundedCut((exp - 1) * 0x400, m, 3, 0));
    SignRidesAlongCut(sign, (exp - 1) * 0x400, m, 3);
    r := RoundedCut(sign + (exp - 1) * 0x400, m, 3, 0);
  }

  lemma SignRidesAlongCut(sign: nat, base: nat, m: nat, k: nat)
    requires sign % 2 == 0 && k > 0
    ensures RoundedCut(sign + base, m, k, 0) == sign + RoundedCut(base, m, k, 0)
  {
  }

  lemma SumIsNearest(m: nat, exp: int, num: nat, den: nat, j: nat, exact: nat, scale: nat)
    requires m < 0x4000 && 1 <= exp <= 30 && (exp > 1 ==> m >= 0x2000) && j <= 1
    requires Jam(num, den, m, Pow2(j)) && StandsFor(exact, num, den, scale, exp - 1) && scale == 3
    ensures Nearest(exact, 1, RoundedCut((exp - 1) * 0x400, m, 3, 0))
  {
    assert Pow2(3) == 8;
    RoundedIsNearest(num, den, m, j, 3, exp - 1);
    SameFraction(num * Pow2(exp - 1), den * 8, exact, 1, RoundedCut((exp - 1) * 0x400, m, 3, 0));
  }

  // ----- fused multiply-add -----

  method FusedMultiplyAdd(x: Half, y: Half, z: Half) returns (r: Half)
    ensures IsFused(x, y, z, r)
  {
    hide Value, Nearest, Pow2;
    var absx, absy, absz := Magnitude(x), Magnitude(y), Magnitude(z);
    var negative := Negative(x) != Negative(y);
    var sub := negative != Negative(z);
    if absx >= INFINITY || absy >= INFINITY || absz >= INFINITY {
      return if absx > INFINITY || absy > INFINITY || absz > INFINITY then
               (if absx > INFINITY then Quiet(x) else if absy > INFINITY then Quiet(y) else Quiet(z))
             else if absx == INFINITY then
               (if absy == 0 || (sub && absz == INFINITY) then NAN else SignBit(negative) + INFINITY)
             else if absy == INFINITY then
               (if absx == 0 || (sub && absz == INFINITY) then NAN else SignBit(negative) + INFINITY)
             else z;
    }
    r := FuseFinite(absx, absy, absz, negative, z);
  }

  method FuseFinite(absx: nat, absy: nat, absz: nat, negative: bool, z: Half) returns (r: Half)
    requires absx < INFINITY && absy < INFINITY && absz < INFINITY && absz == Magnitude(z)
    ensures var exact := Signed(negative, Value(absx) * Value(absy)) + Signed(Negative(z), Value(absz) * Pow2(24));
            RoundsTo(if exact == 0 then negative && Negative(z) else exact < 0, Abs(exact), Pow2(24), r)
  {
    hide Nearest, Value, Pow2, Fused;
    AddendIsPositive(absz);
    if absx == 0 || absy == 0 {
      ZeroPlus(absx, absy, absz);
      return if absz != 0 then z else SignBit(negative && Negative(z));
    }
    ProductIsPositive(absx, absy);
    r := FuseMagnitudes(absx, absy, absz, SignBit(negative), SignBit(Negative(z)), 54, 24);
    FusedMeetsSpec(Value(absx) * Value(absy), Value(absz) * Pow2(24), negative, Negative(z), absz == 0, r);
  }

  lemma FusedMeetsSpec(p: nat, c: nat, negative: bool, zNegative: bool, alone: bool, r: Half)
    requires Fused(p, c, SignBit(negative), SignBit(zNegative), alone, r) && p > 0 && (alone <==> c == 0)
    ensures var exact := Signed(negative, p) + Signed(zNegative, c);
            RoundsTo(if exact == 0 then negative && zNegative else exact < 0, Abs(exact), Pow2(24), r)
  {
    hide Nearest, Value, Pow2;
    TooSmall(0, Pow2(24));
  }

  lemma AddendIsPositive(absz: nat)
    requires absz < INFINITY
    ensures absz > 0 ==> Value(absz) * Pow2(24) > 0
    ensures absz == 0 ==> Value(absz) * Pow2(24) == 0
  {
    if absz > 0 { ValueIncreases(0, absz); Product(Value(absz), Pow2(24)); }
  }

  lemma ProductIsPositive(absx: nat, absy: nat)
    requires 0 < absx < INFINITY && 0 < absy < INFINITY
    ensures Value(absx) * Value(absy) > 0
  {
    ValueIncreases(0, absx);
    ValueIncreases(0, absy);
    Product(Value(absx), Value(absy));
  }

  /** A zero product leaves the addend, which is a half already. */
  lemma ZeroPlus(absx: nat, absy: nat, absz: nat)
    requires absx < INFINITY && absy < INFINITY && absz < INFINITY && (absx == 0 || absy == 0)
    ensures Value(absx) * Value(absy) == 0
    ensures Nearest(Value(absz) * Pow2(24), Pow2(24), absz)
  {
    HalvesRoundToThemselves(Pow2(24), absz);
    Commute(Pow2(24), Value(absz));
  }

  /** The product of two significands, moved to 23 fraction bits with at least two zero bits below. */
  method ExtendedProduct(absx: nat, absy: nat, ghost scale: nat) returns (m: nat, exp: int)
    requires 0 < absx < INFINITY && 0 < absy < INFINITY && scale == 54
    ensures 0x800000 <= m < 0x1000000 && m % 4 == 0 && -33 <= exp <= 46
    ensures Value(absx) * Value(absy) * Pow2(scale) == m * Pow2(exp + 64)
  {
    hide *;
    var mx, ex := Normalize(absx);
    var my, ey := Normalize(absy);
    SignificandProduct(mx, my);
    ExactProduct(Value(absx), Value(absy), mx, my, ex + 9, ey + 9);
    m, exp := WidenedProduct(mx * my, ex + ey, Value(absx) * Value(absy), scale);
  }

  method WidenedProduct(m0: nat, exp0: int, ghost v: nat, ghost scale: nat) returns (m: nat, exp: int)
    requires 0x100000 <= m0 < 0x400000 && -18 <= exp0 <= 60 && scale == 54
    requires v * Pow2(20) == m0 * Pow2(exp0 + 18)
    ensures 0x800000 <= m < 0x1000000 && m % 4 == 0 && -33 <= exp <= 46
    ensures v * Pow2(scale) == m * Pow2(exp + 64)
  {
    var i := if m0 >= 0x200000 then 1 else 0;
    exp := -15 + exp0 + i;
    m := if i == 1 then m0 * 4 else m0 * 8;
    Extend(v, m0, 3 - i, exp0 + 18, scale - 20, exp + 64);
    SmallPower(m0, 3 - i);
  }

  lemma SmallPower(m: nat, k: nat)
    ensures k == 2 ==> m * Pow2(k) == m * 4
    ensures k == 3 ==> m * Pow2(k) == m * 8
    ensures m * 4 % 4 == 0 && m * 8 % 4 == 0
  {
    if k == 2 { assert Pow2(k) == 4; } else if k == 3 { assert Pow2(k) == 8; }
  }

  lemma Extend(v: nat, m: nat, k: nat, q: nat, t: nat, up: nat)
    requires v * Pow2(20) == m * Pow2(q) && q + t == k + up
    ensures v * Pow2(20 + t) == m * Pow2(k) * Pow2(up)
  {
    Lift(v, 20, m, q, t);
    Pow2Adds(k, up);
    Regroup(m, Pow2(k), Pow2(up));
  }

  /** The addend in the same format. */
  method ExtendedAddend(absz: nat, ghost scale: nat) returns (m: nat, exp: int)
    requires 0 < absz < INFINITY && scale == 54
    ensures 0x800000 <= m < 0x1000000 && m % 4 == 0 && -9 <= exp <= 30
    ensures Value(absz) * Pow2(24) * Pow2(scale) == m * Pow2(exp + 64)
  {
    hide *;
    var mz, ez := Normalize(absz);
    m, exp := mz * 0x2000, ez;
    ExtendAddend(Value(absz), mz, ez + 9, scale);
  }

  lemma ExtendAddend(v: nat, m: nat, q: nat, scale: nat)
    requires v * Pow2(10) == m * Pow2(q) && scale == 54
    ensures v * Pow2(24) * Pow2(scale) == m * 0x2000 * Pow2(q + 55)
  {
    assert Pow2(13) == 0x2000;
    hide Pow2;
    Lift(v, 10, m, q, scale + 14);
    Pow2Adds(24, scale);
    Pow2Adds(13, q + 55);
    Regroup(v, Pow2(24), Pow2(scale));
    Regroup(m, Pow2(13), Pow2(q + 55));
  }

  method FuseMagnitudes(absx: nat, absy: nat, absz: nat, sign: nat, signz: nat, ghost scale: nat, ghost u: nat)
    returns (r: Half)
    requires 0 < absx < INFINITY && 0 < absy < INFINITY && absz < INFINITY
    requires sign in {0, 0x8000} && signz in {0, 0x8000} && scale == 54 && u == 24
    ensures Fused(Value(absx) * Value(absy), Value(absz) * Pow2(u), sign, signz, absz == 0, r)
  {
    hide Pow2, Value, Jam, StandsFor, RoundsTo;
    var m, exp := ExtendedProduct(absx, absy, scale);
    if absz == 0 {
      Alone(Value(absx) * Value(absy), m, scale, exp + 64);
      r := FinishFused(m, exp, sign, m, 1, 0, Value(absx) * Value(absy), scale);
    } else {
      var mz, expz := ExtendedAddend(absz, scale);
      r := FuseExtended(m, exp, mz, expz, sign, signz, Value(absx) * Value(absy), Value(absz) * Pow2(u), scale);
    }
  }

  lemma Alone(v: nat, m: nat, scale: nat, up: nat)
    requires v * Pow2(scale) == m * Pow2(up)
    ensures StandsFor(v, m, 1, scale, up) && Jam(m, 1, m, Pow2(0))
  {
  }

  /** The rounded sum of a product p and an addend c with their signs, in units of 2^-48. */
  ghost predicate Fused(p: nat, c: nat, sign: nat, signz: nat, alone: bool, r: Half) {
    if alone then RoundsTo(sign == 0x8000, p, Pow2(24), r)
    else if sign == signz then RoundsTo(sign == 0x8000, p + c, Pow2(24), r)
    else if p == c then r == 0
    else if c < p then RoundsTo(sign == 0x8000, p - c, Pow2(24), r)
    else RoundsTo(signz == 0x8000, c - p, Pow2(24), r)
  }

  method FuseExtended(m: nat, exp: int, mz: nat, expz: int, sign: nat, signz: nat,
                      ghost p: nat, ghost c: nat, ghost scale: nat)
    returns (r: Half)
    requires 0x800000 <= m < 0x1000000 && 0x800000 <= mz < 0x1000000 && m % 4 == 0 && mz % 4 == 0
    requires -33 <= exp && -33 <= expz && sign in {0, 0x8000} && signz in {0, 0x8000} && scale == 54
    requires p * Pow2(scale) == m * Pow2(exp + 64) && c * Pow2(scale) == mz * Pow2(expz + 64)
    ensures Fused(p, c, sign, signz, false, r)
  {
    var sub := sign != signz;
    if expz > exp || (expz == exp && mz > m) {
      r := FuseAligned(mz, expz, m, exp, sub, if sub then signz else sign, c, p, 23, scale);
    } else {
      r := FuseAligned(m, exp, mz, expz, sub, sign, p, c, 23, scale);
    }
  }

  /** m at exp is at least mz at expz. */
  method FuseAligned(m: nat, exp: int, mz: nat, expz: int, sub: bool, sign: nat,
                     ghost p: nat, ghost c: nat, ghost top: nat, ghost scale: nat)
    returns (r: Half)
    requires 0x800000 <= m < 0x1000000 && 0x800000 <= mz < 0x1000000 && m % 4 == 0 && mz % 4 == 0
    requires -33 <= expz <= exp && (exp == expz ==> mz <= m) && sign in {0, 0x8000} && top == 23 && scale == 54
    requires p * Pow2(scale) == m * Pow2(exp + 64) && c * Pow2(scale) == mz * Pow2(expz + 64)
    ensures c <= p
    ensures !sub ==> RoundsTo(sign == 0x8000, p + c, Pow2(24), r)
    ensures sub ==> if p == c then r == 0 else RoundsTo(sign == 0x8000, p - c, Pow2(24), r)
  {
    hide Jam, StandsFor, Ready, RoundsTo, Aligned, Pow2;
    var d := exp - expz;
    LeadingBit(top);
    OperandsReady(m, mz, d, p, c, top, scale, exp + 64);
    LargerFirst(m, mz, d, Pow2(d), p, c, scale, exp + 64);
    if sub {
      r := SubtractFused(m, Aligned(mz, d, 23), exp, sign, mz, Pow2(d), p, c, top, scale);
    } else {
      Total(m, mz, Aligned(mz, d, 23), Pow2(d), p, c, top, scale, exp + 64);
      r := CarryFused(m + Aligned(mz, d, 23), exp, sign, m * Pow2(d) + mz, Pow2(d), p + c, scale);
    }
  }

  lemma LeadingBit(top: nat)
    requires top == 23
    ensures Pow2(top) == 0x800000
  {
    Pow2Values();
  }

  method SubtractFused(m: nat, a: nat, exp: int, sign: nat, ghost mz: nat, ghost den: nat,
                       ghost p: nat, ghost c: nat, ghost top: nat, ghost scale: nat)
    returns (r: Half)
    requires Ready(m, mz, a, den, p, c, top, scale, exp + 64) && c <= p && -33 <= exp && sign in {0, 0x8000}
    requires top == 23 && scale == 54
    ensures if p == c then r == 0 else RoundsTo(sign == 0x8000, p - c, Pow2(24), r)
  {
    LeadingBit(top);
    Difference(m, mz, a, den, p, c, top, scale, exp + 64);
    if m - a == 0 {
      return 0;
    }
    r := NormalizeFused(m - a, exp, sign, m * den - mz, den, p - c, top, scale);
  }

  lemma LargerFirst(m: nat, mz: nat, d: nat, den: nat, p: nat, c: nat, scale: nat, up: int)
    requires den == Pow2(d) && (d == 0 ==> mz <= m) && mz <= 2 * m
    requires StandsFor(p, m * den, den, scale, up) && StandsFor(c, mz, den, scale, up)
    ensures c <= p
  {
    StandsForSum(p, c, m * den, mz, den, scale, up);
    if d > 0 { Pow2Grows(1, d); ScalesWeakly(2, den, m); }
  }

  method NormalizeFused(m0: nat, exp0: int, sign: nat,
                        ghost num0: nat, ghost den: nat, ghost exact: nat, ghost top: nat, ghost scale: nat)
    returns (r: Half)
    requires top == 23 && scale == 54 && Pow2(top) == 0x800000
    requires 0 < m0 < 0x1000000 && -33 <= exp0 && sign in {0, 0x8000}
    requires Jam(num0, den, m0, 1) && StandsFor(exact, num0, den, scale, exp0 + 64)
    requires num0 == m0 * den || m0 >= Pow2(top - 1)
    ensures RoundsTo(sign == 0x8000, exact, Pow2(24), r)
  {
    assert Pow2(0) == 1;
    hide Pow2, StandsFor, RoundsTo;
    var m, exp := m0, exp0;
    ghost var num, j, shift := num0, 0, 0;
    while m < 0x800000
      invariant 0 < m < 0x1000000 && exp == exp0 - shift && j <= 1 && Pow2(shift) <= m
      invariant shift <= 24
      invariant Jam(num, den, m, Pow2(j)) && StandsFor(exact, num, den, scale, exp + 64)
      invariant num == m * den || m >= (if j == 0 then Pow2(top - 1) else Pow2(top))
      decreases 0x800000 - m
    {
      ShiftsAreBounded(shift, m, top);
      Doubles(shift);
      j := ShiftedLeft(exact, num, den, m, j, top, scale, exp + 64);
      m := m * 2;
      exp := exp - 1;
      num := 2 * num;
      shift := shift + 1;
    }
    r := FinishFused(m, exp, sign, num, den, j, exact, scale);
  }

  lemma ShiftsAreBounded(shift: nat, m: nat, top: nat)
    requires Pow2(shift) <= m < Pow2(top)
    ensures shift < top
  {
    if shift >= top { Pow2Grows(top, shift); }
  }

  method CarryFused(m: nat, exp: int, sign: nat, ghost num: nat, ghost den: nat, ghost exact: nat, ghost scale: nat)
    returns (r: Half)
    requires 0x800000 <= m < 0x2000000 && -33 <= exp && sign in {0, 0x8000} && scale == 54
    requires Jam(num, den, m, 1) && StandsFor(exact, num, den, scale, exp + 64)
    ensures RoundsTo(sign == 0x8000, exact, Pow2(24), r)
  {
    if m / 0x1000000 == 1 {
      JamHalves(num, den, m);
      ExponentUp(exact, num, den, scale, exp + 64);
      r := FinishFused(OrBit(m / 2, m % 2 == 1), exp + 1, sign, num, den * 2, 0, exact, scale);
    } else {
      r := FinishFused(m, exp, sign, num, den, 0, exact, scale);
    }
  }

  method FinishFused(m: nat, exp: int, sign: nat, ghost num: nat, ghost den: nat, ghost j: nat, ghost exact: nat,
                     ghost scale: nat)
    returns (r: Half)
    requires 0x800000 <= m < 0x1000000 && exp >= -63 && j <= 1 && sign in {0, 0x8000} && scale == 54
    requires Jam(num, den, m, Pow2(j)) && StandsFor(exact, num, den, scale, exp + 64)
    ensures RoundsTo(sign == 0x8000, exact, Pow2(24), r)
  {
    JamDoubles(num, den, m, Pow2(j));
    FusedScaled(exact, num, den, exp, scale, 23, 24);
    LeadingBit(23);
    r := Finish(23, m, exp - 1, sign, 0, 2 * num, den, j + 1, exact, Pow2(24));
  }

  lemma FusedScaled(exact: nat, num: nat, den: nat, exp: int, scale: nat, fraction: nat, u: nat)
    requires StandsFor(exact, num, den, scale, exp + 64) && exp >= -63 && scale == 54 && fraction == 23 && u == 24
    ensures Scaled(exact, Pow2(u), 2 * num, den, fraction, exp - 1)
  {
    hide Pow2;
    ExponentDown(exact, num, den, scale, exp + 64);
    Pow2Adds(scale, u);
    Regroup(den, Pow2(scale), Pow2(u));
    Regroup(exact, den * Pow2(scale), Pow2(u));
  }
}
