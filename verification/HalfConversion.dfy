/**
 * Conversion between IEEE double precision and half precision in lib/half.h, on the bit patterns.
 * A double is split, as the source does, into its two 32-bit words.
 */
module HalfConversion {
  import opened Rounding
  import opened HalfArithmetic

  const WORD := 0x1_0000_0000

  type Word = w: int | 0 <= w < WORD

  datatype Double = Double(hi: Word, lo: Word) {
    predicate Negative() { hi >= 0x8000_0000 }

    /** The high word without the sign. */
    function High(): nat { hi % 0x8000_0000 }

    function Field(): nat { High() / 0x10_0000 }

    predicate IsNan() { Field() == 0x7FF && (High() % 0x10_0000 != 0 || lo != 0) }

    predicate IsInfinite() { Field() == 0x7FF && !IsNan() }

    predicate IsFinite() { Field() < 0x7FF }

    predicate IsZero() { High() == 0 && lo == 0 }

    /** The exponent field, 1 for subnormals. */
    function Exponent(): nat { if Field() == 0 then 1 else Field() }

    function HighSignificand(): nat { High() % 0x10_0000 + if Field() == 0 then 0 else 0x10_0000 }

    /** The 53-bit significand with its implicit bit. */
    function Significand(): nat { HighSignificand() * WORD + lo }

    /** The magnitude in units of 2^-24 is Numerator() / Denominator(). */
    function Numerator(): nat {
      Significand() * Pow2(if Exponent() >= 1051 then Exponent() - 1051 else 0)
    }

    function Denominator(): (d: nat)
      ensures d > 0
    {
      Pow2(if Exponent() >= 1051 then 0 else 1051 - Exponent())
    }
  }

  /** The half a double has to become: rounded once, infinities and the top of a NaN's payload kept. */
  ghost predicate IsNarrowed(d: Double, r: Half) {
    if d.IsNan() then r == SignBit(d.Negative()) + INFINITY + OrQuiet(d.High() / 0x400 % 0x400)
    else if d.IsInfinite() then r == SignBit(d.Negative()) + INFINITY
    else RoundsTo(d.Negative(), d.Numerator(), d.Denominator(), r)
  }

  function OrQuiet(payload: nat): (p: nat)
    requires payload < 0x400
    ensures p < 0x400
  {
    if payload >= 0x200 then payload else payload + 0x200
  }

  /** A half rounded from the words of a significand, cut above bit i of the high word. */
  function RoundedHigh(base: nat, h: nat, lo: Word, i: nat): nat {
    Rounded(base + ShiftRight(h, i + 1), ShiftRight(h, i) % 2 == 1, h % Pow2(i) != 0 || lo != 0)
  }

  lemma CutBelow(h: nat, lo: Word, p: nat)
    requires p > 0
    ensures (h * WORD + lo) / (p * WORD) == h / p
    ensures (h * WORD + lo) % (p * WORD) == h % p * WORD + lo
  {
    var q := h / p;
    assert h == p * q + h % p;
    Regroup(q, p, WORD);
    Distributes(WORD, q * p, h % p);
    Scales(h % p, p, WORD);
    ScalesWeakly(h % p + 1, p, WORD);
    Distributes(WORD, h % p, 1);
    Quotient(h * WORD + lo, p * WORD, q, h % p * WORD + lo);
  }

  lemma WordPower(n: nat)
    requires n == 32
    ensures Pow2(n) == WORD
  {
    Pow2Values();
    Pow2Adds(11, 21);
  }

  lemma HighIsNearest(h: nat, lo: Word, i: nat, e: nat, word: nat)
    requires word == 32 && i > 0 && e <= 29
    requires h < 0x800 * Pow2(i + 1) && (e > 0 ==> 0x400 * Pow2(i + 1) <= h)
    ensures Nearest((h * WORD + lo) * Pow2(e), Pow2(i + 1 + word), RoundedHigh(e * 0x400, h, lo, i))
  {
    var z, k := h * WORD + lo, i + 1 + word;
    WordPower(word);
    Pow2Adds(i + 1, word);
    Pow2Adds(i, word);
    CutBelow(h, lo, Pow2(i + 1));
    CutBelow(h, lo, Pow2(i));
    BelowScaled(h, lo, 0x800, Pow2(i + 1));
    BelowScaled(h, lo, 0x400, Pow2(i + 1));
    RoundedIsNearest(z, 1, z, 0, k, e);
  }

  lemma BelowScaled(h: nat, lo: Word, bound: nat, p: nat)
    ensures h < bound * p ==> h * WORD + lo < bound * (p * WORD)
    ensures bound * p <= h ==> bound * (p * WORD) <= h * WORD + lo
  {
    Regroup(bound, p, WORD);
    if h < bound * p {
      ScalesWeakly(h + 1, bound * p, WORD);
      Distributes(WORD, h, 1);
    } else {
      ScalesWeakly(bound * p, h, WORD);
    }
  }

  lemma NormalIsNearest(h: nat, lo: Word, field: nat, word: nat)
    requires 0x10_0000 <= h < 0x20_0000 && 1009 <= field <= 1038 && word == 32
    ensures Nearest(h * WORD + lo, Pow2(1051 - field), RoundedHigh((field - 1009) * 0x400, h, lo, 9))
  {
    Pow2Values();
    hide Nearest, RoundedHigh, Pow2;
    HighIsNearest(h, lo, 9, field - 1009, word);
    Cancel(h * WORD + lo, field - 1009, 1051 - field, 10 + word, RoundedHigh((field - 1009) * 0x400, h, lo, 9));
  }

  lemma Cancel(z: nat, e: nat, d: nat, k: nat, r: nat)
    requires Nearest(z * Pow2(e), Pow2(k), r) && e + d == k
    ensures Nearest(z, Pow2(d), r)
  {
    hide Nearest, Pow2;
    Pow2Adds(e, d);
    Regroup(z, Pow2(e), Pow2(d));
    SameFraction(z * Pow2(e), Pow2(k), z, Pow2(d), r);
  }

  lemma SubnormalIsNearest(h: nat, lo: Word, field: nat, word: nat)
    requires 0x10_0000 <= h < 0x20_0000 && 998 <= field <= 1008 && word == 32
    ensures Nearest(h * WORD + lo, Pow2(1051 - field), RoundedHigh(0, h, lo, 1018 - field))
  {
    Pow2Values();
    Pow2Grows(10, 1019 - field);
    assert Pow2(0) == 1;
    hide Nearest, RoundedHigh, Pow2;
    HighIsNearest(h, lo, 1018 - field, 0, word);
  }

  lemma Exceeds(z: nat, field: nat, top: nat, bottom: nat)
    requires Pow2(bottom + top) <= z && field + bottom >= 1051 && top == 40
    ensures Nearest(z * Pow2(if field >= 1051 then field - 1051 else 0),
                    Pow2(if field >= 1051 then 0 else 1051 - field), INFINITY)
  {
    InfinityValue();
    var up, down := if field >= 1051 then field - 1051 else 0, if field >= 1051 then 0 else 1051 - field;
    hide Value, Nearest, Pow2;
    Pow2Grows(down, bottom);
    Pow2Adds(bottom, top);
    Products(Pow2(down), Pow2(bottom), Pow2(top), Pow2(top));
    ScalesWeakly(1, Pow2(up), z);
    TooLarge(z * Pow2(up), Pow2(down));
  }

  lemma Vanishes(z: nat, field: nat, top: nat)
    requires z < Pow2(top) && field + top < 1051
    ensures Nearest(z, Pow2(1051 - field), 0)
  {
    Pow2Grows(top + 1, 1051 - field);
    TooSmall(z, Pow2(1051 - field));
  }

  lemma SignificandRange(h: nat, lo: Word, top: nat)
    requires h < 0x20_0000 && top == 53
    ensures h * WORD + lo < Pow2(top)
    ensures h >= 0x10_0000 ==> Pow2(top - 1) <= h * WORD + lo
  {
    Pow2Values();
    WordPower(32);
    Pow2Adds(21, 32);
    Pow2Adds(20, 32);
  }

  lemma SignRidesOnHigh(sign: nat, base: nat, h: nat, lo: Word, i: nat)
    requires sign % 2 == 0
    ensures RoundedHigh(sign + base, h, lo, i) == sign + RoundedHigh(base, h, lo, i)
  {
    hide ShiftRight, Pow2;
  }

  lemma TopBits(sign: nat, hi: nat, lo: Word)
    requires hi < 0x8000_0000 && hi / 0x10_0000 >= 1009
    ensures Rounded(sign + (hi / 0x10_0000 - 1008) * 0x400 + hi / 0x400 % 0x400,
                    hi / 0x200 % 2 == 1, hi % 0x200 != 0 || lo != 0)
         == RoundedHigh(sign + (hi / 0x10_0000 - 1009) * 0x400, hi % 0x10_0000 + 0x10_0000, lo, 9)
  {
    assert Pow2(9) == 0x200 && Pow2(10) == 0x400;
    hide Pow2;
    var h := hi % 0x10_0000 + 0x10_0000;
    Fields(hi, hi / 0x10_0000, hi % 0x10_0000);
    assert ShiftRight(h, 10) == h / 0x400 && ShiftRight(h, 9) == h / 0x200;
  }

  lemma Fields(hi: nat, field: nat, m: nat)
    requires hi == field * 0x10_0000 + m && m < 0x10_0000
    ensures hi / 0x400 % 0x400 == m / 0x400 && (m + 0x10_0000) / 0x400 == m / 0x400 + 0x400
    ensures (m + 0x10_0000) / 0x200 % 2 == hi / 0x200 % 2 && (m + 0x10_0000) % 0x200 == hi % 0x200
  {
    var q, p := m / 0x400, m / 0x200;
    assert hi / 0x400 == field * 0x400 + q;
    assert hi / 0x200 == field * 0x800 + p;
  }

  /** The magnitude of a finite double, from the high word without its sign and the low word. */
  ghost predicate Narrowed(hi: nat, lo: Word, r: nat)
    requires hi < 0x7FF0_0000
  {
    var d := Double(hi, lo);
    Nearest(d.Numerator(), d.Denominator(), r)
  }

  method Narrow(d: Double) returns (r: Half)
    ensures IsNarrowed(d, r)
  {
    var sign := SignBit(d.hi / 0x8000_0000 == 1);
    var hi, lo := d.hi % 0x8000_0000, d.lo;
    if hi >= 0x7FF0_0000 {
      return sign + 0x7C00 + if hi % 0x10_0000 != 0 || lo != 0 then OrQuiet(hi / 0x400 % 0x400) else 0;
    }
    SignAside(d);
    r := NarrowFinite(hi, lo, sign);
  }

  lemma SignAside(d: Double)
    ensures d.High() < 0x8000_0000
    ensures var m := Double(d.High(), d.lo); m.Numerator() == d.Numerator() && m.Denominator() == d.Denominator()
  {
  }

  method NarrowFinite(hi: nat, lo: Word, sign: nat) returns (r: Half)
    requires hi < 0x7FF0_0000 && sign in {0, 0x8000}
    ensures Narrowed(hi, lo, Magnitude(r)) && Negative(r) == (sign == 0x8000)
  {
    hide Narrowed, Nearest, Pow2, RoundedHigh;
    if hi >= 0x40F0_0000 {
      TooLargeForHalf(hi, lo, 53);
      return sign + 0x7C00;
    }
    if hi >= 0x3F10_0000 {
      var e := hi / 0x10_0000 - 1008;
      NormalResult(hi, lo, sign);
      return Rounded(sign + e * 0x400 + hi / 0x400 % 0x400, hi / 0x200 % 2 == 1, hi % 0x200 != 0 || lo != 0);
    }
    if hi >= 0x3E60_0000 {
      var i := 1018 - hi / 0x10_0000;
      SubnormalResult(hi, lo, sign);
      return RoundedHigh(sign, hi % 0x10_0000 + 0x10_0000, lo, i);
    }
    Tiny(hi, lo, 53);
    return sign;
  }

  lemma NormalResult(hi: nat, lo: Word, sign: nat)
    requires 0x3F10_0000 <= hi < 0x40F0_0000 && sign in {0, 0x8000}
    ensures var r := Rounded(sign + (hi / 0x10_0000 - 1008) * 0x400 + hi / 0x400 % 0x400,
                             hi / 0x200 % 2 == 1, hi % 0x200 != 0 || lo != 0);
            r < 0x10000 && Narrowed(hi, lo, Magnitude(r)) && Negative(r) == (sign == 0x8000)
  {
    hide Narrowed, Nearest, Pow2, RoundedHigh;
    var field, h := hi / 0x10_0000, hi % 0x10_0000 + 0x10_0000;
    NormalIsNearest(h, lo, field, 32);
    TopBits(sign, hi, lo);
    SignRidesOnHigh(sign, (field - 1009) * 0x400, h, lo, 9);
    NarrowedFits(hi, lo, RoundedHigh((field - 1009) * 0x400, h, lo, 9));
  }

  lemma SubnormalResult(hi: nat, lo: Word, sign: nat)
    requires 0x3E60_0000 <= hi < 0x3F10_0000 && sign in {0, 0x8000}
    ensures var r := RoundedHigh(sign, hi % 0x10_0000 + 0x10_0000, lo, 1018 - hi / 0x10_0000);
            r < 0x10000 && Narrowed(hi, lo, Magnitude(r)) && Negative(r) == (sign == 0x8000)
  {
    hide Narrowed, Nearest, Pow2, RoundedHigh;
    var field, h := hi / 0x10_0000, hi % 0x10_0000 + 0x10_0000;
    SubnormalIsNearest(h, lo, field, 32);
    SignRidesOnHigh(sign, 0, h, lo, 1018 - field);
    NarrowedFits(hi, lo, RoundedHigh(0, h, lo, 1018 - field));
  }

  lemma NarrowedFits(hi: nat, lo: Word, r: nat)
    requires 0x10_0000 <= hi < 0x40F0_0000
    requires Nearest((hi % 0x10_0000 + 0x10_0000) * WORD + lo, Pow2(1051 - hi / 0x10_0000), r)
    ensures Narrowed(hi, lo, r) && r <= INFINITY
  {
    assert r <= INFINITY;
    NormalFraction(hi, lo);
    hide Nearest, Pow2, Double.Numerator, Double.Denominator;
  }

  /** A normal double below 2^16 as a fraction. */
  lemma NormalFraction(hi: nat, lo: Word)
    requires 0x10_0000 <= hi < 0x40F0_0000
    ensures var d := Double(hi, lo);
            && d.Numerator() == (hi % 0x10_0000 + 0x10_0000) * WORD + lo
            && d.Denominator() == Pow2(1051 - hi / 0x10_0000)
  {
    assert Pow2(0) == 1;
    hide Pow2;
    var d := Double(hi, lo);
    assert d.High() == hi && d.Exponent() == hi / 0x10_0000 < 1051;
  }

  lemma TooLargeForHalf(hi: nat, lo: Word, top: nat)
    requires 0x40F0_0000 <= hi < 0x7FF0_0000 && top == 53
    ensures Narrowed(hi, lo, INFINITY)
  {
    hide Pow2, Nearest;
    var d := Double(hi, lo);
    SignificandRange(d.HighSignificand(), lo, top);
    Exceeds(d.Significand(), d.Exponent(), 40, 12);
  }

  lemma Tiny(hi: nat, lo: Word, top: nat)
    requires hi < 0x3E60_0000 && top == 53
    ensures Narrowed(hi, lo, 0)
  {
    hide Narrowed, Pow2, Nearest;
    var d := Double(hi, lo);
    SignificandRange(d.HighSignificand(), lo, top);
    Vanishes(d.Significand(), d.Exponent(), top);
    BelowOne(hi, lo, 0);
  }

  lemma BelowOne(hi: nat, lo: Word, r: nat)
    requires hi < 0x7FF0_0000
    requires var d := Double(hi, lo); d.Exponent() < 1051 && Nearest(d.Significand(), Pow2(1051 - d.Exponent()), r)
    ensures Narrowed(hi, lo, r)
  {
    assert Pow2(0) == 1;
  }

  // ----- order -----

  /** |a| <= |b| for two doubles that are not NaN. */
  ghost predicate MagnitudeAtMost(a: Double, b: Double) {
    || b.IsInfinite()
    || (a.IsFinite() && b.IsFinite() && a.Numerator() * b.Denominator() <= b.Numerator() * a.Denominator())
  }

  ghost predicate AtMost(a: Double, b: Double) {
    if a.Negative() then !b.Negative() || MagnitudeAtMost(b, a)
    else if b.Negative() then a.IsZero() && b.IsZero()
    else MagnitudeAtMost(a, b)
  }

  /** The position of a half on the number line; both zeros share one. */
  function Position(x: Half): int {
    Signed(Negative(x), Magnitude(x))
  }

  lemma MagnitudesKeepOrder(a: Double, b: Double, ra: Half, rb: Half)
    requires !a.IsNan() && !b.IsNan() && IsNarrowed(a, ra) && IsNarrowed(b, rb) && MagnitudeAtMost(a, b)
    ensures Magnitude(ra) <= Magnitude(rb)
  {
    if !b.IsInfinite() {
      NearestIsMonotone(a.Numerator(), a.Denominator(), Magnitude(ra), b.Numerator(), b.Denominator(), Magnitude(rb));
    }
  }

  lemma ZeroNarrowsToZero(d: Double, r: Half)
    requires d.IsZero() && IsNarrowed(d, r)
    ensures Magnitude(r) == 0
  {
    TooSmall(d.Numerator(), d.Denominator());
    NearestIsUnique(d.Numerator(), d.Denominator(), Magnitude(r), 0);
  }

  /** Narrowing never reverses the order of two doubles. */
  lemma NarrowingIsMonotone(a: Double, b: Double, ra: Half, rb: Half)
    requires !a.IsNan() && !b.IsNan() && IsNarrowed(a, ra) && IsNarrowed(b, rb) && AtMost(a, b)
    ensures Position(ra) <= Position(rb)
  {
    if a.Negative() == b.Negative() {
      if a.Negative() { MagnitudesKeepOrder(b, a, rb, ra); } else { MagnitudesKeepOrder(a, b, ra, rb); }
    } else if b.Negative() {
      ZeroNarrowsToZero(a, ra);
      ZeroNarrowsToZero(b, rb);
    }
  }

  // ----- widening -----

  /** A double that represents a half exactly. */
  ghost predicate IsWidened(x: Half, d: Double) {
    && d.Negative() == Negative(x)
    && if IsNan(x) then d.IsNan() && d.High() / 0x400 % 0x400 == Magnitude(x) % 0x400
       else if IsInfinite(x) then d.IsInfinite()
       else d.IsFinite() && d.Numerator() == d.Denominator() * Value(Magnitude(x))
  }

  method Widen(x: Half) returns (d: Double)
    ensures IsWidened(x, d)
  {
    var sign := if x / 0x8000 == 1 then 0x8000_0000 else 0;
    var abs := x % 0x8000;
    if abs == 0 {
      ZeroWidens(sign);
      return Double(sign, 0);
    }
    var hi := if abs >= 0x7C00 then 0x7E00_0000 else 0x3F00_0000;
    ghost var shift := 0;
    var a := abs;
    while a < 0x400
      invariant 0 < a < 0x8000 && a == Pow2(shift) * abs && shift <= 10 && a >= Pow2(shift)
      invariant shift > 0 ==> a < 0x800
      invariant hi == (if abs >= 0x7C00 then 0x7E00_0000 else 0x3F00_0000) - shift * 0x10_0000
    {
      Regroup(2, Pow2(shift), abs);
      Pow2Bound(shift);
      a := a * 2;
      hi := hi - 0x10_0000;
      shift := shift + 1;
    }
    hi := hi + a * 0x400;
    if abs >= 0x7C00 {
      SpecialWidens(sign, abs);
    } else {
      FiniteWidens(sign, abs, a, shift);
    }
    d := Double(sign + hi, 0);
  }

  lemma ZeroWidens(sign: nat)
    requires sign in {0, 0x8000_0000}
    ensures var d := Double(sign, 0);
            d.IsFinite() && d.Negative() == (sign != 0) && d.Numerator() == d.Denominator() * Value(0)
  {
    assert Pow2(0) == 1;
  }

  lemma SpecialWidens(sign: nat, abs: nat)
    requires sign in {0, 0x8000_0000} && 0x7C00 <= abs < 0x8000
    ensures var d := Double(sign + 0x7E00_0000 + abs * 0x400, 0);
            && d.Negative() == (sign != 0) && d.Field() == 0x7FF
            && d.High() % 0x10_0000 == abs % 0x400 * 0x400 && d.High() / 0x400 % 0x400 == abs % 0x400
  {
    var p := abs - 0x7C00;
    assert 0x7E00_0000 + abs * 0x400 == 0x7FF0_0000 + p * 0x400;
  }

  lemma FiniteWidens(sign: nat, abs: nat, a: nat, shift: nat)
    requires sign in {0, 0x8000_0000} && 0 < abs < 0x7C00 && 0x400 <= a < 0x7C00
    requires a == Pow2(shift) * abs && shift <= 10 && (shift > 0 ==> a < 0x800)
    ensures var hi := 0x3F00_0000 - shift * 0x10_0000 + a * 0x400;
            && 0 <= sign + hi < WORD
            && var d := Double(sign + hi, 0);
            d.IsFinite() && d.Negative() == (sign != 0) && d.Numerator() == d.Denominator() * Value(abs)
  {
    var hi := 0x3F00_0000 - shift * 0x10_0000 + a * 0x400;
    var q, p := a / 0x400, a % 0x400;
    var field := 1008 - shift + q;
    DoubleFields(sign, hi, field, p * 0x400);
    Exactness(abs, a, q, p, shift, 1051 - field);
    hide *;
    Assemble(Double(sign + hi, 0), (p * 0x400 + 0x10_0000) * WORD, Pow2(1051 - field), Value(abs));
  }

  lemma ExactNormal(abs: nat, q: nat, p: nat, down: nat)
    requires 1 <= q <= 30 && p < 0x400 && abs == q * 0x400 + p && down == 43 - q
    ensures (p * 0x400 + 0x10_0000) * WORD == Pow2(down) * Value(abs)
  {
    hide *;
    NormalWidens(q - 1, p + 0x400, 42, down);
    assert (p + 0x400) * 0x400 == p * 0x400 + 0x10_0000 && (q - 1) * 0x400 + (p + 0x400) == abs;
  }

  lemma ExactSubnormal(abs: nat, a: nat, q: nat, p: nat, shift: nat, down: nat)
    requires 0 < abs && 0x400 <= a < 0x800 && a == q * 0x400 + p && p < 0x400 && down == 43 + shift - q
    requires a == Pow2(shift) * abs && 0 < shift <= 10
    ensures (p * 0x400 + 0x10_0000) * WORD == Pow2(down) * Value(abs)
  {
    hide *;
    SubnormalWidens(abs, a, shift, 42, down);
    assert q == 1 && a * 0x400 == p * 0x400 + 0x10_0000;
  }

  lemma Exactness(abs: nat, a: nat, q: nat, p: nat, shift: nat, down: nat)
    requires 0 < abs < 0x7C00 && 0x400 <= a < 0x7C00 && a == q * 0x400 + p && p < 0x400 && down == 43 + shift - q
    requires a == Pow2(shift) * abs && shift <= 10 && (shift > 0 ==> a < 0x800)
    ensures (p * 0x400 + 0x10_0000) * WORD == Pow2(down) * Value(abs)
  {
    if shift == 0 {
      assert Pow2(0) == 1 && a == abs;
      ExactNormal(abs, q, p, down);
    } else {
      ExactSubnormal(abs, a, q, p, shift, down);
    }
  }

  lemma Assemble(d: Double, n: nat, den: nat, v: nat)
    requires d.Numerator() == n && d.Denominator() == den && n == den * v
    ensures d.Numerator() == d.Denominator() * v
  {
  }

  /** How a double with a zero low word is read back. */
  lemma DoubleFields(sign: nat, hi: nat, field: nat, m: nat)
    requires sign in {0, 0x8000_0000} && 0 < field < 1051 && m < 0x10_0000 && hi == field * 0x10_0000 + m
    ensures 0 <= sign + hi < WORD
    ensures var d := Double(sign + hi, 0);
            && d.IsFinite() && d.Negative() == (sign != 0)
            && d.Numerator() == (m + 0x10_0000) * WORD && d.Denominator() == Pow2(1051 - field)
  {
    assert Pow2(0) == 1;
    var d := Double(sign + hi, 0);
    assert d.High() == hi;
  }

  lemma WidenedUnit(k: nat)
    requires k == 42
    ensures Pow2(k) == 0x400 * WORD
  {
    WordPower(32);
    Pow2Values();
    Pow2Adds(10, 32);
  }

  lemma NormalWidens(e: nat, sig: nat, k: nat, down: nat)
    requires e <= 29 && 0x400 <= sig < 0x800 && k == 42 && down == k - e
    ensures e * 0x400 + sig < INFINITY
    ensures sig * 0x400 * WORD == Pow2(down) * Value(e * 0x400 + sig)
  {
    WidenedUnit(k);
    hide Pow2, Value;
    ValueAt(sig, e);
    Pow2Adds(down, e);
    Regroup(Pow2(down), sig, Pow2(e));
    Regroup(sig, Pow2(down), Pow2(e));
  }

  lemma SubnormalWidens(abs: nat, a: nat, shift: nat, k: nat, down: nat)
    requires 0 < abs && 0x400 <= a < 0x800 && k == 42 && a == Pow2(shift) * abs && 0 < shift <= 10
    requires down == k + shift
    ensures abs < 0x800 && a * 0x400 * WORD == Pow2(down) * Value(abs)
  {
    WidenedUnit(k);
    Pow2Grows(1, shift);
    ScalesWeakly(1, Pow2(shift), abs);
    Pow2Adds(k, shift);
    hide Pow2;
    Regroup(Pow2(k), Pow2(shift), abs);
  }

  /** Widening loses nothing: narrowing gives the half back, and a NaN back with its quiet bit set. */
  lemma NarrowingUndoesWidening(x: Half, d: Double, r: Half)
    requires IsWidened(x, d) && IsNarrowed(d, r)
    ensures r == if IsNan(x) then Quiet(x) else x
  {
    hide Nearest, Value, Pow2;
    if IsNan(x) {
      QuietPayload(x, SignBit(Negative(x)), Magnitude(x) % 0x400);
    } else if IsFinite(x) {
      HalvesRoundToThemselves(d.Denominator(), Magnitude(x));
      NearestIsUnique(d.Numerator(), d.Denominator(), Magnitude(r), Magnitude(x));
    }
  }

  lemma QuietPayload(x: Half, sign: nat, payload: nat)
    requires IsNan(x) && sign in {0, 0x8000} && payload < 0x400 && x == sign + INFINITY + payload
    ensures Quiet(x) == sign + INFINITY + OrQuiet(payload)
  {
  }
}
