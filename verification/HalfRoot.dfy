/**
 * The digit-by-digit fixed-point square root of lib/half.h and the half-precision square root built on it.
 */
module HalfRoot {
  import opened Rounding
  import opened HalfArithmetic

  lemma Square(a: nat, b: nat)
    ensures (a + b) * (a + b) == a * a + 2 * (a * b) + b * b
  {
  }

  lemma SquareGrows(a: nat, b: nat)
    requires a < b
    ensures a * a < b * b
  {
  }

  /**
   * Bit-serial root of the radicand, doubled first when the exponent is odd. The root m and the remainder
   * r left in place of the radicand split it exactly, and the remainder is too small for a larger root.
   */
  method FixedRoot(fraction: nat, r0: nat, exp0: int) returns (m: nat, r: nat, exp: int)
    requires fraction % 2 == 0 && r0 * Pow2(exp0 % 2) < 4 * Pow2(fraction)
    ensures exp0 == 2 * exp + exp0 % 2
    ensures m * m + r == r0 * Pow2(exp0 % 2) && r <= 2 * m
  {
    var i := exp0 % 2;
    exp := (exp0 - i) / 2;
    Start(fraction, r0, i, fraction / 2 + 1);
    m, r := RootDigits(r0 * Pow2(i), Pow2(fraction), fraction / 2 + 1);
  }

  method RootDigits(radicand: nat, bit0: nat, ghost k0: nat) returns (m: nat, r: nat)
    requires Partial(radicand, 0, radicand, bit0, 0, Pow2(k0))
    ensures m * m + r == radicand && r <= 2 * m
  {
    m, r := 0, radicand;
    var bit := bit0;
    ghost var x: nat := 0;
    ghost var k := k0;
    hide Pow2, Partial;
    while bit != 0
      invariant Partial(radicand, m, r, bit, x, Pow2(k))
      decreases bit
    {
      NextDigit(radicand, m, r, bit, x, k);
      k := k - 1;
      if r < m + bit {
        DigitZero(radicand, m, r, bit, x, Pow2(k));
        m := m / 2;
      } else {
        DigitOne(radicand, m, r, bit, x, Pow2(k));
        r := r - (m + bit);
        m := m / 2 + bit;
        x := x + Pow2(k);
      }
      bit := bit / 4;
    }
    Finished(radicand, m, r, x, k);
  }

  /** x is the root found so far, w the weight of its last digit; m holds x * w and bit the next digit's square. */
  ghost predicate Partial(radicand: nat, m: nat, r: nat, bit: nat, x: nat, w: nat) {
    && w >= 1 && bit == w * w / 4 && m == x * w
    && r + x * x == radicand && radicand < (x + w) * (x + w)
  }

  lemma NextDigit(radicand: nat, m: nat, r: nat, bit: nat, x: nat, k: nat)
    requires Partial(radicand, m, r, bit, x, Pow2(k)) && bit != 0
    ensures k > 0 && Pow2(k) == 2 * Pow2(k - 1)
  {
  }

  lemma Finished(radicand: nat, m: nat, r: nat, x: nat, k: nat)
    requires Partial(radicand, m, r, 0, x, Pow2(k))
    ensures m * m + r == radicand && r <= 2 * m
  {
    if k > 0 { Products(2, Pow2(k), 2, Pow2(k)); }
    assert Pow2(k) == 1;
    Square(x, 1);
  }

  /** Trying the digit h adds 2 * x * h + h * h to the square of the root. */
  lemma Digit(m: nat, bit: nat, x: nat, h: nat)
    requires h >= 1 && bit == (2 * h) * (2 * h) / 4 && m == x * (2 * h)
    ensures bit == h * h && bit / 4 == h * h / 4 && m / 2 == x * h
    ensures (x + h) * (x + h) == x * x + (m + bit)
    ensures (x + h) * h == m / 2 + bit
  {
    Regroup(2, 2 * h, h);
    assert (2 * h) * (2 * h) == 4 * (h * h);
    Regroup(x, 2, h);
    Square(x, h);
    Distributes(h, x, h);
  }

  lemma DigitZero(radicand: nat, m: nat, r: nat, bit: nat, x: nat, h: nat)
    requires h >= 1 && Partial(radicand, m, r, bit, x, 2 * h) && r < m + bit
    ensures Partial(radicand, m / 2, r, bit / 4, x, h)
  {
    Digit(m, bit, x, h);
  }

  lemma DigitOne(radicand: nat, m: nat, r: nat, bit: nat, x: nat, h: nat)
    requires h >= 1 && Partial(radicand, m, r, bit, x, 2 * h) && r >= m + bit
    ensures Partial(radicand, m / 2 + bit, r - (m + bit), bit / 4, x + h, h)
  {
    Digit(m, bit, x, h);
    assert x + h + h == x + 2 * h;
  }

  lemma Start(fraction: nat, r0: nat, i: nat, k: nat)
    requires fraction % 2 == 0 && r0 * Pow2(i) < 4 * Pow2(fraction) && i < 2 && k == fraction / 2 + 1
    ensures Partial(r0 * Pow2(i), 0, r0 * Pow2(i), Pow2(fraction), 0, Pow2(k))
  {
    hide Pow2;
    Pow2Adds(k, k);
    FourTimes(fraction, r0, i, k + k);
  }

  lemma FourTimes(n: nat, r0: nat, i: nat, n': nat)
    requires r0 * Pow2(i) < 4 * Pow2(n) && n' == n + 2
    ensures Pow2(n') / 4 == Pow2(n) && r0 * Pow2(i) < Pow2(n')
  {
    assert Pow2(n') == 2 * Pow2(n + 1) && Pow2(n + 1) == 2 * Pow2(n);
  }

  // ----- square root of a half -----

  /**
   * r is nearest to the square root of n: for every other code, twice the root lies on r's side of the sum
   * of the two values. All quantities are non-negative, so the squares compare the same way.
   */
  ghost predicate NearestRoot(n: nat, r: nat) {
    && r <= INFINITY
    && forall c: nat :: c <= INFINITY && c != r ==> RootPrefers(n, r, c)
  }

  ghost predicate RootPrefers(n: nat, r: nat, c: nat)
    requires r <= INFINITY && c <= INFINITY
  {
    var sum := Value(r) + Value(c);
    if r < c then 4 * n < sum * sum || (4 * n == sum * sum && r % 2 == 0)
    else sum * sum < 4 * n || (4 * n == sum * sum && r % 2 == 0)
  }

  ghost predicate IsRoot(x: Half, r: Half) {
    if IsNan(x) then r == Quiet(x)
    else if Magnitude(x) == 0 then r == x
    else if Negative(x) then r == NAN
    else if IsInfinite(x) then r == x
    else !Negative(r) && NearestRoot(Value(Magnitude(x)) * Pow2(24), Magnitude(r))
  }

  function DistanceTo(rho: real, code: nat): real
    requires code <= INFINITY
  {
    var v := Value(code) as real;
    if rho >= v then rho - v else v - rho
  }

  /** Stated over the reals: no half is closer to the root than r. */
  lemma NearestRootIsClosest(n: nat, r: nat, rho: real, c: nat)
    requires NearestRoot(n, r) && rho >= 0.0 && rho * rho == n as real && c <= INFINITY
    ensures DistanceTo(rho, r) <= DistanceTo(rho, c)
    ensures c != r && DistanceTo(rho, r) == DistanceTo(rho, c) ==> r % 2 == 0
  {
    if c != r {
      assert RootPrefers(n, r, c);
      var sum := Value(r) + Value(c);
      RealSquares(n, rho, sum);
      if r < c { ValueIncreases(r, c); } else { ValueIncreases(c, r); }
    }
  }

  lemma RealSquares(n: nat, rho: real, sum: nat)
    requires rho >= 0.0 && rho * rho == n as real
    ensures 4 * n < sum * sum <==> 2.0 * rho < sum as real
    ensures 4 * n == sum * sum <==> 2.0 * rho == sum as real
  {
    var s := sum as real;
    assert (sum * sum) as real == s * s;
    assert (2.0 * rho) * (2.0 * rho) == (4 * n) as real;
    RealOrder(2.0 * rho, s);
  }

  lemma RealOrder(a: real, b: real)
    requires a >= 0.0 && b >= 0.0
    ensures a < b <==> a * a < b * b
    ensures a == b <==> a * a == b * b
  {
    if a < b { RealSquareGrows(a, b); } else if b < a { RealSquareGrows(b, a); }
  }

  lemma RealSquareGrows(a: real, b: real)
    requires 0.0 <= a < b
    ensures a * a < b * b
  {
    var d := b - a;
    assert d * a >= 0.0 && d * d > 0.0;
    assert b * b == a * a + 2.0 * (d * a) + d * d;
  }

  /** The cell of the root and the side of its midpoint decide against every other code. */
  lemma RootFromCell(n: nat, code: nat, r: nat)
    requires code < INFINITY && code > 0
    requires var lo, hi := Value(code), Value(code + 1);
             && lo * lo <= n < hi * hi
             && r == (if (lo + hi) * (lo + hi) < 4 * n then code + 1 else code)
             && (lo + hi) * (lo + hi) != 4 * n
    ensures NearestRoot(n, r)
  {
    var lo, hi := Value(code), Value(code + 1);
    forall c: nat | c <= INFINITY && c != r ensures RootPrefers(n, r, c) {
      if c < code { ValueIncreases(c, code); }
      if code + 1 < c { ValueIncreases(code + 1, c); }
      ValueIncreases(code, code + 1);
      Decided(n, lo, hi, Value(c));
    }
  }

  lemma Decided(n: nat, lo: nat, hi: nat, v: nat)
    requires lo * lo <= n < hi * hi && lo < hi
    ensures v < lo ==> (lo + v) * (lo + v) < 4 * n
    ensures hi < v ==> 4 * n < (hi + v) * (hi + v)
    ensures v <= lo ==> (hi + v) * (hi + v) <= (lo + hi) * (lo + hi)
    ensures hi <= v ==> (lo + hi) * (lo + hi) <= (lo + v) * (lo + v)
  {
    if v < lo {
      DoubleSquare(lo);
      SquareGrows(lo + v, 2 * lo);
      SquareGrows(hi + v, lo + hi);
    } else if hi < v {
      DoubleSquare(hi);
      SquareGrows(2 * hi, hi + v);
      SquareGrows(lo + hi, lo + v);
    }
  }

  lemma DoubleSquare(a: nat)
    ensures 4 * (a * a) == (2 * a) * (2 * a)
  {
  }

  method SquareRoot(x: Half) returns (r: Half)
    ensures IsRoot(x, r)
  {
    hide NearestRoot, Value, Pow2;
    var abs := Magnitude(x);
    if abs == 0 || x >= 0x7C00 {
      return if abs > 0x7C00 then Quiet(x) else if x > 0x8000 then NAN else x;
    }
    var sig, field := Normalize(abs);
    r := RootOfSignificand(sig, field, Value(abs), 20, 24);
  }

  method RootOfSignificand(sig: nat, field: int, ghost v: nat, fraction: nat, ghost u: nat) returns (r: Half)
    requires 0x400 <= sig < 0x800 && -9 <= field <= 30 && fraction == 20 && u == 24
    requires v * Pow2(10) == sig * Pow2(field + 9)
    ensures !Negative(r) && NearestRoot(v * Pow2(u), Magnitude(r))
  {
    TenPlaces(fraction);
    hide *;
    var m, rest, exp := FixedRoot(fraction, sig * 0x400, 15 + field);
    RootIsNormal(sig, m, rest, (15 + field) % 2);
    RootAtScale(v, sig, field, m, rest, exp, u);
    r := Rounded(exp * 0x400 + m % 0x400, rest > m, rest != 0);
  }

  lemma TenPlaces(n: nat)
    requires n == 20
    ensures Pow2(n) == 0x100000 && Pow2(0) == 1 && Pow2(1) == 2
  {
    Pow2Values();
  }

  /** The root of a significand in [1, 4) keeps its leading bit at the implicit position. */
  lemma RootIsNormal(sig: nat, m: nat, rest: nat, i: nat)
    requires 0x400 <= sig < 0x800 && i < 2 && m * m + rest == sig * 0x400 * Pow2(i) && rest <= 2 * m
    ensures 0x400 <= m < 0x800
  {
    RadicandRange(sig, i);
    RootRange(m, rest);
  }

  lemma RadicandRange(sig: nat, i: nat)
    requires 0x400 <= sig < 0x800 && i < 2
    ensures 0x100000 <= sig * 0x400 * Pow2(i) < 0x400000
  {
    if i == 0 { assert Pow2(i) == 1; } else { assert Pow2(i) == 2; }
  }

  lemma RootRange(m: nat, rest: nat)
    requires 0x100000 <= m * m + rest < 0x400000 && rest <= 2 * m
    ensures 0x400 <= m < 0x800
  {
    Distributes(m, m, 2);
    if m < 0x400 { ScalesWeakly(m + 2, 0x401, m); }
    if m >= 0x800 { ScalesWeakly(0x800, m, m); }
  }

  lemma RootAtScale(v: nat, sig: nat, field: int, m: nat, rest: nat, exp: int, u: nat)
    requires -9 <= field <= 30 && 15 + field == 2 * exp + (15 + field) % 2
    requires v * Pow2(10) == sig * Pow2(field + 9)
    requires m * m + rest == sig * 0x400 * Pow2((15 + field) % 2) && rest <= 2 * m && 0x400 <= m < 0x800 && u == 24
    ensures 3 <= exp <= 22
    ensures NearestRoot(v * Pow2(u), Rounded(exp * 0x400 + m % 0x400, rest > m, rest != 0))
  {
    hide Pow2, Value, NearestRoot;
    var e := exp - 1;
    var code := e * 0x400 + m;
    assert code == exp * 0x400 + m % 0x400;
    var p := Pow2(e);
    ValueAt(m, e);
    ValueAt(m + 1, e);
    RadicandAtScale(v, sig, field, (15 + field) % 2, e, u);
    CellOfRoot(m, rest, p, v * Pow2(u));
    RootFromCell(v * Pow2(u), code, Rounded(code, rest > m, rest != 0));
  }

  /** v * 2^24 is the radicand times the square of the result's unit. */
  lemma RadicandAtScale(v: nat, sig: nat, field: int, i: nat, e: nat, u: nat)
    requires field >= -9 && field == 2 * e + i - 13 && u == 24 && v * Pow2(10) == sig * Pow2(field + 9)
    ensures v * Pow2(u) == sig * 0x400 * Pow2(i) * (Pow2(e) * Pow2(e))
  {
    TwoPlaces(10);
    Lift(v, 10, sig, field + 9, u - 10);
    Pow2Adds(e, e);
    Pow2Adds(i, 2 * e);
    Pow2Adds(10, i + 2 * e);
    Regroup(sig * 0x400, Pow2(i), Pow2(2 * e));
    Regroup(sig, 0x400, Pow2(i + 2 * e));
  }

  lemma TwoPlaces(n: nat)
    requires n == 10
    ensures Pow2(n) == 0x400
  {
    Pow2Values();
  }

  lemma CellOfRoot(m: nat, rest: nat, p: nat, n: nat)
    requires p > 0 && rest <= 2 * m && n == (m * m + rest) * (p * p)
    ensures var lo, hi := m * p, (m + 1) * p;
            && lo * lo <= n < hi * hi
            && (rest > m <==> (lo + hi) * (lo + hi) < 4 * n)
            && (lo + hi) * (lo + hi) != 4 * n
  {
    var s := 2 * m + 1;
    Product(p, p);
    FourFactors(m, p, m, p);
    FourFactors(m + 1, p, m + 1, p);
    FourFactors(s, p, s, p);
    Distributes(p, m, m + 1);
    CellCompared(m, rest, p * p);
  }

  lemma CellCompared(m: nat, rest: nat, q: nat)
    requires q > 0 && rest <= 2 * m
    ensures var n := (m * m + rest) * q; var s := 2 * m + 1;
            && m * m * q <= n < (m + 1) * (m + 1) * q
            && (rest > m <==> s * s * q < 4 * n) && s * s * q != 4 * n
  {
    var s := 2 * m + 1;
    Squares(m);
    Regroup(4, m * m + rest, q);
    Ordered(m * m + rest, (m + 1) * (m + 1), q);
    Ordered(s * s, 4 * (m * m + rest), q);
    ScalesWeakly(m * m, m * m + rest, q);
  }

  lemma Squares(m: nat)
    ensures (m + 1) * (m + 1) == m * m + 2 * m + 1
    ensures (2 * m + 1) * (2 * m + 1) == 4 * (m * m) + 4 * m + 1
  {
  }
}
