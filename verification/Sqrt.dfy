/** The square root of a positive normal float64, bit by bit (src/math/sqrt.go:99-144), and why
    the result is correctly rounded (section 5.4.1 of IEEE 754-2008). */
module Sqrt {
  import opened PackedWord

  const TWO52 := 0x10_0000_0000_0000
  const TWO53 := 0x20_0000_0000_0000
  const TWO54 := 0x40_0000_0000_0000
  const BIAS := 1023
  const INFINITY := 0x7ff * TWO52

  // -------------------------------------------------------------------- float64 values

  /** 2^n. */
  function Scale(n: int): real
    decreases if n >= 0 then n else -n
  {
    if n == 0 then 1.0 else if n > 0 then 2.0 * Scale(n - 1) else Scale(n + 1) / 2.0
  }

  /** So many units; so many squares of a unit. */
  function Units(a: real, u: real): real { a * u }

  function Squares(n: nat, u: real): real { Units(n as real, Units(u, u)) }

  /** Counting in a unit that is s times as large. */
  lemma ChangeUnit(a: nat, s: nat, u: real, c: real)
    requires c == Units(u, s as real)
    ensures Units(a as real, c) == Units((a * s) as real, u)
  {
    WholeProduct(a, s);
    Regroup(a as real, u, s as real);
  }

  lemma Regroup(a: real, b: real, c: real)
    ensures a * (b * c) == (a * c) * b
  {}

  lemma WholeProduct(a: nat, b: nat)
    ensures a as real * b as real == (a * b) as real
  {}

  lemma {:induction false} ShlPositive(n: nat)
    ensures Shl(1, n) >= 1
  {
    if n > 0 { ShlPositive(n - 1); }
  }

  lemma ScaleNext(n: int)
    ensures Scale(n + 1) == 2.0 * Scale(n)
  {}

  lemma {:induction false} ScalePlus(m: int, n: nat)
    ensures Scale(m + n) == Units(Scale(m), Scale(n))
    decreases n
  {
    if n > 0 {
      ScalePlus(m, n - 1);
      ScaleNext(m + n - 1);
      ScaleNext(n - 1);
      DoubleProduct(Scale(m), Scale(n - 1), Scale(n), Scale(m + n - 1), Scale(m + n));
    } else {
      One(Scale(m), Scale(0));
    }
  }

  lemma One(a: real, b: real)
    requires b == 1.0
    ensures Units(a, b) == a
  {}

  lemma DoubleProduct(a: real, b: real, b2: real, ab: real, ab2: real)
    requires b2 == 2.0 * b && ab == Units(a, b) && ab2 == 2.0 * ab
    ensures ab2 == Units(a, b2)
  {}

  lemma HalfProduct(a: real, b: real, b2: real, ab: real, ab2: real)
    requires b2 == 2.0 * b && ab2 == Units(a, b2) && ab2 == 2.0 * ab
    ensures ab == Units(a, b)
  {}

  lemma {:induction false} ScalePositive(n: int)
    ensures Scale(n) > 0.0
    decreases if n >= 0 then n else -n
  {
    if n > 0 { ScalePositive(n - 1); } else if n < 0 { ScalePositive(n + 1); }
  }

  lemma {:induction false} ScaleAtMostOne(n: int)
    requires n <= 0
    ensures Scale(n) <= 1.0
    decreases -n
  {
    if n < 0 {
      ScaleAtMostOne(n + 1);
      ScalePositive(n + 1);
    }
  }

  lemma {:induction false} ScaleWhole(n: nat)
    ensures Scale(n) == Shl(1, n) as real
  {
    if n > 0 { ScaleWhole(n - 1); }
  }

  /** A non-negative finite float64. */
  predicate Finite(bits: nat) { bits < INFINITY }

  predicate Normal(bits: nat) { TWO52 <= bits < INFINITY }

  /** The significand as an integer. */
  function Significand(bits: nat): nat {
    if bits < TWO52 then bits else TWO52 + bits % TWO52
  }

  /** The power of two that the significand counts. */
  function Unit(bits: nat): int {
    if bits < TWO52 then -1074 else bits / TWO52 - 1075
  }

  function Value(bits: nat): real { Units(Significand(bits) as real, Scale(Unit(bits))) }

  /** y is the float nearest to the root of x: for every float of another value, x lies on y's
      side of the square of the point halfway between the two. There are no ties. */
  ghost predicate IsNearestRoot(x: nat, y: nat) {
    forall f: nat :: Finite(f) && Value(f) != Value(y) ==> OnSideOf(x, y, f)
  }

  ghost predicate OnSideOf(x: nat, y: nat, f: nat) { OnSide(Value(x), Value(y), Value(f)) }

  ghost predicate OnSide(radicand: real, best: real, other: real) {
    var half := (other + best) / 2.0;
    if other < best then half * half < radicand else radicand < half * half
  }

  // ------------------------------------------------------------------- the root digit by digit

  lemma TryDigit(n: nat, q: nat, r: nat, ix: nat)
    requires q * q <= n && ix * r == n - q * q && r > 0
    ensures 2 * q + r <= ix <==> (q + r) * (q + r) <= n
  {
    assert (q + r) * (q + r) == q * q + (2 * q + r) * r;
    if 2 * q + r <= ix {
      MulOrder(2 * q + r, ix, r);
    } else {
      MulOrder(ix + 1, 2 * q + r, r);
      assert (ix + 1) * r == ix * r + r;
    }
  }

  lemma MulOrder(a: nat, b: nat, r: nat)
    requires a <= b
    ensures a * r <= b * r
  {
    assert b * r - a * r == (b - a) * r;
  }

  /** The remainder stays small. */
  lemma RemainderBound(n: nat, q: nat, r: nat, ix: nat)
    requires q * q <= n < (q + 2 * r) * (q + 2 * r) && ix * r == n - q * q && r > 0
    ensures ix < 4 * q + 4 * r
  {
    assert (q + 2 * r) * (q + 2 * r) == q * q + (4 * q + 4 * r) * r;
    if ix >= 4 * q + 4 * r { MulOrder(4 * q + 4 * r, ix, r); }
  }

  /** What the loop keeps: q is the root as far as the digits above r go, and ix its remainder. */
  ghost predicate RootSoFar(n: nat, q: nat, s: nat, r: nat, ix: nat) {
    s == 2 * q && q * q <= n && q + 2 * r <= TWO54 &&
    (if r > 0 then n < (q + 2 * r) * (q + 2 * r) && ix * r == n - q * q
     else n < (q + 1) * (q + 1) && ix == 2 * (n - q * q))
  }

  lemma DigitTaken(n: nat, q: nat, r: nat, ix: nat)
    requires RootSoFar(n, q, 2 * q, r, ix) && r > 0 && 2 * q + r <= ix
    ensures (q + r) * (q + r) <= n < (q + 2 * r) * (q + 2 * r) && (ix - (2 * q + r)) * r == n - (q + r) * (q + r)
  {
    TryDigit(n, q, r, ix);
    assert (q + r) * (q + r) == q * q + (2 * q + r) * r;
    assert (ix - (2 * q + r)) * r == ix * r - (2 * q + r) * r;
  }

  /** A step with a digit left to come. */
  lemma NextDigit(n: nat, q: nat, r: nat, ix: nat)
    requires RootSoFar(n, q, 2 * q, 2 * r, ix) && r > 0
    ensures 2 * q + 2 * r <= ix ==> RootSoFar(n, q + 2 * r, 2 * (q + 2 * r), r, 2 * (ix - (2 * q + 2 * r)))
    ensures ix < 2 * q + 2 * r ==> RootSoFar(n, q, 2 * q, r, 2 * ix)
  {
    if 2 * q + 2 * r <= ix {
      DigitTaken(n, q, 2 * r, ix);
      Redouble(ix - (2 * q + 2 * r), r);
    } else {
      TryDigit(n, q, 2 * r, ix);
      Redouble(ix, r);
    }
  }

  lemma Redouble(a: nat, r: nat)
    ensures (2 * a) * r == a * (2 * r)
  {}

  lemma LastDigit(n: nat, q: nat, ix: nat)
    requires RootSoFar(n, q, 2 * q, 1, ix)
    ensures 2 * q + 1 <= ix ==> RootSoFar(n, q + 1, 2 * (q + 1), 0, 2 * (ix - (2 * q + 1)))
    ensures ix < 2 * q + 1 ==> RootSoFar(n, q, 2 * q, 0, 2 * ix)
  {
    if 2 * q + 1 <= ix { DigitTaken(n, q, 1, ix); } else { TryDigit(n, q, 1, ix); }
  }

  /** One turn of the loop, in 64-bit words that do not overflow. */
  method Turn(q: nat, s: nat, r: nat, ix: nat) returns (q': nat, s': nat, r': nat, ix': nat)
    requires s == 2 * q && q + 2 * r <= TWO54 && ix < 4 * q + 4 * r
    ensures r' == r / 2
    ensures 2 * q + r <= ix ==> q' == q + r && s' == 2 * q' && ix' == 2 * (ix - (2 * q + r))
    ensures ix < 2 * q + r ==> q' == q && s' == s && ix' == 2 * ix
  {
    q', s', ix' := q, s, ix;
    NoOverflow(s, r);
    var t := Plus(s, r);
    if t <= ix {
      NoOverflow(t, r);
      NoOverflow(q, r);
      NoBorrow(ix, t);
      s' := Plus(t, r);
      ix' := Minus(ix, t);
      q' := Plus(q, r);
    }
    NoOverflow(ix', ix');
    ix' := 2 * ix' % WORD;
    r' := r / 2;
  }

  lemma NoOverflow(x: nat, y: nat)
    requires x + y < WORD
    ensures Plus(x, y) == x + y
  {}

  lemma NoBorrow(x: nat, y: nat)
    requires y <= x < WORD
    ensures Minus(x, y) == x - y
  {}

  /** The loop: q is the integer root of m * 2^54 and ix twice the remainder. */
  method Digits(m: nat) returns (q: nat, ix: nat)
    requires TWO52 <= m < TWO54
    ensures q * q <= m * TWO54 < (q + 1) * (q + 1)
    ensures ix == 2 * (m * TWO54 - q * q)
  {
    ghost var n := m * TWO54;
    NoOverflow(m, m);
    ix := 2 * m % WORD;
    q := 0;
    var s: nat, r: nat := 0, TWO53;
    ghost var k: nat := 53;
    TopPowers();
    while r != 0
      invariant RootSoFar(n, q, s, r, ix)
      invariant r > 0 ==> r == Shl(1, k)
      decreases r
    {
      RemainderBound(n, q, r, ix);
      NextRoot(n, q, k, ix);
      q, s, r, ix := Turn(q, s, r, ix);
      k := if k > 0 then k - 1 else 0;
    }
  }

  lemma NextRoot(n: nat, q: nat, k: nat, ix: nat)
    requires RootSoFar(n, q, 2 * q, Shl(1, k), ix) && Shl(1, k) > 0
    ensures Shl(1, k) / 2 == if k > 0 then Shl(1, k - 1) else 0
    ensures 2 * q + Shl(1, k) <= ix ==>
              RootSoFar(n, q + Shl(1, k), 2 * (q + Shl(1, k)), Shl(1, k) / 2, 2 * (ix - (2 * q + Shl(1, k))))
    ensures ix < 2 * q + Shl(1, k) ==> RootSoFar(n, q, 2 * q, Shl(1, k) / 2, 2 * ix)
  {
    if k > 0 {
      ShlPositive(k - 1);
      NextDigit(n, q, Shl(1, k - 1), ix);
    } else {
      LastDigit(n, q, ix);
    }
  }

  lemma TopPowers()
    ensures Shl(1, 53) == TWO53
  {
    Shl20(1);
    ShlTwice(1, 40, 10);
    Shl10(Shl(1, 40));
    ShlTwice(1, 50, 3);
    Shl5(Shl(1, 50));
  }

  // ------------------------------------------------------------------------- rounding

  /** The root of n is nearer to 2 * sig than to any other even number. */
  ghost predicate RootRounds(n: nat, sig: nat) {
    TWO52 <= sig < TWO53 && TWO53 * TWO53 <= n &&
    (2 * sig - 1) * (2 * sig - 1) < n < (2 * sig + 1) * (2 * sig + 1)
  }

  lemma OddSquare(q: nat)
    ensures q * q % 2 == q % 2
  {
    var h := q / 2;
    assert q == 2 * h + q % 2;
    if q % 2 == 1 {
      assert q * q == 2 * (2 * h * h + 2 * h) + 1;
    } else {
      assert q * q == 2 * (2 * h * h);
    }
  }

  lemma RootRange(m: nat, q: nat)
    requires TWO52 <= m <= TWO54 - 2 && q * q <= m * TWO54 < (q + 1) * (q + 1)
    ensures TWO53 <= q <= TWO54 - 2
  {
    if q < TWO53 { MulBoth(q + 1, TWO53); }
    if q > TWO54 - 2 { MulBoth(TWO54 - 1, q); }
  }

  lemma MulBoth(a: nat, b: nat)
    requires a <= b
    ensures a * a <= b * b
  {
    MulOrder(a, b, a);
    MulOrder(a, b, b);
  }

  /** The extra digit decides the rounding; when it is one the rest is not zero, so there is no tie. */
  lemma RoundsRight(m: nat, q: nat)
    requires TWO52 <= m <= TWO54 - 2 && q * q <= m * TWO54 < (q + 1) * (q + 1)
    ensures RootRounds(m * TWO54, (if m * TWO54 == q * q then q else q + q % 2) / 2)
  {
    RootRange(m, q);
    OddSquare(q);
    MulBoth(TWO53, q);
    assert m * TWO54 % 2 == 0;
    if q % 2 == 0 { Below(m * TWO54, q); } else { Above(m * TWO54, q); }
  }

  lemma Below(n: nat, q: nat)
    requires q % 2 == 0 && q * q <= n < (q + 1) * (q + 1) && TWO53 <= q < TWO54 && TWO53 * TWO53 <= n
    ensures RootRounds(n, q / 2)
  {
    assert (q - 1) * (q - 1) == q * q - 2 * q + 1;
    Doubled(n, q, q / 2);
  }

  lemma Above(n: nat, q: nat)
    requires q % 2 == 1 && q * q < n < (q + 1) * (q + 1) && TWO53 <= q < TWO54 - 1 && TWO53 * TWO53 <= n
    ensures RootRounds(n, (q + 1) / 2)
  {
    MulBoth(q + 1, q + 2);
    Doubled(n, q + 1, (q + 1) / 2);
  }

  lemma Doubled(n: nat, d: nat, sig: nat)
    requires d == 2 * sig && TWO53 <= d < TWO54 && TWO53 * TWO53 <= n
    requires (d - 1) * (d - 1) < n < (d + 1) * (d + 1)
    ensures RootRounds(n, sig)
  {}

  // ------------------------------------------------------ every other float is farther away

  /** A float counted in half the unit of the result: an even number, or less than 2^53. */
  lemma InUnits(f: nat, d: int) returns (v: real, g: nat)
    requires Finite(f)
    ensures Value(f) == Units(v, Scale(d)) && v >= 0.0
    ensures v == (2 * g) as real || v <= (TWO53 - 1) as real
  {
    if Unit(f) > d {
      v, g := UnitsAbove(Significand(f), Unit(f), d);
    } else {
      g := 0;
      v := UnitsBelow(Significand(f), Unit(f), d);
    }
  }

  lemma UnitsAbove(sig: nat, c: int, d: int) returns (v: real, g: nat)
    requires c > d
    ensures Units(sig as real, Scale(c)) == Units(v, Scale(d)) && v == (2 * g) as real
  {
    var w := Shl(1, c - d - 1);
    g := sig * w;
    v := (2 * g) as real;
    ScalePlus(d, c - d);
    ScaleWhole(c - d);
    ChangeUnit(sig, 2 * w, Scale(d), Scale(c));
    assert sig * (2 * w) == 2 * g;
  }

  lemma UnitsBelow(sig: nat, c: int, d: int) returns (v: real)
    requires c <= d
    ensures Units(sig as real, Scale(c)) == Units(v, Scale(d)) && 0.0 <= v <= sig as real
  {
    ScaleAtMostOne(c - d);
    ScalePositive(c - d);
    v := Units(sig as real, Scale(c - d));
    ScaleSplit(c, d);
    Regroup(sig as real, Scale(d), Scale(c - d));
    AtMost(sig as real, Scale(c - d), v);
  }

  lemma AtMost(a: real, b: real, p: real)
    requires a >= 0.0 && 0.0 < b <= 1.0 && p == a * b
    ensures 0.0 <= p <= a
  {
    assert a - p == a * (1.0 - b);
  }

  lemma {:induction false} ScaleSplit(c: int, d: int)
    requires c <= d
    ensures Scale(c) == Units(Scale(d), Scale(c - d))
    decreases d - c
  {
    if c < d {
      ScaleSplit(c + 1, d);
      ScaleNext(c);
      ScaleNext(c - d);
      HalfProduct(Scale(d), Scale(c - d), Scale(c - d + 1), Scale(c), Scale(c + 1));
    }
  }

  /** The point h halfway between 2 * sig and another candidate, against the root of n. */
  lemma Halfway(n: nat, sig: nat, v: real, g: nat, h: real)
    requires RootRounds(n, sig) && v >= 0.0 && v != (2 * sig) as real && 2.0 * h == v + (2 * sig) as real
    requires v == (2 * g) as real || v <= (TWO53 - 1) as real
    ensures if v < (2 * sig) as real then h * h < n as real else n as real < h * h
  {
    if v > (2 * sig) as real {
      FarAbove(n, sig, h);
    } else if v == (2 * g) as real || sig > TWO52 {
      assert v <= (2 * sig - 2) as real;
      FarBelow(n, 2 * sig - 1, h);
    } else {
      FarBelow(n, TWO53, h);
    }
  }

  lemma FarAbove(n: nat, sig: nat, h: real)
    requires n < (2 * sig + 1) * (2 * sig + 1) && h >= (2 * sig + 1) as real
    ensures n as real < h * h
  {
    SquareOrder((2 * sig + 1) as real, h);
    WholeProduct(2 * sig + 1, 2 * sig + 1);
  }

  lemma FarBelow(n: nat, k: nat, h: real)
    requires k * k <= n && 0.0 <= h <= k as real && (h < k as real || k * k < n)
    ensures h * h < n as real
  {
    SquareOrder(h, k as real);
    WholeProduct(k, k);
    RealOrder(k * k, n, h * h);
  }

  lemma SquareOrder(a: real, b: real)
    requires 0.0 <= a <= b
    ensures a * a <= b * b
    ensures a < b ==> a * a < b * b
  {
    assert b * b - a * a == (b - a) * (b + a);
    if a < b { Positive(b - a, b + a); }
  }

  lemma Positive(a: real, b: real)
    requires a > 0.0 && b > 0.0
    ensures a * b > 0.0
  {}

  lemma RealOrder(a: nat, b: nat, x: real)
    requires a <= b && x <= a as real && ((x < a as real) || a < b)
    ensures x < b as real
  {
    assert a as real <= b as real;
  }

  // ------------------------------------------------------------------------ the result

  /** In the unit 2^d the result is 2 * sig and the radicand n. */
  ghost predicate Represents(x: nat, y: nat, n: nat, sig: nat, d: int) {
    RootRounds(n, sig) &&
    Value(y) == Units((2 * sig) as real, Scale(d)) &&
    Value(x) == Squares(n, Scale(d))
  }

  lemma Nearest(x: nat, y: nat, n: nat, sig: nat, d: int)
    requires Represents(x, y, n, sig, d)
    ensures IsNearestRoot(x, y)
  {
    ScalePositive(d);
    forall f: nat | Finite(f) && Value(f) != Value(y) ensures OnSideOf(x, y, f) {
      NearerThan(n, sig, d, Value(y), Value(x), f);
    }
  }

  lemma NearerThan(n: nat, sig: nat, d: int, best: real, radicand: real, f: nat)
    requires RootRounds(n, sig) && Finite(f) && best != Value(f)
    requires best == Units((2 * sig) as real, Scale(d)) && radicand == Squares(n, Scale(d))
    ensures OnSide(radicand, best, Value(f))
  {
    var v, g := InUnits(f, d);
    ScalePositive(d);
    Farther(n, sig, Scale(d), v, g, Value(f), best, radicand);
  }

  lemma Twice(sig: nat, d: real, c: real)
    requires c == 2.0 * d
    ensures Units(sig as real, c) == Units((2 * sig) as real, d)
  {}

  lemma Farther(n: nat, sig: nat, d: real, v: real, g: nat, other: real, best: real, radicand: real)
    requires RootRounds(n, sig) && d > 0.0 && v >= 0.0
    requires v == (2 * g) as real || v <= (TWO53 - 1) as real
    requires other == Units(v, d) && best == Units((2 * sig) as real, d) && radicand == Squares(n, d) && other != best
    ensures OnSide(radicand, best, other)
  {
    var top := (2 * sig) as real;
    var h := (v + top) / 2.0;
    Halfway(n, sig, v, g, h);
    HalfwayInUnits(v, top, h, d, n);
  }

  lemma RadicandInUnits(m: nat, k: int)
    ensures Units(m as real, Scale(2 * k - 52)) == Squares(m * TWO54, Scale(k - 53))
  {
    ScaleSquare(k - 53);
    Scale54(2 * k - 106);
    ChangeUnit(m, TWO54, Scale(2 * k - 106), Scale(2 * k - 52));
  }

  lemma Scale54(n: int)
    ensures Scale(n + 54) == Units(Scale(n), TWO54 as real)
  {
    ScalePlus(n, 54);
    ScaleWhole(54);
    TopPowers();
    assert Shl(1, 54) == 2 * Shl(1, 53);
  }

  lemma {:induction false} ScaleSquare(n: int)
    ensures Scale(2 * n) == Units(Scale(n), Scale(n))
    decreases if n >= 0 then n else -n
  {
    if n > 0 {
      ScaleSquare(n - 1);
      ScaleNext(2 * n - 2);
      ScaleNext(2 * n - 1);
      FourTimes(Scale(n - 1), Scale(n));
    } else if n < 0 {
      ScaleSquare(n + 1);
      ScaleNext(2 * n);
      ScaleNext(2 * n + 1);
      FourTimes(Scale(n), Scale(n + 1));
    } else {
      assert Scale(0) == 1.0;
    }
  }

  lemma FourTimes(a: real, b: real)
    requires b == 2.0 * a
    ensures b * b == 4.0 * (a * a)
  {}

  lemma OrderInUnits(v: real, w: real, d: real)
    requires d > 0.0
    ensures v * d < w * d <==> v < w
    ensures v * d == w * d <==> v == w
  {
    assert w * d - v * d == (w - v) * d;
  }

  lemma HalfwayInUnits(v: real, w: real, h: real, d: real, n: nat)
    requires d > 0.0 && 2.0 * h == v + w && v != w
    ensures OnSide(Squares(n, d), Units(w, d), Units(v, d)) <==> if v < w then h * h < n as real else n as real < h * h
  {
    OrderInUnits(v, w, d);
    OrderInUnits(w, v, d);
    SquareInUnits(h, d, (Units(v, d) + Units(w, d)) / 2.0);
    SquareOrder(0.0, d);
    OrderInUnits(h * h, n as real, d * d);
    OrderInUnits(n as real, h * h, d * d);
  }

  lemma SquareInUnits(h: real, d: real, p: real)
    requires p == h * d
    ensures p * p == (h * h) * (d * d)
  {
    assert p * p == h * (d * (h * d));
    assert d * (h * d) == h * (d * d);
  }

  /** The significand, doubled when the exponent is odd. */
  function Radicand(x: nat): nat {
    var ix := x % TWO52 + TWO52;
    if (x / TWO52 - BIAS) % 2 == 1 then 2 * ix else ix
  }

  lemma RadicandValue(x: nat, k: int)
    requires Normal(x) && k == (x / TWO52 - BIAS) / 2
    ensures Value(x) == Units(Radicand(x) as real, Scale(2 * k - 52))
  {
    var exp: int, ix := x / TWO52 - BIAS, x % TWO52 + TWO52;
    assert Value(x) == Units(ix as real, Scale(exp - 52));
    if exp % 2 == 1 {
      assert 2 * k - 52 == exp - 53;
      ScaleNext(exp - 53);
      Twice(ix, Scale(exp - 53), Scale(exp - 52));
    } else {
      assert 2 * k - 52 == exp - 52;
    }
  }

  function Encoding(sig: nat, exp: int): int { sig + (exp - 1 + BIAS) * TWO52 }

  /** The significand's leading one is added to the exponent field. */
  lemma Encoded(sig: nat, exp: int)
    requires TWO52 <= sig < TWO53 && -511 <= exp <= 511
    ensures Encoding(sig, exp) >= 0 && Normal(Encoding(sig, exp))
    ensures Value(Encoding(sig, exp)) == Units(sig as real, Scale(exp - 52))
  {
    var y := Encoding(sig, exp);
    assert y == (sig - TWO52) + (exp + BIAS) * TWO52;
    assert y / TWO52 == exp + BIAS && y % TWO52 == sig - TWO52;
  }

  lemma HalfUnits(vx: real, vy: real, m: nat, sig: nat, k: int)
    requires vx == Units(m as real, Scale(2 * k - 52)) && vy == Units(sig as real, Scale(k - 52))
    ensures vy == Units((2 * sig) as real, Scale(k - 53))
    ensures vx == Squares(m * TWO54, Scale(k - 53))
  {
    ScaleNext(k - 53);
    Twice(sig, Scale(k - 53), Scale(k - 52));
    RadicandInUnits(m, k);
  }

  lemma Assembled(x: nat, m: nat, sig: nat, k: int)
    requires Normal(x) && k == (x / TWO52 - BIAS) / 2 && RootRounds(m * TWO54, sig)
    requires m == Radicand(x)
    ensures Encoding(sig, k) >= 0 && Normal(Encoding(sig, k)) && IsNearestRoot(x, Encoding(sig, k))
  {
    Encoded(sig, k);
    RadicandValue(x, k);
    HalfUnits(Value(x), Value(Encoding(sig, k)), m, sig, k);
    Nearest(x, Encoding(sig, k), m * TWO54, sig, k - 53);
  }

  /** For a root rho of x among the reals, every other float lies farther from it than y does. */
  lemma NearestInDistance(x: nat, y: nat, rho: real, f: nat)
    requires IsNearestRoot(x, y) && rho >= 0.0 && rho * rho == Value(x) && Finite(f) && Value(f) != Value(y)
    ensures Distance(Value(y), rho) < Distance(Value(f), rho)
  {
    assert OnSideOf(x, y, f);
    ValuePositive(f);
    ValuePositive(y);
    Closer(Value(x), Value(y), Value(f), rho);
  }

  lemma Closer(radicand: real, best: real, other: real, rho: real)
    requires OnSide(radicand, best, other) && rho >= 0.0 && rho * rho == radicand
    requires best >= 0.0 && other >= 0.0 && best != other
    ensures Distance(best, rho) < Distance(other, rho)
  {
    var half := (other + best) / 2.0;
    if other < best {
      if rho <= half { SquareOrder(rho, half); }
    } else {
      if half <= rho { SquareOrder(half, rho); }
    }
  }

  function Distance(a: real, b: real): real { if a < b then b - a else a - b }

  lemma ValuePositive(f: nat)
    ensures Value(f) >= 0.0
  {
    ScalePositive(Unit(f));
  }

  // ------------------------------------------------------------------- subnormal numbers

  /** Shifting x left in a 64-bit word. */
  function Shifted(x: nat, turns: nat): nat { if turns == 0 then x else 2 * Shifted(x, turns - 1) % WORD }

  /** The normalising loop runs while bit 0 is clear: for an even x it never ends, for an odd
      one it does not start. */
  lemma NormalizingNeverEnds(x: nat, turns: nat)
    requires x % 2 == 0
    ensures Shifted(x, turns) % 2 == 0
  {
    if turns > 0 { WrapEven(Shifted(x, turns - 1)); }
  }

  lemma WrapEven(z: nat)
    ensures 2 * z % WORD % 2 == 0
  {
    assert 2 * z == WORD * (2 * z / WORD) + 2 * z % WORD;
  }

  const U := -563

  lemma LowUnits(x: nat)
    requires 0 < x < TWO52
    ensures Value(x) == Squares(x * TWO52, Scale(U)) && Value(x + TWO52) == Squares((x + TWO52) * TWO52, Scale(U))
  {
    ScaleSquare(U);
    Scale52(2 * U);
    ChangeUnit(x, TWO52, Scale(2 * U), Scale(2 * U + 52));
    ChangeUnit(x + TWO52, TWO52, Scale(2 * U), Scale(2 * U + 52));
    assert (x + TWO52) / TWO52 == 1 && (x + TWO52) % TWO52 == x;
  }

  lemma Scale52(n: int)
    ensures Scale(n + 52) == Units(Scale(n), TWO52 as real)
  {
    ScalePlus(n, 52);
    ScaleWhole(52);
    TopPowers();
    assert Shl(1, 53) == 2 * Shl(1, 52);
  }

  const ROOT := 512 * TWO52

  /** ROOT is 2^-511, the root of the least normal number. */
  lemma RootOfLeast()
    ensures Value(ROOT) == Units(TWO52 as real, Scale(U))
    ensures Value(ROOT + 1) == Units((TWO52 + 1) as real, Scale(U))
    ensures Value(ROOT - TWO52) == Units(TWO52 as real / 2.0, Scale(U))
  {
    assert (ROOT + 1) / TWO52 == 512 && (ROOT + 1) % TWO52 == 1;
    assert (ROOT - TWO52) / TWO52 == 511 && (ROOT - TWO52) % TWO52 == 0;
    ScaleNext(U - 1);
  }

  /** What is right for x + 2^52, which is x with the exponent field set to one, is wrong for x. */
  lemma SubnormalMissed(x: nat, y: nat)
    requires 0 < x < TWO52 && Normal(y) && IsNearestRoot(x + TWO52, y)
    ensures !IsNearestRoot(x, y)
  {
    LowUnits(x);
    RootOfLeast();
    ScalePositive(U);
    ValuePositive(y);
    if IsNearestRoot(x, y) {
      if Value(y) != Value(ROOT) {
        assert OnSideOf(x, y, ROOT) && OnSideOf(x + TWO52, y, ROOT);
        NotBeside(x, Scale(U), Value(y));
      } else {
        ApartFrom(Scale(U));
        assert OnSideOf(x + TWO52, y, ROOT + 1);
        assert OnSideOf(x, y, ROOT - TWO52);
        NotAt(x, Scale(U), Value(y));
      }
    }
  }

  lemma ApartFrom(u: real)
    requires u > 0.0
    ensures Units(TWO52 as real / 2.0, u) < Units(TWO52 as real, u) < Units((TWO52 + 1) as real, u)
  {
    OrderInUnits(TWO52 as real / 2.0, TWO52 as real, u);
    OrderInUnits(TWO52 as real, (TWO52 + 1) as real, u);
  }

  lemma NotBeside(x: nat, u: real, best: real)
    requires 0 < x < TWO52 && u > 0.0 && best >= 0.0 && best != Units(TWO52 as real, u)
    ensures !OnSide(Squares(x * TWO52, u), best, Units(TWO52 as real, u)) ||
            !OnSide(Squares((x + TWO52) * TWO52, u), best, Units(TWO52 as real, u))
  {
    var root := Units(TWO52 as real, u);
    var half := (root + best) / 2.0;
    SquareInUnits(TWO52 as real, u, root);
    SquareOrder(0.0, u);
    OrderInUnits((x * TWO52) as real, TWO52 as real * TWO52 as real, u * u);
    OrderInUnits(TWO52 as real * TWO52 as real, ((x + TWO52) * TWO52) as real, u * u);
    if best > root { SquareOrder(root, half); } else { SquareOrder(half, root); }
  }

  lemma NotAt(x: nat, u: real, best: real)
    requires 0 < x < TWO52 && u > 0.0 && best == Units(TWO52 as real, u)
    ensures !OnSide(Squares((x + TWO52) * TWO52, u), best, Units((TWO52 + 1) as real, u)) ||
            !OnSide(Squares(x * TWO52, u), best, Units(TWO52 as real / 2.0, u))
  {
    SquareOrder(0.0, u);
    ApartFrom(u);
    if x >= 2 {
      var h := TWO52 as real + 0.5;
      HalfwayInUnits((TWO52 + 1) as real, TWO52 as real, h, u, (x + TWO52) * TWO52);
    } else {
      var h := 0.75 * TWO52 as real;
      HalfwayInUnits(TWO52 as real / 2.0, TWO52 as real, h, u, x * TWO52);
    }
  }

  // ----------------------------------------------------------------------- the function

  lemma ReadAs(x: nat)
    requires 0 < x < TWO52
    ensures (x + TWO52) / TWO52 == 1 && (x + TWO52) % TWO52 == x % TWO52
  {}

  const SIGN := 0x800 * TWO52
  const NAN := 0x7FF8_0000_0000_0001

  predicate IsNaN(x: nat) { x % SIGN > INFINITY }

  /** By their fields a number is negative, a zero, an infinity or not a number (section 3.4 of IEEE 754-2008). */
  predicate Negative(x: nat) { x / TWO52 / 0x800 == 1 }

  predicate IsZero(x: nat) { x / TWO52 % 0x800 == 0 && x % TWO52 == 0 }

  predicate Infinite(x: nat) { x / TWO52 % 0x800 == 0x7FF && x % TWO52 == 0 }

  predicate NotANumber(x: nat) { x / TWO52 % 0x800 == 0x7FF && x % TWO52 != 0 }

  /** Zero of either sign, NaN and positive infinity are their own roots. */
  predicate IsOwnRoot(x: nat) { IsZero(x) || NotANumber(x) || (Infinite(x) && !Negative(x)) }

  lemma FieldsOf(x: nat)
    requires x < WORD
    ensures IsOwnRoot(x) <==> x == 0 || x == SIGN || IsNaN(x) || x == INFINITY
    ensures Negative(x) <==> x >= SIGN
  {
    var high, low := x / TWO52, x % TWO52;
    assert x == TWO52 * high + low && high < 0x1000;
    if high >= 0x800 { assert x % SIGN == TWO52 * (high - 0x800) + low; } else { assert x % SIGN == x; }
  }

  /** sqrt, for every number on which it ends: special cases as documented, and for positive
      finite numbers the float nearest to the root of x iff x is normal. */
  method Sqrt(x: nat) returns (y: nat)
    requires x < WORD && !(0 < x < TWO52 && x % 2 == 0)
    ensures IsOwnRoot(x) ==> y == x
    ensures Negative(x) && !IsOwnRoot(x) ==> y == 0x7FF8_0000_0000_0001
    ensures 0 < x && Finite(x) ==> Normal(y) && (IsNearestRoot(x, y) <==> Normal(x))
    ensures 0 < x < TWO52 ==> IsNearestRoot(x + TWO52, y)
  {
    FieldsOf(x);
    if x == 0 || x == SIGN || IsNaN(x) || x == INFINITY {
      return x;
    }
    if x >= SIGN {
      return NAN;
    }
    y := PositiveRoot(x);
  }

  /** The rest of sqrt, for positive finite numbers. */
  method PositiveRoot(x: nat) returns (y: nat)
    requires Finite(x) && (Normal(x) || x % 2 == 1)
    ensures Normal(y) && (IsNearestRoot(x, y) <==> Normal(x))
    ensures !Normal(x) ==> IsNearestRoot(x + TWO52, y)
  {
    var ix := x;
    var exp: int := ix / TWO52;
    if exp == 0 {
      // bit 0 is set, so the shifting loop is not entered
      exp := exp + 1;
    }
    ghost var read := if Normal(x) then x else x + TWO52;
    exp := exp - BIAS;
    ix := ix % TWO52 + TWO52;
    if !Normal(x) { ReadAs(x); }
    if exp % 2 == 1 {
      ix := 2 * ix;
    }
    exp := exp / 2;
    var q, rest := Digits(ix);
    RoundsRight(ix, q);
    if rest != 0 {
      q := q + q % 2;
    }
    Assembled(read, ix, q / 2, exp);
    y := q / 2 + (exp - 1 + BIAS) * TWO52;
    if !Normal(x) { SubnormalMissed(x, y); }
  }
}
