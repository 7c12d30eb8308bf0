/**
 Single-precision words as the circuits of FederatedLearningFPGA/alu.v cut them into
 fields (IEEE 754-2008, section 3.4), and the real numbers they stand for. The circuits
 put the hidden bit before every fraction, so that here a word of exponent 0 has a
 hidden bit too.
 */
module FloatWords {

  datatype Fields = Fields(neg: bool, exp: nat, frac: nat)

  const HIDDEN: nat := 0x80_0000

  type Word = w: Fields | w.exp < 256 && w.frac < HIDDEN witness Fields(false, 0, 0)

  const ZERO: Word := Fields(false, 0, 0)

  /** The fields of a 32-bit literal. */
  function Bits(n: nat): Word
    requires n < 0x1_0000_0000
  {
    Fields(n >= 0x8000_0000, n / 0x80_0000 % 256, n % 0x80_0000)
  }

  function Mantissa(w: Word): (m: nat)
    ensures HIDDEN <= m < 2 * HIDDEN
  {
    HIDDEN + w.frac
  }

  function Absolute(w: Word): Word {
    w.(neg := false)
  }

  function Negated(w: Word): Word {
    w.(neg := !w.neg)
  }

  // ----- powers of two

  /** 2^k for a shift distance. */
  function Shift(k: nat): (p: nat)
    ensures p >= 1
  {
    if k == 0 then 1 else 2 * Shift(k - 1)
  }

  function Pow2(k: int): (p: real)
    ensures p > 0.0
    decreases if k < 0 then -k else k
  {
    if k == 0 then 1.0 else if k > 0 then 2.0 * Pow2(k - 1) else Pow2(k + 1) / 2.0
  }

  lemma Pow2Zero()
    ensures Pow2(0) == 1.0
  {
  }

  lemma Pow2Next(k: int)
    ensures Pow2(k + 1) == 2.0 * Pow2(k)
  {
  }

  lemma {:induction false} Pow2Adds(k: int, n: nat)
    ensures Pow2(k + n) == Pow2(k) * Shift(n) as real
    decreases n
  {
    if n > 0 {
      Pow2Adds(k, n - 1);
      Pow2Next(k + n - 1);
      ShiftTwice(Pow2(k), Shift(n - 1));
    }
  }

  lemma ShiftTwice(x: real, n: nat)
    ensures 2.0 * (x * n as real) == x * (2 * n) as real
  {
  }

  lemma {:induction false} Pow2Sum(j: int, k: int)
    ensures Pow2(j + k) == Pow2(j) * Pow2(k)
    decreases if k < 0 then -k else k
  {
    hide Pow2;
    Pow2Zero();
    if k > 0 {
      Pow2Sum(j, k - 1);
      Pow2Next(j + (k - 1));
      Pow2Next(k - 1);
      Doubled(Pow2(j), Pow2(k - 1));
    } else if k < 0 {
      Pow2Sum(j, k + 1);
      Pow2Next(j + k);
      Pow2Next(k);
      Doubled(Pow2(j), Pow2(k));
    }
  }

  lemma Doubled(x: real, y: real)
    ensures 2.0 * (x * y) == x * (2.0 * y)
  {
  }

  lemma {:induction false} Pow2Grows(j: int, k: int)
    requires j <= k
    ensures Pow2(j) <= Pow2(k)
    ensures j < k ==> 2.0 * Pow2(j) <= Pow2(k)
    decreases k - j
  {
    if j < k {
      Pow2Grows(j, k - 1);
      Pow2Next(k - 1);
    }
  }

  lemma {:induction false} ShiftGrows(j: nat, k: nat)
    requires j <= k
    ensures Shift(j) <= Shift(k)
    decreases k - j
  {
    if j < k {
      ShiftGrows(j, k - 1);
    }
  }

  // ----- products of reals, kept from the linear reasoning around them

  function Times(x: real, y: real): real {
    x * y
  }

  lemma TimesLess(k: real, x: real, y: real)
    requires k > 0.0
    ensures x < y ==> Times(k, x) < Times(k, y)
    ensures x <= y ==> Times(k, x) <= Times(k, y)
  {
  }

  lemma TimesAffine(s: real, a: real, b: real)
    ensures Times(s, a + b * s) == a * s + b * Times(s, s)
  {
  }

  lemma TimesRegroup(x: real, y: real, z: real)
    ensures Times(x, Times(y, z)) == Times(Times(x, y), z)
  {
  }

  lemma TimesNotNegative(x: real, y: real)
    requires 0.0 <= x && 0.0 <= y
    ensures 0.0 <= Times(x, y)
  {
  }

  // ----- values

  /** The weight of the last place of a word. */
  function Ulp(w: Word): (u: real)
    ensures u > 0.0
  {
    Pow2(w.exp - 150)
  }

  function Magnitude(w: Word): (m: real)
    ensures m > 0.0
  {
    Mantissa(w) as real * Ulp(w)
  }

  function Value(w: Word): real {
    if w.neg then -Magnitude(w) else Magnitude(w)
  }

  lemma UlpIsSmall(w: Word)
    ensures HIDDEN as real * Ulp(w) <= Magnitude(w) <= (2 * HIDDEN - 1) as real * Ulp(w)
  {
    hide Pow2, Ulp, Mantissa;
    MultipleBetween(HIDDEN, Mantissa(w), 2 * HIDDEN - 1, Ulp(w), Magnitude(w));
  }

  /** Magnitudes are ordered as exponent and fraction are. */
  lemma MagnitudeOrder(v: Word, w: Word)
    ensures Magnitude(v) < Magnitude(w) <==> v.exp < w.exp || (v.exp == w.exp && v.frac < w.frac)
    ensures Magnitude(v) < Magnitude(w) ==> Magnitude(v) + Ulp(v) <= Magnitude(w)
  {
    hide Pow2;
    UlpIsSmall(v);
    UlpIsSmall(w);
    if v.exp < w.exp {
      Pow2Grows(v.exp - 150, w.exp - 150);
      assert (2 * HIDDEN) as real * Ulp(v) <= HIDDEN as real * Ulp(w);
    } else if w.exp < v.exp {
      Pow2Grows(w.exp - 150, v.exp - 150);
      assert (2 * HIDDEN) as real * Ulp(w) <= HIDDEN as real * Ulp(v);
    } else {
      SameExponent(v, w);
    }
  }

  lemma SameExponent(v: Word, w: Word)
    requires v.exp == w.exp
    ensures Magnitude(v) < Magnitude(w) <==> Mantissa(v) < Mantissa(w)
    ensures Magnitude(v) < Magnitude(w) ==> Magnitude(v) + Ulp(v) <= Magnitude(w)
  {
    hide Pow2, Mantissa;
    Multiples(Mantissa(v), Mantissa(w), Ulp(v), Magnitude(v), Magnitude(w));
  }

  lemma Multiples(m: nat, n: nat, u: real, x: real, y: real)
    requires u > 0.0 && x == m as real * u && y == n as real * u
    ensures x < y <==> m < n
    ensures x < y ==> x + u <= y
  {
    var k := (n - m) as real;
    ScaledOrder(k, u);
    assert k == n as real - m as real;
    assert y == x + k * u;
    assert n > m ==> k >= 1.0;
    assert n <= m ==> k <= 0.0;
    assert y - x == k * u;
    assert n > m ==> k * u >= u;
  }

  lemma MultipleBetween(lo: nat, m: nat, hi: nat, u: real, x: real)
    requires lo <= m <= hi && u > 0.0 && x == m as real * u
    ensures lo as real * u <= x <= hi as real * u
  {
  }

  lemma ScaledOrder(x: real, u: real)
    requires u > 0.0
    ensures x > 0.0 <==> x * u > 0.0
    ensures x >= 1.0 ==> x * u >= u
  {
  }

  // ----- rounding

  /** `w` is `x` rounded toward zero (IEEE 754-2008, section 4.3.2): no word of this
      magnitude range lies nearer to `x` from below. */
  ghost predicate RoundsDown(w: Word, x: real) {
    Magnitude(w) <= x && forall v: Word :: Magnitude(v) <= x ==> Magnitude(v) <= Magnitude(w)
  }

  /** The last place kept decides the rounding. */
  lemma WithinUlpRoundsDown(w: Word, x: real)
    requires Magnitude(w) <= x < Magnitude(w) + Ulp(w)
    ensures RoundsDown(w, x)
  {
    hide Magnitude, Ulp;
    forall v: Word | Magnitude(v) <= x ensures Magnitude(v) <= Magnitude(w) {
      MagnitudeOrder(w, v);
    }
  }

  /** 2^-23 */
  const EPSILON: real := 1.0 / 8388608.0

  /** A rounded word is less than one part in 2^23 below. */
  lemma RelativeError(w: Word, x: real)
    requires Magnitude(w) <= x < Magnitude(w) + Ulp(w)
    ensures (1.0 - EPSILON) * x < Magnitude(w) <= x
  {
    UlpIsSmall(w);
    assert Ulp(w) <= EPSILON * Magnitude(w);
    assert EPSILON * Magnitude(w) <= EPSILON * x;
  }

  // ----- words near one

  lemma Pow2Near()
    ensures Pow2(-24) == EPSILON / 2.0 && Pow2(-23) == EPSILON && Pow2(-22) == 2.0 * EPSILON
  {
    Pow2Adds(-12, 12);
    assert Shift(12) == 4096;
    assert Pow2(-12) == 1.0 / 4096.0;
    Pow2Sum(-12, -12);
    Pow2Next(-24);
    Pow2Next(-23);
  }

  /** The last places of words between a half and four, and their exponents. */
  lemma NearOne(w: Word)
    ensures w.exp == 126 ==> Ulp(w) == EPSILON / 2.0
    ensures w.exp == 127 ==> Ulp(w) == EPSILON
    ensures w.exp == 128 ==> Ulp(w) == 2.0 * EPSILON
    ensures 0.5 <= Magnitude(w) <==> 126 <= w.exp
    ensures Magnitude(w) < 1.0 <==> w.exp <= 126
    ensures Magnitude(w) < 2.0 <==> w.exp <= 127
    ensures Magnitude(w) < 4.0 <==> w.exp <= 128
  {
    hide Pow2;
    Pow2Near();
    Pow2Next(-22);
    MagnitudeOrder(w, Fields(false, 126, 0));
    MagnitudeOrder(w, Fields(false, 127, 0));
    MagnitudeOrder(w, Fields(false, 128, 0));
    MagnitudeOrder(w, Fields(false, 129, 0));
  }
}
