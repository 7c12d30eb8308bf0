/**
 The comparator, the adder and the multiplier
 (FederatedLearningFPGA/alu.v:35-176) and how far their results are from exact.
 */
module FloatUnits {
  import opened FloatWords

  // ----- ieee754_compare

  predicate Compare(a: Word, b: Word) {
    if a.neg != b.neg then !a.neg
    else
      var greater := if a.exp != b.exp then a.exp > b.exp else a.frac > b.frac;
      if a.neg then !greater else greater
  }

  /** The comparator decides `a > b` for positive words and `a >= b` for negative ones. */
  lemma CompareOrders(a: Word, b: Word)
    ensures a.neg != b.neg ==> (Compare(a, b) <==> Value(a) > Value(b))
    ensures !a.neg && !b.neg ==> (Compare(a, b) <==> Value(a) > Value(b))
    ensures a.neg && b.neg ==> (Compare(a, b) <==> Value(a) >= Value(b))
  {
    hide Magnitude;
    MagnitudeOrder(b, a);
  }

  // ----- ieee754_adder

  /** The normalisation loop: shift left until the hidden bit is set or the exponent is used up. */
  function Normalized(t: nat, e: nat): (r: (nat, nat))
    requires 0 < t < 2 * HIDDEN
    ensures 0 < r.0 < 2 * HIDDEN && r.1 <= e && r.0 == t * Shift(e - r.1)
    ensures r.1 > 0 ==> r.0 >= HIDDEN
    ensures t >= HIDDEN ==> r == (t, e)
    decreases e
  {
    if t >= HIDDEN || e == 0 then (t, e) else Normalized(2 * t, e - 1)
  }

  /** The operand of the larger magnitude first; the second one when they are equal. */
  function Larger(a: Word, b: Word): Word {
    if Compare(Absolute(a), Absolute(b)) then a else b
  }

  function Smaller(a: Word, b: Word): Word {
    if Compare(Absolute(a), Absolute(b)) then b else a
  }

  lemma LargerIsLarger(a: Word, b: Word)
    ensures Larger(a, b).exp >= Smaller(a, b).exp
    ensures Magnitude(Larger(a, b)) >= Magnitude(Smaller(a, b))
  {
    hide Magnitude;
    MagnitudeOrder(Larger(a, b), Smaller(a, b));
  }

  function ShiftRight(m: nat, k: nat): (q: nat)
    ensures q <= m
    decreases k
  {
    if k == 0 then m else ShiftRight(m / 2, k - 1)
  }

  /** What is left of the smaller mantissa after aligning it. */
  function Aligned(big: Word, small: Word): nat
    requires big.exp >= small.exp
  {
    ShiftRight(Mantissa(small), big.exp - small.exp)
  }

  /** Low 23 bits. */
  function Fraction(m: nat): nat {
    m % HIDDEN
  }

  function SumOf(big: Word, m: nat): Word {
    var t := Mantissa(big) + m;
    if t >= 2 * HIDDEN then
      Fields(big.neg, if big.exp < 255 then big.exp + 1 else 255, Fraction((t - 2 * HIDDEN) / 2))
    else
      Fields(big.neg, big.exp, Fraction(t))
  }

  function DifferenceOf(big: Word, m: nat): Word
    requires m <= Mantissa(big)
  {
    var t := Mantissa(big) - m;
    if t == 0 then Fields(big.neg, big.exp, 0)
    else
      var n := Normalized(t, big.exp);
      Fields(big.neg, n.1, Fraction(n.0))
  }

  function Add(a: Word, b: Word): Word {
    var (big, small) := (Larger(a, b), Smaller(a, b));
    LargerIsLarger(a, b);
    var m := Aligned(big, small);
    AlignedFits(big, small);
    if a.neg == b.neg then SumOf(big, m) else DifferenceOf(big, m)
  }

  /** The branch by signs, without the branch by size. */
  lemma AddIs(a: Word, b: Word)
    ensures var (big, small) := (Larger(a, b), Smaller(a, b));
            && big.exp >= small.exp && Aligned(big, small) <= Mantissa(big)
            && (a.neg == b.neg <==> big.neg == small.neg)
            && Add(a, b) == if big.neg == small.neg then SumOf(big, Aligned(big, small))
                            else DifferenceOf(big, Aligned(big, small))
    ensures Fraction(0) == 0
  {
    hide Magnitude, Aligned, SumOf, DifferenceOf, Compare;
    LargerIsLarger(a, b);
    AlignedFits(Larger(a, b), Smaller(a, b));
  }

  lemma AlignedFits(big: Word, small: Word)
    requires big.exp >= small.exp && Magnitude(big) >= Magnitude(small)
    ensures Aligned(big, small) <= Mantissa(big)
    ensures Aligned(big, small) == Mantissa(big) <==> Absolute(big) == Absolute(small)
  {
    hide Magnitude;
    MagnitudeOrder(big, small);
    MagnitudeOrder(small, big);
  }

  lemma GrowsBy(x: nat, s: nat)
    requires s >= 1
    ensures x <= x * s
  {
  }

  /** The normalisation loop. Its bound of 24 turns is never what ends it. */
  method Normalize(start: nat, exp: nat) returns (temp: nat, exponent: nat)
    requires 0 < start < 2 * HIDDEN
    ensures (temp, exponent) == Normalized(start, exp)
  {
    temp, exponent := start, exp;
    var i := 0;
    while temp < HIDDEN && exponent > 0 && i < 24
      invariant 0 <= i <= 24 && Shift(i) <= temp < 2 * HIDDEN
      invariant Normalized(temp, exponent) == Normalized(start, exp)
    {
      temp := temp * 2;
      exponent := exponent - 1;
      i := i + 1;
    }
    ShiftOf24();
  }

  lemma ShiftOf24()
    ensures Shift(24) == 2 * HIDDEN
  {
    assert Shift(8) == 256;
    assert Shift(16) == 65536;
  }

  /** The adder as the circuit computes it, step by step. */
  method Adder(a: Word, b: Word) returns (result: Word)
    ensures result == Add(a, b)
  {
    var comp := Compare(Absolute(a), Absolute(b));
    var big := if comp then a else b;
    var small := if comp then b else a;
    hide Pow2, Shift, Aligned, Compare, Magnitude, Normalized, Fraction, Add;
    AddIs(a, b);
    assert big == Larger(a, b) && small == Smaller(a, b);
    var shifted := Aligned(big, small);
    var temp := if big.neg == small.neg then Mantissa(big) + shifted else Mantissa(big) - shifted;
    var exponent := big.exp;
    if temp >= 2 * HIDDEN {
      temp := (temp - 2 * HIDDEN) / 2;
      exponent := if exponent < 255 then exponent + 1 else 255;
    } else if temp != 0 {
      temp, exponent := Normalize(temp, exponent);
    }
    result := Fields(big.neg, exponent, Fraction(temp));
  }

  // ----- how exact a sum is

  /** `n` units of the last place of `w`. */
  function Units(n: nat, w: Word): real {
    n as real * Ulp(w)
  }

  lemma UnitsAdd(m: nat, n: nat, w: Word)
    ensures Units(m + n, w) == Units(m, w) + Units(n, w)
    ensures Units(1, w) == Ulp(w) && Units(Mantissa(w), w) == Magnitude(w)
  {
    hide Ulp, Mantissa;
  }

  lemma {:induction false} ShiftRightBounds(m: nat, k: nat)
    ensures ShiftRight(m, k) * Shift(k) <= m < (ShiftRight(m, k) + 1) * Shift(k)
    decreases k
  {
    if k > 0 {
      ShiftRightBounds(m / 2, k - 1);
      DoubledBounds(ShiftRight(m, k), Shift(k - 1), m);
    }
  }

  lemma DoubledBounds(q: nat, s: nat, m: nat)
    requires q * s <= m / 2 < (q + 1) * s
    ensures q * (2 * s) <= m < (q + 1) * (2 * s)
  {
    assert q * (2 * s) == 2 * (q * s) && (q + 1) * (2 * s) == 2 * ((q + 1) * s);
  }

  lemma QuotientBounds(m: nat, s: nat)
    requires s >= 1
    ensures m / s * s <= m < (m / s + 1) * s
  {
  }

  lemma RegroupedBounds(q: nat, s: nat, m: nat, v: real)
    requires q * s <= m < (q + 1) * s && v > 0.0
    ensures q as real * (v * s as real) <= m as real * v < (q + 1) as real * (v * s as real)
  {
    MultipleBetween(q * s, m, m, v, m as real * v);
    Multiples(m, (q + 1) * s, v, m as real * v, ((q + 1) * s) as real * v);
    assert q as real * (v * s as real) == (q * s) as real * v;
    assert (q + 1) as real * (v * s as real) == ((q + 1) * s) as real * v;
  }

  lemma AlignedUnits(big: Word, small: Word, s: nat)
    requires big.exp >= small.exp && s >= 1 && Ulp(big) == Ulp(small) * s as real
    requires Aligned(big, small) * s <= Mantissa(small) < (Aligned(big, small) + 1) * s
    ensures var q := Aligned(big, small);
            Units(q, big) <= Magnitude(small) < Units(q + 1, big)
  {
    hide Aligned, Mantissa, Ulp;
    RegroupedBounds(Aligned(big, small), s, Mantissa(small), Ulp(small));
  }

  /** Aligning cuts off less than one unit of the larger operand's last place. */
  lemma AlignedValue(big: Word, small: Word)
    requires big.exp >= small.exp
    ensures var q := Aligned(big, small);
            Units(q, big) <= Magnitude(small) < Units(q + 1, big)
  {
    hide Pow2, Mantissa, Shift;
    var d := big.exp - small.exp;
    Pow2Adds(small.exp - 150, d);
    ShiftRightBounds(Mantissa(small), d);
    AlignedUnits(big, small, Shift(d));
  }

  /** The sum of the aligned mantissas, in units of the larger operand's last place. */
  lemma SumValue(big: Word, small: Word)
    requires big.exp >= small.exp
    ensures var s := Units(Mantissa(big) + Aligned(big, small), big);
            s <= Magnitude(big) + Magnitude(small) < s + Ulp(big)
  {
    hide Pow2, Mantissa, Aligned, Ulp, Units, Magnitude;
    AlignedValue(big, small);
    UnitsAdd(Mantissa(big), Aligned(big, small), big);
    UnitsAdd(Aligned(big, small), 1, big);
  }

  lemma Distributes(m: nat, n: nat, u: real)
    ensures (m + n) as real * u == m as real * u + n as real * u
  {
  }

  /** Halving the sum after a carry. */
  lemma CarryValue(s: nat, u: real)
    requires u > 0.0
    ensures (s / 2) as real * (2.0 * u) <= s as real * u
    ensures s as real * u + u <= (s / 2) as real * (2.0 * u) + 2.0 * u
  {
    var h := s / 2;
    assert s == 2 * h || s == 2 * h + 1;
    assert h as real * (2.0 * u) == (2 * h) as real * u;
    MultipleBetween(2 * h, s, 2 * h + 1, u, s as real * u);
    Distributes(2 * h, 1, u);
  }

  lemma SumOfValue(big: Word, m: nat)
    requires big.exp <= 254 && m <= Mantissa(big)
    ensures var (r, s) := (SumOf(big, m), Units(Mantissa(big) + m, big));
            && r.neg == big.neg && Ulp(r) <= 2.0 * Ulp(big)
            && Magnitude(r) <= s && s + Ulp(big) <= Magnitude(r) + Ulp(r)
  {
    hide Pow2;
    var r := SumOf(big, m);
    var s := Mantissa(big) + m;
    if s >= 2 * HIDDEN {
      Pow2Next(big.exp - 150);
      assert Ulp(r) == 2.0 * Ulp(big);
      assert Mantissa(r) == s / 2;
      CarryValue(s, Ulp(big));
    } else {
      assert Mantissa(r) == s && Ulp(r) == Ulp(big);
    }
  }

  lemma SameSignBound(a: Word, b: Word)
    requires a.neg == b.neg && a.exp <= 254 && b.exp <= 254
    ensures var (r, exact) := (Add(a, b), Magnitude(a) + Magnitude(b));
            && r.neg == a.neg && Magnitude(r) <= exact < Magnitude(r) + Ulp(r)
            && Ulp(r) <= 2.0 * Ulp(Larger(a, b))
  {
    hide Pow2, Mantissa, Ulp, Magnitude, SumOf, Units, Aligned;
    var (big, small) := (Larger(a, b), Smaller(a, b));
    LargerIsLarger(a, b);
    AlignedFits(big, small);
    assert Add(a, b) == SumOf(big, Aligned(big, small));
    assert Magnitude(a) + Magnitude(b) == Magnitude(big) + Magnitude(small);
    SumValue(big, small);
    SumOfValue(big, Aligned(big, small));
  }

  /** Operands of one sign: the exact sum rounded toward zero. */
  lemma SameSignRounds(a: Word, b: Word)
    requires a.neg == b.neg && a.exp <= 254 && b.exp <= 254
    ensures var (r, exact) := (Add(a, b), Magnitude(a) + Magnitude(b));
            r.neg == a.neg && RoundsDown(r, exact) && (1.0 - EPSILON) * exact < Magnitude(r)
  {
    hide Add, Ulp, Magnitude, RoundsDown;
    SameSignBound(a, b);
    WithinUlpRoundsDown(Add(a, b), Magnitude(a) + Magnitude(b));
    RelativeError(Add(a, b), Magnitude(a) + Magnitude(b));
  }

  /** An operand of the largest exponent keeps it, whatever of its sign is added. */
  lemma LargestStays(a: Word, b: Word)
    requires a.neg == b.neg && (a.exp == 255 || b.exp == 255)
    ensures Add(a, b).exp == 255 && Add(a, b).neg == a.neg
  {
    hide Magnitude, Aligned;
    LargerIsLarger(a, b);
    AlignedFits(Larger(a, b), Smaller(a, b));
  }

  /** Where the exponent is used up, the shifted difference is left as the fraction. */
  lemma UsedUpLeavesShifted(big: Word, m: nat)
    requires m < Mantissa(big) && (Mantissa(big) - m) * Shift(big.exp) < HIDDEN
    ensures DifferenceOf(big, m) == Fields(big.neg, 0, (Mantissa(big) - m) * Shift(big.exp))
  {
    hide Mantissa, Shift, Normalized;
    var t := Mantissa(big) - m;
    MantissaIs(big);
    UsedUp(t, big.exp);
  }

  lemma UsedUp(t: nat, e: nat)
    requires 0 < t < 2 * HIDDEN && t * Shift(e) < HIDDEN
    ensures Normalized(t, e) == (t * Shift(e), 0)
  {
    hide Shift, Normalized;
    NormalizedIs(t, e);
    var r := Normalized(t, e);
    ShiftGrows(e - r.1, e);
    TimesGrows(t, Shift(e - r.1), Shift(e));
  }

  lemma TimesGrows(t: nat, x: nat, y: nat)
    requires x <= y
    ensures t * x <= t * y
  {
  }

  lemma MantissaIs(w: Word)
    ensures HIDDEN <= Mantissa(w) < 2 * HIDDEN
  {
  }

  lemma NormalizedIs(t: nat, e: nat)
    requires 0 < t < 2 * HIDDEN
    ensures var r := Normalized(t, e);
            && r.1 <= e && r.0 == t * Shift(e - r.1) && (r.1 > 0 ==> r.0 >= HIDDEN) && (t >= HIDDEN ==> r == (t, e))
  {
  }

  /** The first word behind the finite ones, which stands for infinity. */
  const INFINITY: Word := Fields(false, 255, 0)

  /** The exponent of a sum leaves the finite ones if and only if the exact sum does. The
      adder does not clear the fraction then. */
  lemma SumOverflowsIff(a: Word, b: Word)
    requires a.neg == b.neg && a.exp <= 254 && b.exp <= 254
    ensures Add(a, b).exp == 255 <==> Magnitude(a) + Magnitude(b) >= Pow2(128)
    ensures Pow2(128) == Magnitude(INFINITY)
  {
    hide Add, Ulp, Pow2;
    SameSignBound(a, b);
    MagnitudeOrder(Add(a, b), INFINITY);
    InfinityIsPower();
  }

  lemma InfinityIsPower()
    ensures Pow2(128) == Magnitude(INFINITY)
  {
    hide Pow2;
    ShiftsOfMantissa();
    Pow2Adds(105, 23);
  }

  // ----- how exact a difference is

  lemma ShiftedValue(r: Word, t: nat, big: Word)
    requires r.exp <= big.exp && Mantissa(r) == t * Shift(big.exp - r.exp)
    ensures Magnitude(r) == Units(t, big)
  {
    hide Pow2, Shift, Mantissa;
    var (d, v) := (big.exp - r.exp, Ulp(r));
    Pow2Adds(r.exp - 150, d);
    Reassociated(t, Shift(d), v);
  }

  lemma Reassociated(t: nat, s: nat, v: real)
    ensures (t * s) as real * v == t as real * (v * s as real)
  {
  }

  /** What the operands must satisfy for the loop to set the hidden bit before the
      exponent is used up. It fails for exact negatives, whose mantissas leave nothing. */
  predicate Normalizes(big: Word, small: Word)
    requires big.exp >= small.exp
  {
    (Mantissa(big) - Aligned(big, small)) * Shift(big.exp) >= HIDDEN
  }

  /** Normalising keeps mantissa times 2^exponent. */
  lemma DifferenceValue(big: Word, m: nat)
    requires m < Mantissa(big) && (Mantissa(big) - m) * Shift(big.exp) >= HIDDEN
    ensures Magnitude(DifferenceOf(big, m)) == Units(Mantissa(big) - m, big)
  {
    hide Magnitude, Shift, Units;
    var t := Mantissa(big) - m;
    var n := Normalized(t, big.exp);
    assert n.1 == 0 ==> n.0 == t * Shift(big.exp);
    assert HIDDEN <= n.0 < 2 * HIDDEN;
    FractionOf(n.0);
    ShiftedValue(DifferenceOf(big, m), t, big);
  }

  /** Otherwise the exponent reaches zero before the hidden bit is set. */
  lemma {:induction false} NormalizedShort(t: nat, e: nat)
    requires 0 < t && t * Shift(e) < HIDDEN
    ensures t < HIDDEN && Normalized(t, e) == (t * Shift(e), 0)
    decreases e
  {
    GrowsBy(t, Shift(e));
    if e > 0 {
      assert 2 * t * Shift(e - 1) == t * Shift(e);
      NormalizedShort(2 * t, e - 1);
    }
  }

  lemma ShiftBelowHidden(e: nat)
    requires Shift(e) < HIDDEN
    ensures 2 * Shift(e) <= HIDDEN
  {
    hide Shift;
    ShiftsOfMantissa();
    if e >= 23 {
      ShiftGrows(23, e);
    } else {
      ShiftGrows(e + 1, 23);
      ShiftNext(e);
    }
  }

  lemma ShiftNext(e: nat)
    ensures Shift(e + 1) == 2 * Shift(e)
  {
  }

  lemma ShortShape(big: Word, m: nat)
    requires m < Mantissa(big) && (Mantissa(big) - m) * Shift(big.exp) < HIDDEN
    ensures DifferenceOf(big, m) == Fields(big.neg, 0, (Mantissa(big) - m) * Shift(big.exp))
    ensures 2 * Shift(big.exp) <= HIDDEN
  {
    hide Shift, Mantissa;
    var (t, s) := (Mantissa(big) - m, Shift(big.exp));
    NormalizedShort(t, big.exp);
    GrowsBy(s, t);
    assert s * t == t * s;
    ShiftBelowHidden(big.exp);
  }

  /** Then the word, read with a hidden bit, is too large by that bit. */
  lemma ShortValue(r: Word, t: nat, big: Word)
    requires r.exp == 0 && r.frac == t * Shift(big.exp) && 2 * Shift(big.exp) <= HIDDEN
    ensures Magnitude(r) >= Units(t, big) + 2.0 * Ulp(big)
  {
    hide Pow2, Shift;
    Pow2Adds(-150, big.exp);
    ShortUnits(Mantissa(r), t, Shift(big.exp), Ulp(r), Ulp(big));
  }

  lemma ShortUnits(m: nat, t: nat, s: nat, v: real, u: real)
    requires v > 0.0 && u == v * s as real && 2 * s <= HIDDEN && m == HIDDEN + t * s
    ensures m as real * v >= t as real * u + 2.0 * u
  {
    Distributes(HIDDEN, t * s, v);
    Reassociated(t, s, v);
    MultipleBetween(2 * s, HIDDEN, HIDDEN, v, HIDDEN as real * v);
    assert (2 * s) as real * v == 2.0 * (v * s as real);
  }

  lemma FractionOf(m: nat)
    requires HIDDEN <= m < 2 * HIDDEN
    ensures HIDDEN + Fraction(m) == m
  {
  }

  /** An exponent of 24 or more suffices for any difference. */
  lemma LargeExponentNormalizes(big: Word, small: Word)
    requires big.exp >= small.exp && big.exp >= 24 && Aligned(big, small) < Mantissa(big)
    ensures Normalizes(big, small)
  {
    hide Mantissa, Aligned;
    ShiftGrows(24, big.exp);
    ShiftOf24();
    GrowsBy(Shift(big.exp), Mantissa(big) - Aligned(big, small));
  }

  /** Operands of opposite signs: the result has the sign of the larger one and exceeds
      the exact magnitude by less than one unit of the larger operand's last place. */
  lemma OppositeSignsBound(a: Word, b: Word)
    requires a.neg != b.neg
    ensures Larger(a, b).exp >= Smaller(a, b).exp
    ensures Normalizes(Larger(a, b), Smaller(a, b)) ==>
              var (r, big, small) := (Add(a, b), Larger(a, b), Smaller(a, b));
              var exact := Magnitude(big) - Magnitude(small);
              && r.neg == big.neg && exact > 0.0
              && exact <= Magnitude(r) < exact + Ulp(big)
  {
    hide Pow2, Mantissa, Ulp, Magnitude, Aligned, Units;
    var (big, small) := (Larger(a, b), Smaller(a, b));
    LargerIsLarger(a, b);
    AlignedFits(big, small);
    if Normalizes(big, small) {
      MagnitudeOrder(small, big);
      MagnitudeOrder(big, small);
      var q := Aligned(big, small);
      AlignedValue(big, small);
      DifferenceValue(big, q);
      UnitsAdd(Mantissa(big) - q, q, big);
      UnitsAdd(q, 1, big);
    }
  }

  /** Exact negatives do not cancel: the exponent is not cleared, so the hidden bit remains
      and the sum is a power of two as large as the operands. */
  lemma NegativesDoNotCancel(a: Word)
    ensures Add(a, Negated(a)) == Fields(!a.neg, a.exp, 0)
    ensures Magnitude(Add(a, Negated(a))) == HIDDEN as real * Ulp(a)
    ensures Value(a) + Value(Negated(a)) == 0.0 && Ulp(Larger(a, Negated(a))) == Ulp(a)
  {
    hide Pow2;
  }

  /** When the exponent is used up, a difference is too large by the hidden bit. */
  lemma ExponentUsedUp(a: Word, b: Word)
    requires a.neg != b.neg && Absolute(a) != Absolute(b)
    requires Larger(a, b).exp >= Smaller(a, b).exp && !Normalizes(Larger(a, b), Smaller(a, b))
    ensures var (r, big, small) := (Add(a, b), Larger(a, b), Smaller(a, b));
            r.neg == big.neg && Magnitude(r) >= Magnitude(big) - Magnitude(small) + 2.0 * Ulp(big)
  {
    hide Pow2, Mantissa, Ulp, Magnitude, Aligned, Units;
    var (big, small) := (Larger(a, b), Smaller(a, b));
    LargerIsLarger(a, b);
    AlignedFits(big, small);
    var q := Aligned(big, small);
    AlignedValue(big, small);
    ShortShape(big, q);
    ShortValue(Add(a, b), Mantissa(big) - q, big);
    UnitsAdd(Mantissa(big) - q, q, big);
  }

  /** A sum is within two units of the larger operand's last place of the exact one if and
      only if the operands have one sign or what is left after aligning and subtracting
      reaches the hidden bit within the larger one's exponent. */
  lemma AccurateIff(a: Word, b: Word)
    requires a.exp <= 254 && b.exp <= 254
    ensures Larger(a, b).exp >= Smaller(a, b).exp
    ensures -2.0 * Ulp(Larger(a, b)) < Value(Add(a, b)) - (Value(a) + Value(b)) < 2.0 * Ulp(Larger(a, b))
            <==> a.neg == b.neg || Normalizes(Larger(a, b), Smaller(a, b))
  {
    hide Pow2, Mantissa, Ulp, Magnitude, Aligned, Add, RoundsDown;
    LargerIsLarger(a, b);
    if a.neg == b.neg {
      SameSignBound(a, b);
    } else if Absolute(a) == Absolute(b) {
      assert b == Negated(a);
      NegativesDoNotCancel(a);
      NothingLeft(Larger(a, b), Smaller(a, b));
    } else {
      OppositeSignsBound(a, b);
      if !Normalizes(Larger(a, b), Smaller(a, b)) {
        ExponentUsedUp(a, b);
      }
    }
  }

  lemma NothingLeft(big: Word, small: Word)
    requires Absolute(big) == Absolute(small)
    ensures !Normalizes(big, small)
  {
    AlignedFits(big, small);
  }

  /** The smallest exponents: these operands are no exact negatives, and yet the sum is off. */
  lemma SmallDifferenceIsOff()
    ensures Add(Fields(false, 1, 1), Fields(true, 1, 0)) == Fields(false, 0, 2)
    ensures !Normalizes(Fields(false, 1, 1), Fields(true, 1, 0))
  {
    assert Shift(1) == 2;
  }

  // ----- ieee754_multiplier

  /** The 48-bit product of the mantissas. */
  function Product(a: Word, b: Word): (t: nat)
    ensures HIDDEN * HIDDEN <= t < 4 * HIDDEN * HIDDEN
  {
    ProductRange(Mantissa(a), Mantissa(b));
    Mantissa(a) * Mantissa(b)
  }

  lemma ProductRange(m: nat, n: nat)
    requires HIDDEN <= m < 2 * HIDDEN && HIDDEN <= n < 2 * HIDDEN
    ensures HIDDEN * HIDDEN <= m * n < 4 * HIDDEN * HIDDEN
  {
    MultiplicationOrder(HIDDEN, HIDDEN, m, n);
    MultiplicationOrder(m + 1, n + 1, 2 * HIDDEN, 2 * HIDDEN);
    assert (m + 1) * (n + 1) == m * n + m + n + 1;
  }

  lemma MultiplicationOrder(a: nat, b: nat, m: nat, n: nat)
    requires a <= m && b <= n
    ensures a * b <= m * n
  {
    assert m * n == a * b + (m - a) * n + a * (n - b);
  }

  /** Bit 47 of the product. */
  predicate Carries(a: Word, b: Word) {
    Product(a, b) >= 2 * HIDDEN * HIDDEN
  }

  /** The multiplier. `Temp_Exponent` has nine bits and wraps. */
  function Multiply(a: Word, b: Word): Word {
    var t := Product(a, b);
    var sum := (a.exp + b.exp + 512 - 127) % 512;
    var exponent := if Carries(a, b) then (sum + 1) % 512 else sum;
    var mantissa := if Carries(a, b) then t / (2 * HIDDEN) % HIDDEN else t / HIDDEN % HIDDEN;
    if exponent >= 255 then Fields(a.neg != b.neg, 255, 0)
    else if exponent <= 0 then Fields(a.neg != b.neg, 0, 0)
    else Fields(a.neg != b.neg, exponent, mantissa)
  }

  /** The exponent of the product if exponents had no width. */
  function ProductExponent(a: Word, b: Word): int {
    a.exp + b.exp - 127 + if Carries(a, b) then 1 else 0
  }

  /** An overflow is reported as infinity, and so is every underflow but the smallest:
      the wrapped exponent looks like a large one. */
  lemma InfinityIff(a: Word, b: Word)
    ensures Multiply(a, b).exp == 255 <==> ProductExponent(a, b) >= 255 || ProductExponent(a, b) < 0
    ensures Multiply(a, b).exp == 0 <==> ProductExponent(a, b) == 0
    ensures 1 <= ProductExponent(a, b) <= 254 ==> Multiply(a, b).exp == ProductExponent(a, b)
    ensures Multiply(a, b).neg == (a.neg != b.neg)
    ensures Multiply(a, b).exp == 0 || Multiply(a, b).exp == 255 ==> Multiply(a, b).frac == 0
  {
    hide Carries;
  }

  lemma ProductValue(a: Word, b: Word)
    ensures Times(Magnitude(a), Magnitude(b)) == Product(a, b) as real * Pow2(a.exp + b.exp - 300)
  {
    hide Pow2, Mantissa;
    Pow2Sum(a.exp - 150, b.exp - 150);
    FactorsRegrouped(Mantissa(a), Ulp(a), Mantissa(b), Ulp(b));
  }

  lemma FactorsRegrouped(m: nat, u: real, n: nat, v: real)
    ensures (m as real * u) * (n as real * v) == (m * n) as real * (u * v)
  {
  }

  /** Dropping the low `k` bits of a mantissa product. */
  lemma Truncated(r: Word, t: nat, k: nat)
    requires Mantissa(r) == t / Shift(k)
    ensures Magnitude(r) <= t as real * Pow2(r.exp - 150 - k) < Magnitude(r) + Ulp(r)
  {
    hide Pow2, Shift, Mantissa;
    var v := Pow2(r.exp - 150 - k);
    Pow2Adds(r.exp - 150 - k, k);
    QuotientBounds(t, Shift(k));
    TruncatedUnits(r, t, Shift(k), v);
  }

  lemma TruncatedUnits(r: Word, t: nat, s: nat, v: real)
    requires v > 0.0 && Ulp(r) == v * s as real && Mantissa(r) * s <= t < (Mantissa(r) + 1) * s
    ensures Magnitude(r) <= t as real * v < Magnitude(r) + Ulp(r)
  {
    hide Ulp, Mantissa;
    RegroupedBounds(Mantissa(r), s, t, v);
    Distributes(Mantissa(r), 1, Ulp(r));
  }

  lemma ShiftsOfMantissa()
    ensures Shift(23) == HIDDEN && Shift(24) == 2 * HIDDEN
  {
    ShiftOf24();
  }

  lemma ProductMantissa(a: Word, b: Word)
    requires 1 <= ProductExponent(a, b) <= 254
    ensures Mantissa(Multiply(a, b)) == Product(a, b) / (if Carries(a, b) then 2 * HIDDEN else HIDDEN)
  {
    hide Product;
    var t := Product(a, b);
  }

  lemma ProductBound(a: Word, b: Word)
    requires 1 <= ProductExponent(a, b) <= 254
    ensures var (r, exact) := (Multiply(a, b), Times(Magnitude(a), Magnitude(b)));
            Magnitude(r) <= exact < Magnitude(r) + Ulp(r)
  {
    hide Pow2, Shift, Mantissa, Magnitude, Ulp, Product, Multiply, Times;
    ProductValue(a, b);
    ShiftsOfMantissa();
    InfinityIff(a, b);
    ProductMantissa(a, b);
    Truncated(Multiply(a, b), Product(a, b), if Carries(a, b) then 24 else 23);
  }

  /** A product whose exponent is representable is the exact product rounded toward zero. */
  lemma ProductRounds(a: Word, b: Word)
    requires 1 <= ProductExponent(a, b) <= 254
    ensures var (r, exact) := (Multiply(a, b), Times(Magnitude(a), Magnitude(b)));
            && r.neg == (a.neg != b.neg) && RoundsDown(r, exact)
            && (1.0 - EPSILON) * exact < Magnitude(r)
  {
    hide Magnitude, Ulp, Multiply, RoundsDown, Times;
    ProductBound(a, b);
    InfinityIff(a, b);
    WithinUlpRoundsDown(Multiply(a, b), Times(Magnitude(a), Magnitude(b)));
    RelativeError(Multiply(a, b), Times(Magnitude(a), Magnitude(b)));
  }
}
