/**
 The clocked Newton-Raphson divider (FederatedLearningFPGA/alu.v:180-299).
 */
module Divider {
  import opened FloatWords
  import opened FloatUnits
  import opened NewtonStep

  /** 32 / 17, 48 / 17 and 2, as single-precision literals. */
  const THIRTY_TWO_17THS: Word := Bits(0x3ff0f0f1)
  const FORTY_EIGHT_17THS: Word := Bits(0x4034b4b5)
  const TWO: Word := Bits(0x4000_0000)

  // ----- the combinational parts

  /** The divisor's mantissa, scaled into [1/2, 1). */
  function Scaled(b: Word): Word {
    Fields(false, 126, b.frac)
  }

  /** M1 and A1: 48/17 - 32/17 * d. */
  function FirstGuess(b: Word): Word {
    Add(FORTY_EIGHT_17THS, Multiply(Scaled(b), THIRTY_TWO_17THS).(neg := true))
  }

  /** M2 and A2: 2 - d * x. */
  function Correction(b: Word, x: Word): Word {
    Add(TWO, Negated(Multiply(Scaled(b), x)))
  }

  /** M3: one Newton step. */
  function Refined(b: Word, x: Word): Word {
    Multiply(x, Correction(b, x))
  }

  /** The approximation after `n` Newton steps. */
  function Approximation(b: Word, n: nat): Word {
    if n == 0 then FirstGuess(b) else Refined(b, Approximation(b, n - 1))
  }

  /** The approximated reciprocal with the divisor's sign and exponent put back. */
  function Rescaled(b: Word, x: Word): Word {
    Fields(b.neg, (x.exp + 126 + 256 - b.exp) % 256, x.frac)
  }

  /** M4 after `iter` clocked Newton steps and the combinational one. */
  function Quotient(a: Word, b: Word, iter: nat): Word {
    Multiply(a, Rescaled(b, Approximation(b, iter + 1)))
  }

  // ----- the clocked part

  datatype State = State(xn: Word, counter: nat, index: nat, result: Word)

  function Tick(s: State, iter: nat, enable: bool, a: Word, b: Word): State {
    if a == ZERO then s.(result := ZERO, counter := 0, index := 0)
    else if !enable then s
    else if s.counter == 0 then s.(counter := 1, index := 0)
    else if s.counter == 1 then s.(xn := FirstGuess(b), counter := 2)
    else if s.counter == 2 then
      if s.index < iter then s.(xn := Refined(b, s.xn), index := s.index + 1)
      else s.(result := Multiply(a, Rescaled(b, Refined(b, s.xn))), counter := 0, index := s.index + 1)
    else s.(counter := 0)
  }

  class DividerUnit {
    const iter: nat
    var xn: Word
    var counter: nat
    var index: nat
    var result: Word

    constructor (iter: nat)
      ensures this.iter == iter && counter == 0 && index == 0 && result == ZERO
    {
      this.iter := iter;
      xn := ZERO;
      counter := 0;
      index := 0;
      result := ZERO;
    }

    function Current(): State
      reads this
    {
      State(xn, counter, index, result)
    }

    /** One positive clock edge. */
    method Clock(enable: bool, a: Word, b: Word)
      modifies this
      ensures Current() == Tick(old(Current()), iter, enable, a, b)
    {
      hide Add, Multiply;
      if a == ZERO {
        result := ZERO;
        counter := 0;
        index := 0;
      } else if enable {
        match counter
        case 0 =>
          counter := 1;
          index := 0;
        case 1 =>
          xn := FirstGuess(b);
          counter := counter + 1;
        case 2 =>
          var m3 := Refined(b, xn);
          if index < iter {
            xn := m3;
          } else {
            result := Multiply(a, Rescaled(b, m3));
            counter := 0;
          }
          index := index + 1;
        case _ =>
          counter := 0;
      }
    }
  }

  /** The state after some clock edges at which the operands stay the same. */
  function Clocked(s: State, iter: nat, enables: seq<bool>, a: Word, b: Word): State
    decreases |enables|
  {
    if enables == [] then s
    else Tick(Clocked(s, iter, enables[..|enables| - 1], a, b), iter, enables[|enables| - 1], a, b)
  }

  function Enabled(enables: seq<bool>): (n: nat)
    ensures n <= |enables|
    decreases |enables|
  {
    if enables == [] then 0
    else Enabled(enables[..|enables| - 1]) + if enables[|enables| - 1] then 1 else 0
  }

  /** A zero dividend gives zero at the next edge, enabled or not, and ends the division
      that was under way. */
  lemma {:induction false} ZeroDividend(s: State, iter: nat, enables: seq<bool>, b: Word)
    requires enables != []
    ensures var t := Clocked(s, iter, enables, ZERO, b);
            t.result == Fields(false, 0, 0) && t.counter == 0 && t.index == 0
  {
  }

  /** Where an idle divider is after `n` enabled clocks. */
  predicate Progress(s: State, t: State, iter: nat, n: nat, a: Word, b: Word) {
    if n == 0 then t == s
    else if n == 1 then t.counter == 1 && t.index == 0 && t.result == s.result
    else if n <= iter + 2 then
      t.counter == 2 && t.index == n - 2 && t.xn == Approximation(b, n - 2) && t.result == s.result
    else t.counter == 0 && t.index == iter + 1 && t.result == Quotient(a, b, iter)
  }

  /** A run takes exactly ITER + 3 enabled clocks, however many disabled ones fall between:
      until the last of them the result stays, and with it the quotient appears and the
      divider is idle again. */
  lemma {:induction false} RunTakesExactly(s: State, iter: nat, enables: seq<bool>, a: Word, b: Word)
    requires a != ZERO && s.counter == 0 && Enabled(enables) <= iter + 3
    ensures Progress(s, Clocked(s, iter, enables, a, b), iter, Enabled(enables), a, b)
    decreases |enables|
  {
    hide FirstGuess, Refined, Multiply, Rescaled;
    if enables != [] {
      RunTakesExactly(s, iter, enables[..|enables| - 1], a, b);
    }
  }

  // ----- the circuit's words

  lemma Literals()
    ensures THIRTY_TWO_17THS == Fields(false, 127, 0x70f0f1)
    ensures FORTY_EIGHT_17THS == Fields(false, 128, 0x34b4b5)
    ensures TWO == Fields(false, 128, 0)
    ensures Magnitude(THIRTY_TWO_17THS) == 15790321.0 * EPSILON
    ensures Magnitude(FORTY_EIGHT_17THS) == 23685482.0 * EPSILON
    ensures Magnitude(TWO) == 2.0
  {
    hide Pow2;
    NearOne(THIRTY_TWO_17THS);
    NearOne(FORTY_EIGHT_17THS);
    NearOne(TWO);
  }

  lemma ScaledRange(b: Word)
    ensures 0.5 <= Magnitude(Scaled(b)) < 1.0
  {
    hide Pow2;
    NearOne(Scaled(b));
    UlpIsSmall(Scaled(b));
  }

  /** `c - m` for a word `c` in [2, 4) and a smaller word `m`. */
  lemma SubtractedBound(c: Word, m: Word)
    requires c.exp == 128 && !c.neg && m.neg && m.exp <= 127
    ensures var (r, exact) := (Add(c, m), Magnitude(c) - Magnitude(m));
            !r.neg && exact <= Magnitude(r) < exact + 2.0 * EPSILON
  {
    hide Pow2, Mantissa, Ulp, Magnitude, Add;
    NearOne(c);
    assert Larger(c, m) == c && Smaller(c, m) == m;
    LargerIsLarger(c, m);
    AlignedFits(c, m);
    LargeExponentNormalizes(c, m);
    OppositeSignsBound(c, m);
  }

  lemma ApproximationRange(d: real, x: real)
    requires 0.5 <= d < 1.0 && 0.0 < x && -0.06 <= Error(d, x) <= 0.06
    ensures 0.9 < x < 2.2
  {
    hide Times;
    TimesOrder(d, x);
  }

  lemma TimesOrder(d: real, x: real)
    requires 0.5 <= d < 1.0 && 0.0 < x
    ensures 0.5 * x <= Times(d, x) < x
  {
  }

  lemma SameMagnitude(w: Word)
    ensures Magnitude(Negated(w)) == Magnitude(w) == Magnitude(w.(neg := true))
  {
  }

  /** The first product of a Newton step, and its correction. */
  lemma CorrectionRounds(b: Word, x: Word)
    requires !x.neg && -0.06 <= Error(Magnitude(Scaled(b)), Magnitude(x)) <= 0.06
    ensures var (m, y, dx) := (Multiply(Scaled(b), x), Correction(b, x), Times(Magnitude(Scaled(b)), Magnitude(x)));
            && !y.neg && 126 <= y.exp <= 127 && 126 <= x.exp <= 128 && 0.0 < dx
            && (1.0 - EPSILON) * dx < Magnitude(m) <= dx
            && 2.0 - Magnitude(m) <= Magnitude(y) < 2.0 - Magnitude(m) + 2.0 * EPSILON
  {
    hide Pow2, Mantissa, Ulp, Magnitude, Add, Multiply, Carries, RoundsDown, Times;
    var (d, m, y) := (Scaled(b), Multiply(Scaled(b), x), Correction(b, x));
    ScaledRange(b);
    ApproximationRange(Magnitude(d), Magnitude(x));
    NearOne(x);
    InfinityIff(d, x);
    ProductRounds(d, x);
    ProductBound(d, x);
    NearOne(m);
    SameMagnitude(m);
    Literals();
    SubtractedBound(TWO, Negated(m));
    NearOne(y);
  }

  /** A Newton step of the circuit squares the error, up to its roundings. */
  lemma StepError(b: Word, x: Word)
    requires !x.neg && -0.06 <= Error(Magnitude(Scaled(b)), Magnitude(x)) <= 0.06
    ensures !Refined(b, x).neg
    ensures var e := Error(Magnitude(Scaled(b)), Magnitude(x));
            var ee := Times(e, e);
            ee - EPSILON * (3.0 - 4.0 * e + ee) < Error(Magnitude(Scaled(b)), Magnitude(Refined(b, x)))
            < ee + EPSILON * (1.0 - ee)
  {
    hide Magnitude, Multiply, Correction, Times, Carries, RoundsDown;
    var (d, m, y, z) := (Scaled(b), Multiply(Scaled(b), x), Correction(b, x), Refined(b, x));
    CorrectionRounds(b, x);
    InfinityIff(x, y);
    ProductRounds(x, y);
    ProductBound(x, y);
    StepOnReals(Magnitude(d), Magnitude(x), Magnitude(m), Magnitude(y), Magnitude(z));
  }

  // ----- the first guess

  lemma GuessError(b: Word)
    ensures !FirstGuess(b).neg
    ensures -0.06 <= Error(Magnitude(Scaled(b)), Magnitude(FirstGuess(b))) <= 0.06
  {
    hide Pow2, Mantissa, Ulp, Magnitude, Add, Multiply, Carries, RoundsDown, Error;
    var (d, m) := (Scaled(b), Multiply(Scaled(b), THIRTY_TWO_17THS));
    Literals();
    ScaledRange(b);
    InfinityIff(d, THIRTY_TWO_17THS);
    ProductRounds(d, THIRTY_TWO_17THS);
    ProductBound(d, THIRTY_TWO_17THS);
    SameMagnitude(m);
    NearOne(m);
    SubtractedBound(FORTY_EIGHT_17THS, m.(neg := true));
    GuessOnReals(Magnitude(d), Magnitude(m), Magnitude(FirstGuess(b)));
  }

  /** The approximation's relative error: squared at every step until the roundings show. */
  lemma {:induction false} ErrorAfter(b: Word, n: nat)
    ensures !Approximation(b, n).neg
    ensures Within(n, Error(Magnitude(Scaled(b)), Magnitude(Approximation(b, n))))
  {
    hide Magnitude, FirstGuess, Refined, Error, Times;
    if n == 0 {
      GuessError(b);
    } else {
      ErrorAfter(b, n - 1);
      var x := Approximation(b, n - 1);
      StepError(b, x);
      Contraction(n - 1, Error(Magnitude(Scaled(b)), Magnitude(x)),
                  Error(Magnitude(Scaled(b)), Magnitude(Refined(b, x))));
    }
  }

  // ----- the quotient

  lemma UlpsRescaled(b: Word, x: Word)
    requires b.exp <= x.exp + 126 < b.exp + 256
    ensures Rescaled(b, x) == Fields(b.neg, x.exp + 126 - b.exp, x.frac)
    ensures Mantissa(Rescaled(b, x)) == Mantissa(x) && Mantissa(Scaled(b)) == Mantissa(b)
    ensures Ulp(Rescaled(b, x)) == Ulp(x) * Pow2(126 - b.exp) && Ulp(Scaled(b)) == Ulp(b) * Pow2(126 - b.exp)
  {
    hide Pow2;
    Pow2Sum(x.exp - 150, 126 - b.exp);
    Pow2Sum(b.exp - 150, 126 - b.exp);
  }

  /** The divisor's exponent is undone: the rescaled approximation times the divisor is
      what the approximation was relative to the scaled divisor. */
  lemma RescaledValue(b: Word, x: Word)
    requires b.exp <= x.exp + 126 < b.exp + 256
    ensures Times(Magnitude(Rescaled(b, x)), Magnitude(b)) == Times(Magnitude(Scaled(b)), Magnitude(x))
  {
    hide Pow2, Ulp, Times, Mantissa, Rescaled, Scaled, Magnitude;
    UlpsRescaled(b, x);
    var (r, d) := (Rescaled(b, x), Scaled(b));
    Crossed(b, x, r, d, Pow2(126 - b.exp));
  }

  lemma Crossed(b: Word, x: Word, r: Word, d: Word, k: real)
    requires Mantissa(r) == Mantissa(x) && Mantissa(d) == Mantissa(b)
    requires Ulp(r) == Ulp(x) * k && Ulp(d) == Ulp(b) * k
    ensures Times(Magnitude(r), Magnitude(b)) == Times(Magnitude(d), Magnitude(x))
  {
    hide Ulp, Mantissa;
    ghost var (m, u, n, v) := (Mantissa(b) as real, Ulp(b), Mantissa(x) as real, Ulp(x));
    assert (n * (v * k)) * (m * u) == (m * (u * k)) * (n * v);
  }

  /** The rescaling is right if and only if the divisor's exponent does not make the
      eight-bit difference wrap; if it does, the reciprocal comes out 2^256 too large. */
  lemma RescaledIff(b: Word, x: Word)
    requires 126 <= x.exp <= 128
    ensures var got := Times(Magnitude(Rescaled(b, x)), Magnitude(b));
            var due := Times(Magnitude(Scaled(b)), Magnitude(x));
            && (got == due <==> b.exp <= x.exp + 126)
            && (b.exp > x.exp + 126 ==> got == Times(due, Pow2(256)))
  {
    hide Pow2, Ulp, Times, Mantissa, Magnitude, Scaled, Rescaled;
    if b.exp <= x.exp + 126 {
      RescaledValue(b, x);
    } else {
      var (r, d) := (Rescaled(b, x), Scaled(b));
      UlpsWrapped(b, x);
      CrossedWrapped(b, x, r, d, Pow2(126 - b.exp), Pow2(256));
      Pow2Grows(0, 256);
      Pow2Zero();
      TimesLarger(Magnitude(d), Magnitude(x), Pow2(256));
    }
  }

  lemma UlpsWrapped(b: Word, x: Word)
    requires 126 <= x.exp <= 128 && x.exp + 126 < b.exp
    ensures Mantissa(Rescaled(b, x)) == Mantissa(x) && Mantissa(Scaled(b)) == Mantissa(b)
    ensures Ulp(Rescaled(b, x)) == Ulp(x) * (Pow2(126 - b.exp) * Pow2(256))
    ensures Ulp(Scaled(b)) == Ulp(b) * Pow2(126 - b.exp)
  {
    hide Pow2;
    Pow2Sum(126 - b.exp, 256);
    Pow2Sum(x.exp - 150, 126 - b.exp + 256);
    Pow2Sum(b.exp - 150, 126 - b.exp);
  }

  lemma CrossedWrapped(b: Word, x: Word, r: Word, d: Word, k: real, f: real)
    requires Mantissa(r) == Mantissa(x) && Mantissa(d) == Mantissa(b)
    requires Ulp(r) == Ulp(x) * (k * f) && Ulp(d) == Ulp(b) * k
    ensures Times(Magnitude(r), Magnitude(b)) == Times(Times(Magnitude(d), Magnitude(x)), f)
  {
    hide Ulp, Mantissa;
    ghost var (m, u, n, v) := (Mantissa(b) as real, Ulp(b), Mantissa(x) as real, Ulp(x));
    assert (n * (v * (k * f))) * (m * u) == (m * (u * k)) * (n * v) * f;
  }

  lemma TimesLarger(x: real, y: real, f: real)
    requires x > 0.0 && y > 0.0 && f >= 2.0
    ensures Times(Times(x, y), f) != Times(x, y)
  {
    assert x * y > 0.0;
  }

  /** Divisors whose reciprocal's exponent fits the eight-bit difference from three Newton
      steps on. */
  predicate DivisorInRange(b: Word) {
    b.exp <= 252 || (b.exp == 253 && b.frac <= HIDDEN - 3)
  }

  /** The reciprocal of a mantissa that is not among the two largest is at least one, and
      that of a mantissa not among the four smallest is below two. */
  lemma ReciprocalRange(b: Word, n: nat)
    requires n >= 3
    ensures var x := Approximation(b, n);
            && 126 <= x.exp <= 128
            && (b.frac <= HIDDEN - 3 ==> x.exp >= 127)
            && (b.frac >= 4 ==> x.exp <= 127)
  {
    hide Pow2, Ulp, Times, Approximation, Mantissa, Magnitude;
    var (d, x) := (Scaled(b), Approximation(b, n));
    ErrorAfter(b, n);
    ScaledRange(b);
    ScaledIs(b);
    ApproximationRange(Magnitude(d), Magnitude(x));
    NearOne(x);
    if Magnitude(x) < 1.0 {
      TimesLess(Magnitude(d), Magnitude(x), 1.0);
      TimesOne(Magnitude(d));
    }
    if Magnitude(x) >= 2.0 {
      TimesLess(Magnitude(d), 2.0, Magnitude(x));
      TimesOne(Magnitude(d));
    }
  }

  lemma ScaledIs(b: Word)
    ensures Magnitude(Scaled(b)) == (HIDDEN + b.frac) as real * (EPSILON / 2.0)
  {
    hide Pow2;
    NearOne(Scaled(b));
  }

  lemma TimesOne(x: real)
    ensures Times(x, 1.0) == x && Times(x, 2.0) == 2.0 * x
  {
  }

  /** Divisors of the largest exponent make the difference wrap, all but four mantissas. */
  lemma TopDivisorsWrap(b: Word, n: nat)
    requires n >= 3 && b.exp == 254 && b.frac >= 4
    ensures var x := Approximation(b, n);
            Times(Magnitude(Rescaled(b, x)), Magnitude(b))
            == Times(Times(Magnitude(Scaled(b)), Magnitude(x)), Pow2(256))
  {
    hide Magnitude, Times, Approximation, Pow2, Rescaled, Scaled;
    ReciprocalRange(b, n);
    RescaledIff(b, Approximation(b, n));
  }

  lemma DivisorFits(b: Word, n: nat)
    requires n >= 3
    ensures DivisorInRange(b) ==> b.exp <= Approximation(b, n).exp + 126
  {
    hide Approximation;
    ReciprocalRange(b, n);
  }

  /** The divider's result from three Newton steps on, where the eight-bit difference does
      not wrap: any quotient that is not reported as zero or infinity is less than one part
      in 2^21 from the exact one. */
  lemma QuotientIsAccurate(a: Word, b: Word, iter: nat)
    requires iter >= 2 && b.exp <= Approximation(b, iter + 1).exp + 126
    ensures var (q, exact) := (Quotient(a, b, iter), Magnitude(a) / Magnitude(b));
            && q.neg == (a.neg != b.neg)
            && (-124 <= a.exp - b.exp <= 126 ==> 1 <= q.exp <= 254)
            && (1 <= q.exp <= 254 ==> -127 <= a.exp - b.exp <= 129)
            && (1 <= q.exp <= 254 ==>
                  (1.0 - 4.0 * EPSILON) * exact < Magnitude(q) < (1.0 + 4.0 * EPSILON) * exact)
  {
    hide Pow2, Mantissa, Ulp, Magnitude, Multiply, Carries, RoundsDown, Approximation, Scaled, Times;
    var x := Approximation(b, iter + 1);
    var (d, r) := (Scaled(b), Rescaled(b, x));
    ErrorAfter(b, iter + 1);
    ReciprocalRange(b, iter + 1);
    UlpsRescaled(b, x);
    RescaledValue(b, x);
    InfinityIff(a, r);
    if 1 <= Quotient(a, b, iter).exp <= 254 {
      ProductRounds(a, r);
      ProductBound(a, r);
      QuotientOnReals(Magnitude(a), Magnitude(b), Magnitude(r), Magnitude(Multiply(a, r)));
    }
  }

  lemma QuotientOnReals(a: real, b: real, r: real, q: real)
    requires 0.0 < a && 0.0 < b && -3.01 * EPSILON < 1.0 - Times(r, b) < 1.01 * EPSILON
    requires (1.0 - EPSILON) * Times(a, r) < q <= Times(a, r)
    ensures (1.0 - 4.0 * EPSILON) * (a / b) < q < (1.0 + 4.0 * EPSILON) * (a / b)
  {
    hide Times;
    Restored(a, b, r);
    TimesLess(a / b, 1.0 - 1.01 * EPSILON, Times(r, b));
    TimesLess(a / b, Times(r, b), 1.0 + 3.01 * EPSILON);
    TimesConstants(a / b);
  }

  lemma Restored(a: real, b: real, r: real)
    requires 0.0 < a && 0.0 < b
    ensures 0.0 < a / b && Times(a, r) == Times(a / b, Times(r, b))
  {
    assert a / b * b == a;
  }

  lemma TimesConstants(x: real)
    ensures Times(x, 1.0 - 1.01 * EPSILON) == x - 1.01 * EPSILON * x
    ensures Times(x, 1.0 + 3.01 * EPSILON) == x + 3.01 * EPSILON * x
  {
  }

  /** The whole run of the divider: with the ITER + 3rd enabled clock the result register
      holds the quotient to within one part in 2^21. */
  lemma DivisionIsAccurate(s: State, iter: nat, enables: seq<bool>, a: Word, b: Word)
    requires s.counter == 0 && Enabled(enables) == iter + 3
    requires iter >= 2 && DivisorInRange(b) && a != ZERO
    ensures var (q, exact) := (Clocked(s, iter, enables, a, b).result, Magnitude(a) / Magnitude(b));
            && q.neg == (a.neg != b.neg)
            && (-124 <= a.exp - b.exp <= 126 ==> 1 <= q.exp <= 254)
            && (1 <= q.exp <= 254 ==>
                  (1.0 - 4.0 * EPSILON) * exact < Magnitude(q) < (1.0 + 4.0 * EPSILON) * exact)
  {
    hide Quotient, Magnitude, Approximation;
    RunTakesExactly(s, iter, enables, a, b);
    DivisorFits(b, iter + 1);
    QuotientIsAccurate(a, b, iter);
  }
}
