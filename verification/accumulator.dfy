/**
 Module `Z`, the clocked multiply-accumulate unit of a neuron
 (FederatedLearningFPGA/neuron.v:21-87).
 */
module MultiplyAccumulate {
  import opened FloatWords
  import opened FloatUnits

  datatype State = State(z: Word, index: nat, result: Word)

  /** The inputs sampled at a positive clock edge. */
  datatype Edge = Edge(reset: bool, enable: bool, input: Word, weight: Word, bias: Word)

  function Tick(s: State, n: nat, e: Edge): State {
    if e.reset then State(ZERO, 0, ZERO)
    else if !e.enable then s
    else if s.index < n then s.(z := Add(s.z, Multiply(e.weight, e.input)), index := s.index + 1)
    else if s.index == n then State(ZERO, 0, Add(s.z, e.bias))
    else s
  }

  class AccumulatorUnit {
    const inputs: nat
    var z: Word
    var index: nat
    var result: Word

    constructor (inputs: nat)
      ensures this.inputs == inputs && z == ZERO && index == 0
    {
      this.inputs := inputs;
      z := ZERO;
      index := 0;
    }

    function Current(): State
      reads this
    {
      State(z, index, result)
    }

    method Clock(e: Edge)
      modifies this
      ensures Current() == Tick(old(Current()), inputs, e)
    {
      hide Add, Multiply;
      if e.reset {
        z := ZERO;
        index := 0;
        result := ZERO;
      } else if e.enable {
        if index < inputs {
          z := Add(z, Multiply(e.weight, e.input));
          index := index + 1;
        } else if index == inputs {
          result := Add(z, e.bias);
          z := ZERO;
          index := 0;
        }
      }
    }
  }

  function Clocked(s: State, n: nat, edges: seq<Edge>): State
    decreases |edges|
  {
    if edges == [] then s else Tick(Clocked(s, n, edges[..|edges| - 1]), n, edges[|edges| - 1])
  }

  /** The edges at which the unit is enabled. */
  function Taken(edges: seq<Edge>): (t: seq<Edge>)
    ensures |t| <= |edges|
    decreases |edges|
  {
    if edges == [] then []
    else Taken(edges[..|edges| - 1]) + if edges[|edges| - 1].enable then [edges[|edges| - 1]] else []
  }

  /** Left fold of the multiplier and the adder over the inputs. */
  function Dot(terms: seq<Edge>): Word
    decreases |terms|
  {
    if terms == [] then ZERO
    else Add(Dot(terms[..|terms| - 1]), Multiply(terms[|terms| - 1].weight, terms[|terms| - 1].input))
  }

  /** A run takes NUM_INPUTS + 1 enabled clocks, however many disabled ones fall between.
      It ends with the fold of the inputs plus the bias, and ready for the next run. */
  lemma {:induction false} RunTakesExactly(s: State, n: nat, edges: seq<Edge>)
    requires s.z == ZERO && s.index == 0 && |Taken(edges)| <= n + 1
    requires forall k :: 0 <= k < |edges| ==> !edges[k].reset
    ensures var (t, taken) := (Clocked(s, n, edges), Taken(edges));
            if |taken| <= n then t == State(Dot(taken), |taken|, s.result)
            else t == State(ZERO, 0, Add(Dot(taken[..n]), taken[n].bias))
    decreases |edges|
  {
    hide Add, Multiply;
    if edges != [] {
      var (init, last) := (edges[..|edges| - 1], edges[|edges| - 1]);
      RunTakesExactly(s, n, init);
      if last.enable {
        var taken := Taken(edges);
        assert taken[..|taken| - 1] == Taken(init) && taken[|taken| - 1] == last;
        assert |Taken(init)| < n ==> Dot(taken) == Add(Dot(Taken(init)), Multiply(last.weight, last.input));
        assert |Taken(init)| == n ==> taken[..n] == Taken(init) && taken[n] == last;
      } else {
        assert Taken(edges) == Taken(init);
      }
    }
  }

  /** A reset edge ends whatever was under way: the run after it is that of a new unit. */
  lemma {:induction false} ResetStartsOver(s: State, n: nat, r: Edge, edges: seq<Edge>)
    requires r.reset && |Taken(edges)| <= n + 1
    requires forall k :: 0 <= k < |edges| ==> !edges[k].reset
    ensures var (t, taken) := (Clocked(Tick(s, n, r), n, edges), Taken(edges));
            if |taken| <= n then t == State(Dot(taken), |taken|, ZERO)
            else t == State(ZERO, 0, Add(Dot(taken[..n]), taken[n].bias))
  {
    RunTakesExactly(Tick(s, n, r), n, edges);
  }

  // ----- the zero accumulator

  lemma PhantomShift(k: nat)
    ensures ShiftRight(HIDDEN, k) == 0 <==> k >= 24
    ensures ShiftRight(HIDDEN, k) == HIDDEN <==> k == 0
  {
    hide Shift;
    var q := ShiftRight(HIDDEN, k);
    ShiftRightBounds(HIDDEN, k);
    ShiftsOfMantissa();
    if k >= 24 {
      ShiftGrows(24, k);
      if q >= 1 {
        GrowsBy(Shift(k), q);
      }
    } else {
      ShiftGrows(k, 23);
    }
  }

  lemma PhantomSum(x: Word)
    ensures SumOf(x, ShiftRight(HIDDEN, x.exp)) == x <==> x.exp >= 24
  {
    PhantomShift(x.exp);
  }

  lemma PhantomDifference(x: Word)
    ensures DifferenceOf(x, ShiftRight(HIDDEN, x.exp)) == x <==> x.exp >= 24 || x.exp == 0
  {
    hide ShiftRight, Shift;
    PhantomShift(x.exp);
    var t := Mantissa(x) - ShiftRight(HIDDEN, x.exp);
    if t >= HIDDEN {
      FractionOf(t);
    } else if x.exp == 0 {
      assert Fraction(t) == t == x.frac;
    } else {
      assert Normalized(t, x.exp) == Normalized(2 * t, x.exp - 1);
      assert DifferenceOf(x, ShiftRight(HIDDEN, x.exp)).exp < x.exp;
    }
  }

  /** The hidden bit of the zero word is shifted out of the first sum, so that zero is
      neutral, if and only if the other operand's exponent is 24 or more (or the operand
      is negative with exponent 0). */
  lemma ZeroIsNeutralIff(x: Word)
    ensures Add(ZERO, x) == x <==> x.exp >= 24 || (x.neg && x.exp == 0)
    ensures Add(x, ZERO) == x <==> x.exp >= 24 || (x.neg && x.exp == 0 && x.frac > 0)
  {
    hide Magnitude, SumOf, DifferenceOf, ShiftRight;
    PhantomSum(x);
    PhantomDifference(x);
    assert Larger(ZERO, x) == x && Smaller(ZERO, x) == ZERO;
    LargerIsLarger(ZERO, x);
    AlignedFits(x, ZERO);
    assert Add(ZERO, x) == if x.neg then DifferenceOf(x, ShiftRight(HIDDEN, x.exp))
                           else SumOf(x, ShiftRight(HIDDEN, x.exp));
    if x.exp > 0 || x.frac > 0 {
      assert Larger(x, ZERO) == x && Smaller(x, ZERO) == ZERO;
      assert Add(x, ZERO) == Add(ZERO, x);
    } else {
      assert Larger(x, ZERO) == ZERO && Smaller(x, ZERO) == x;
      BothZero(x);
    }
  }

  lemma BothZero(x: Word)
    requires x.exp == 0 && x.frac == 0
    ensures Add(x, ZERO) == if x.neg then ZERO else Fields(false, 1, 0)
  {
    hide Magnitude, Pow2;
    assert ShiftRight(HIDDEN, 0) == HIDDEN;
  }

  // ----- the error of a dot product

  /** (1 - 2^-23)^n */
  function Lost(n: nat): (r: real)
    ensures 0.0 < r <= 1.0
  {
    if n == 0 then 1.0 else Times(Lost(n - 1), 1.0 - EPSILON)
  }

  /** The sum of the exact products. */
  function ExactDot(terms: seq<Edge>): real
    decreases |terms|
  {
    if terms == [] then 0.0
    else
      var last := terms[|terms| - 1];
      ExactDot(terms[..|terms| - 1]) + Times(Magnitude(last.weight), Magnitude(last.input))
  }

  /** A product that is positive and whose exponent clears the hidden bit of zero. */
  predicate InRange(e: Edge) {
    e.weight.neg == e.input.neg && 24 <= ProductExponent(e.weight, e.input) <= 254
  }

  predicate AllInRange(terms: seq<Edge>) {
    forall k :: 0 <= k < |terms| ==> InRange(terms[k])
  }

  /** The word zero as a bias adds nothing. */
  function BiasValue(b: Word): real {
    if b == ZERO then 0.0 else Magnitude(b)
  }

  lemma BelowOverflow(w: Word, x: real)
    requires Magnitude(w) <= x < Pow2(128)
    ensures w.exp <= 254
  {
    hide Pow2, Shift;
    Pow2Adds(105, 23);
    ShiftsOfMantissa();
    MagnitudeOrder(w, Fields(false, 255, 0));
  }

  lemma {:induction false} LostGrows(m: nat, n: nat)
    requires m <= n
    ensures Lost(n) <= Lost(m)
    decreases n - m
  {
    hide Times;
    if m < n {
      LostGrows(m, n - 1);
      TimesConstant(Lost(n - 1));
    }
  }

  lemma TimesConstant(x: real)
    ensures Times(x, 1.0 - EPSILON) == x - EPSILON * x
  {
  }

  lemma {:induction false} ExactIsNotNegative(terms: seq<Edge>)
    ensures 0.0 <= ExactDot(terms)
    ensures terms != [] ==> 0.0 <= ExactDot(terms[..|terms| - 1]) <= ExactDot(terms)
    decreases |terms|
  {
    hide Times, Magnitude;
    if terms != [] {
      var last := terms[|terms| - 1];
      ExactIsNotNegative(terms[..|terms| - 1]);
      TimesNotNegative(Magnitude(last.weight), Magnitude(last.input));
    }
  }

  /** One accumulation: what was lost so far and what this product and this sum lose. */
  lemma LossAdds(n: nat, z: real, e: real, m: real, t: real, r: real)
    requires n >= 1 && 0.0 <= e && 0.0 <= t
    requires Times(e, Lost(n)) <= z <= e && (1.0 - EPSILON) * t <= m <= t
    requires (1.0 - EPSILON) * (z + m) <= r <= z + m
    ensures Times(e + t, Lost(n + 1)) <= r <= e + t
  {
    var (l, k) := (Lost(n), 1.0 - EPSILON);
    LostGrows(1, n);
    assert Lost(1) == k by { assert Lost(0) == 1.0; }
    hide Times;
    TimesLess2(t, l, k);
    Together(e, t, l, r);
  }

  lemma TimesLess2(k: real, x: real, y: real)
    requires k >= 0.0 && x <= y
    ensures Times(k, x) <= Times(k, y)
  {
  }

  lemma Together(e: real, t: real, l: real, r: real)
    ensures Times(e + t, Times(l, 1.0 - EPSILON)) == (1.0 - EPSILON) * (Times(e, l) + Times(t, l))
    ensures Times(t, 1.0 - EPSILON) == (1.0 - EPSILON) * t
  {
  }

  lemma ProductInRange(e: Edge)
    requires InRange(e)
    ensures var (m, t) := (Multiply(e.weight, e.input), Times(Magnitude(e.weight), Magnitude(e.input)));
            && !m.neg && 24 <= m.exp <= 254 && 0.0 < t
            && (1.0 - EPSILON) * t <= Magnitude(m) <= t
  {
    hide Magnitude, Multiply, Carries, RoundsDown;
    InfinityIff(e.weight, e.input);
    ProductRounds(e.weight, e.input);
    ProductBound(e.weight, e.input);
  }

  /** Adding a positive word never makes the accumulator smaller, and loses at most one
      part in 2^23. */
  lemma PositiveSum(a: Word, b: Word, limit: real)
    requires !a.neg && !b.neg && a.exp <= 254 && b.exp <= 254
    requires Magnitude(a) + Magnitude(b) <= limit < Pow2(128)
    ensures var (r, exact) := (Add(a, b), Magnitude(a) + Magnitude(b));
            && !r.neg && a.exp <= r.exp <= 254 && (1.0 - EPSILON) * exact <= Magnitude(r) <= exact
  {
    hide Magnitude, Add, Pow2;
    SameSignRounds(a, b);
    MagnitudeOrder(Add(a, b), a);
    BelowOverflow(Add(a, b), limit);
  }

  /** For positive terms in range, the accumulator is at most the exact dot product and
      lacks at most one rounding per term. */
  lemma {:induction false} DotBound(terms: seq<Edge>)
    requires terms != [] && AllInRange(terms) && ExactDot(terms) < Pow2(128)
    ensures var d := Dot(terms);
            && !d.neg && 24 <= d.exp <= 254
            && Times(ExactDot(terms), Lost(|terms|)) <= Magnitude(d) <= ExactDot(terms)
    decreases |terms|
  {
    hide Magnitude, Add, Multiply, Pow2, Times, InRange, Lost;
    var (init, last) := (terms[..|terms| - 1], terms[|terms| - 1]);
    var m := Multiply(last.weight, last.input);
    var t := Times(Magnitude(last.weight), Magnitude(last.input));
    ProductInRange(last);
    ExactIsNotNegative(terms);
    if init == [] {
      ZeroIsNeutralIff(m);
      OneTerm(t);
    } else {
      DotBound(init);
      PositiveSum(Dot(init), m, ExactDot(terms));
      LossAdds(|init|, Magnitude(Dot(init)), ExactDot(init), Magnitude(m), t, Magnitude(Dot(terms)));
    }
  }

  lemma OneTerm(t: real)
    ensures Times(0.0 + t, Lost(1)) == (1.0 - EPSILON) * t
  {
    assert Lost(0) == 1.0;
    assert Lost(1) == 1.0 - EPSILON;
  }

  /** A positive word as a bias, or the zero word, which must find an accumulator to vanish in. */
  predicate BiasInRange(b: Word, n: nat) {
    !b.neg && b.exp <= 254 && if n == 0 then b.exp >= 24 else b.exp >= 1 || b == ZERO
  }

  lemma BiasAdded(z: Word, e: real, n: nat, b: Word)
    requires n >= 1 && !z.neg && 24 <= z.exp <= 254 && 0.0 <= e && BiasInRange(b, n)
    requires Times(e, Lost(n)) <= Magnitude(z) <= e && e + BiasValue(b) < Pow2(128)
    ensures !Add(z, b).neg
    ensures Times(e + BiasValue(b), Lost(n + 1)) <= Magnitude(Add(z, b)) <= e + BiasValue(b)
  {
    hide Magnitude, Add, Pow2, Times, Lost;
    var k := Magnitude(b);
    if b == ZERO {
      ZeroIsNeutralIff(z);
      LostGrows(n, n + 1);
      TimesLess2(e, Lost(n + 1), Lost(n));
    } else {
      PositiveSum(z, b, e + k);
      LossAdds(n, Magnitude(z), e, k, k, Magnitude(Add(z, b)));
    }
  }

  /** A whole run over positive terms: the result is at most the exact weighted sum and
      not below it by more than NUM_INPUTS + 1 roundings of one part in 2^23. */
  lemma WeightedSumBound(s: State, n: nat, edges: seq<Edge>)
    requires s.z == ZERO && s.index == 0 && |Taken(edges)| == n + 1
    requires forall k :: 0 <= k < |edges| ==> !edges[k].reset
    requires AllInRange(Taken(edges)[..n]) && BiasInRange(Taken(edges)[n].bias, n)
    requires ExactDot(Taken(edges)[..n]) + BiasValue(Taken(edges)[n].bias) < Pow2(128)
    ensures var (r, exact) := (Clocked(s, n, edges).result,
                               ExactDot(Taken(edges)[..n]) + BiasValue(Taken(edges)[n].bias));
            !r.neg && Times(exact, Lost(n + 1)) <= Magnitude(r) <= exact
  {
    hide Magnitude, Add, Pow2, Times, Lost, AllInRange, Taken, Clocked;
    RunTakesExactly(s, n, edges);
    var (terms, b) := (Taken(edges)[..n], Taken(edges)[n].bias);
    ExactIsNotNegative(terms);
    BiasIsNotNegative(b);
    if n == 0 {
      assert terms == [];
      ZeroIsNeutralIff(b);
      LostGrows(0, 1);
      NoTerms(Magnitude(b));
    } else {
      DotBound(terms);
      BiasAdded(Dot(terms), ExactDot(terms), n, b);
    }
  }

  lemma BiasIsNotNegative(b: Word)
    ensures 0.0 <= BiasValue(b)
    ensures b != ZERO ==> BiasValue(b) == Magnitude(b)
  {
  }

  lemma NoTerms(x: real)
    requires 0.0 <= x
    ensures Times(0.0 + x, Lost(1)) <= x
  {
    OneTerm(x);
  }

  // ----- terms of any signs

  function Abs(x: real): real {
    if x < 0.0 then -x else x
  }

  /** The exact weighted sum, with signs. */
  function SignedDot(terms: seq<Edge>): real
    decreases |terms|
  {
    if terms == [] then 0.0
    else
      SignedDot(terms[..|terms| - 1]) + Times(Value(terms[|terms| - 1].weight), Value(terms[|terms| - 1].input))
  }

  function ProductOf(e: Edge): Word {
    Multiply(e.weight, e.input)
  }

  /** Product exponents in range, and no product that is the exact negative of the
      accumulator it is added to. */
  predicate Steady(terms: seq<Edge>)
    decreases |terms|
  {
    terms != [] ==>
      var (init, last) := (terms[..|terms| - 1], terms[|terms| - 1]);
      && 24 <= ProductExponent(last.weight, last.input) <= 254
      && Steady(init)
      && (init != [] ==> ProductOf(last) != Negated(Dot(init)))
  }

  /** How many units of 2^-23 of the sum of absolute terms may be lost: two more for every
      term, and the loss of what was lost. */
  function Gain(n: nat): (g: real)
    ensures 0.0 <= g
  {
    if n == 0 then 0.0 else Gain(n - 1) + EPSILON * Gain(n - 1) + 2.0 * EPSILON
  }

  /** Any sum but that of exact negatives, one operand being large enough. */
  lemma SignedSum(a: Word, b: Word)
    requires a.exp <= 254 && b.exp <= 254 && b != Negated(a) && (a.exp >= 24 || b.exp >= 24)
    ensures Abs(Value(Add(a, b)) - (Value(a) + Value(b))) <= EPSILON * (Magnitude(a) + Magnitude(b))
  {
    hide Magnitude, Ulp, Add, Aligned, Mantissa;
    var (big, small) := (Larger(a, b), Smaller(a, b));
    LargerIsLarger(a, b);
    if a.neg == b.neg {
      SameSignBound(a, b);
      UlpIsSmall(Add(a, b));
    } else {
      assert Absolute(a) != Absolute(b);
      AlignedFits(big, small);
      LargeExponentNormalizes(big, small);
      OppositeSignsBound(a, b);
      UlpIsSmall(big);
    }
  }

  lemma SignedProduct(e: Edge)
    requires 24 <= ProductExponent(e.weight, e.input) <= 254
    ensures var (m, t, size) := (ProductOf(e), Times(Value(e.weight), Value(e.input)),
                                 Times(Magnitude(e.weight), Magnitude(e.input)));
            && 24 <= m.exp <= 254 && Magnitude(m) <= size && Abs(t) == size
            && Abs(Value(m) - t) <= EPSILON * size
  {
    hide Magnitude, Multiply, Carries, RoundsDown, Times;
    InfinityIff(e.weight, e.input);
    ProductRounds(e.weight, e.input);
    ProductBound(e.weight, e.input);
    SignsMultiply(e.weight, e.input);
  }

  lemma SignsMultiply(a: Word, b: Word)
    ensures var size := Times(Magnitude(a), Magnitude(b));
            0.0 <= size && Times(Value(a), Value(b)) == if a.neg == b.neg then size else -size
  {
    hide Magnitude;
  }

  /** One accumulation: `z` approximates `e`, `m` approximates `t`. */
  lemma ErrorAdds(z: real, e: real, all: real, g: real, m: real, t: real, size: real, r: real)
    requires 0.0 <= all && 0.0 <= size && 0.0 <= g && Abs(e) <= all
    requires Abs(z - e) <= Times(all, g) && Abs(m) <= size && Abs(m - t) <= EPSILON * size
    requires Abs(r - (z + m)) <= EPSILON * (Abs(z) + Abs(m))
    ensures Abs(r - (e + t)) <= Times(all + size, g + EPSILON * g + 2.0 * EPSILON)
  {
    hide Times;
    TimesExpanded(all, size, g);
  }

  lemma TimesExpanded(x: real, y: real, g: real)
    requires 0.0 <= y && 0.0 <= g
    ensures Times(x + y, g + EPSILON * g + 2.0 * EPSILON)
            >= Times(x, g) + EPSILON * Times(x, g) + 2.0 * EPSILON * x + 2.0 * EPSILON * y
  {
    assert Times(y, g) >= 0.0;
    assert Times(x + y, g + EPSILON * g + 2.0 * EPSILON)
        == (1.0 + EPSILON) * Times(x, g) + (1.0 + EPSILON) * Times(y, g) + 2.0 * EPSILON * x + 2.0 * EPSILON * y;
  }

  lemma {:induction false} SignedIsSmaller(terms: seq<Edge>)
    ensures Abs(SignedDot(terms)) <= ExactDot(terms)
    decreases |terms|
  {
    hide Times, Magnitude, Value;
    if terms != [] {
      SignedIsSmaller(terms[..|terms| - 1]);
      SignsMultiply(terms[|terms| - 1].weight, terms[|terms| - 1].input);
    }
  }

  /** Room for the sum of absolute terms and all its roundings. */
  predicate Bounded(size: real, n: nat) {
    size + Times(size, Gain(n)) < Pow2(128)
  }

  lemma BoundedBefore(size: real, more: real, n: nat)
    requires 0.0 <= size && 0.0 <= more && Bounded(size + more, n + 1)
    ensures Bounded(size, n)
  {
    hide Pow2;
    assert Gain(n) <= Gain(n + 1);
    assert Times(size, Gain(n)) <= Times(size + more, Gain(n + 1));
  }

  /** For terms of any signs the accumulator differs from the exact dot product by at most
      the gain times the sum of the absolute terms. */
  lemma {:induction false} SignedDotBound(terms: seq<Edge>)
    requires terms != [] && Steady(terms) && Bounded(ExactDot(terms), |terms|)
    ensures Dot(terms).exp <= 254
    ensures Abs(Value(Dot(terms)) - SignedDot(terms)) <= Times(ExactDot(terms), Gain(|terms|))
    decreases |terms|
  {
    hide Magnitude, Value, Add, ProductOf, Pow2, Times, Bounded, Gain;
    var (init, last) := (terms[..|terms| - 1], terms[|terms| - 1]);
    var m := ProductOf(last);
    SignedProduct(last);
    ExactIsNotNegative(terms);
    DotOf(terms);
    if init == [] {
      ZeroIsNeutralIff(m);
      FirstTerm(ExactDot(terms));
    } else {
      BoundedBefore(ExactDot(init), ExactDot(terms) - ExactDot(init), |init|);
      SignedDotBound(init);
      SignedSum(Dot(init), m);
      SignedIsSmaller(init);
      ValueSize(Dot(init));
      ValueSize(m);
      GainNext(|init|);
      ErrorAdds(Value(Dot(init)), SignedDot(init), ExactDot(init), Gain(|init|), Value(m),
                Times(Value(last.weight), Value(last.input)), Times(Magnitude(last.weight), Magnitude(last.input)),
                Value(Dot(terms)));
    }
    SignedIsSmaller(terms);
    SmallExponent(Dot(terms), SignedDot(terms), ExactDot(terms), |terms|);
  }

  lemma DotOf(terms: seq<Edge>)
    requires terms != []
    ensures Dot(terms) == Add(Dot(terms[..|terms| - 1]), ProductOf(terms[|terms| - 1]))
  {
  }

  lemma ValueSize(w: Word)
    ensures Abs(Value(w)) == Magnitude(w)
  {
  }

  lemma GainNext(n: nat)
    ensures Gain(n + 1) == Gain(n) + EPSILON * Gain(n) + 2.0 * EPSILON
    ensures Gain(0) == 0.0
  {
  }

  lemma FirstTerm(size: real)
    requires 0.0 <= size
    ensures EPSILON * size <= Times(size, Gain(1))
  {
    assert Gain(0) == 0.0;
    assert Gain(1) == 2.0 * EPSILON;
  }

  lemma SmallExponent(w: Word, e: real, size: real, n: nat)
    requires Abs(e) <= size && Abs(Value(w) - e) <= Times(size, Gain(n)) && Bounded(size, n)
    ensures w.exp <= 254
  {
    hide Magnitude, Times, Pow2;
    ValueSize(w);
    BelowOverflow(w, size + Times(size, Gain(n)));
  }

  /** A whole run over terms and a bias of any signs: the result differs from the exact
      weighted sum by at most the gain times the sum of absolute values, as long as no
      step adds exact negatives. */
  lemma SignedSumBound(s: State, n: nat, edges: seq<Edge>)
    requires s.z == ZERO && s.index == 0 && n >= 1 && |Taken(edges)| == n + 1
    requires forall k :: 0 <= k < |edges| ==> !edges[k].reset
    requires var (terms, b) := (Taken(edges)[..n], Taken(edges)[n].bias);
             && Steady(terms) && b.exp <= 254 && b != Negated(Dot(terms))
             && (Dot(terms).exp >= 24 || b.exp >= 24)
             && Bounded(ExactDot(terms) + Magnitude(b), n + 1)
    ensures var (terms, b) := (Taken(edges)[..n], Taken(edges)[n].bias);
            Abs(Value(Clocked(s, n, edges).result) - (SignedDot(terms) + Value(b)))
            <= Times(ExactDot(terms) + Magnitude(b), Gain(n + 1))
  {
    hide Magnitude, Value, Add, Pow2, Times, Bounded, Gain, Taken, Clocked;
    RunTakesExactly(s, n, edges);
    var (terms, b) := (Taken(edges)[..n], Taken(edges)[n].bias);
    ExactIsNotNegative(terms);
    BoundedBefore(ExactDot(terms), Magnitude(b), n);
    SignedDotBound(terms);
    SignedSum(Dot(terms), b);
    SignedIsSmaller(terms);
    ValueSize(Dot(terms));
    ValueSize(b);
    GainNext(n);
    ErrorAdds(Value(Dot(terms)), SignedDot(terms), ExactDot(terms), Gain(n), Value(b), Value(b), Magnitude(b),
              Value(Add(Dot(terms), b)));
  }
}
