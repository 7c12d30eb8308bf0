/**
 The Newton-Raphson iteration of FederatedLearningFPGA/alu.v:196-250 on real numbers,
 with the roundings of the units that compute it.
 */
module NewtonStep {
  import opened FloatWords

  /** How far `x` is from the reciprocal of `d`, relative to it. */
  function Error(d: real, x: real): real {
    1.0 - Times(d, x)
  }

  lemma StepHigh(s: real, y: real, m: real)
    requires 0.0 < s && (1.0 - EPSILON) * s < m && y < 2.0 - m + 2.0 * EPSILON
    ensures Times(s, y) < 2.0 * s - Times(s, s) + EPSILON * (Times(s, s) + 2.0 * s)
  {
    hide Times;
    var high := (2.0 + 2.0 * EPSILON) + (EPSILON - 1.0) * s;
    TimesLess(s, y, high);
    TimesAffine(s, 2.0 + 2.0 * EPSILON, EPSILON - 1.0);
  }

  lemma StepLow(s: real, y: real, m: real)
    requires 0.0 < s && m <= s && 2.0 - m <= y
    ensures 2.0 * s - Times(s, s) <= Times(s, y)
  {
    hide Times;
    TimesLess(s, 2.0 - s, y);
    TimesAffine(s, 2.0, -1.0);
  }

  lemma StepRounds(d: real, z: real, p: real)
    requires 0.0 < d && (1.0 - EPSILON) * p < z <= p
    ensures (1.0 - EPSILON) * Times(d, p) < Times(d, z) <= Times(d, p)
  {
    TimesLess(d, z, p);
    TimesLess(d, (1.0 - EPSILON) * p, z);
    assert Times(d, (1.0 - EPSILON) * p) == (1.0 - EPSILON) * Times(d, p);
  }

  lemma Squared(e: real)
    ensures Times(1.0 - e, 1.0 - e) == 1.0 - 2.0 * e + Times(e, e)
  {
  }

  /** One step on exact reals with the roundings of the three units: `m` is the truncated
      product, `y` the correction and `z` the new approximation. The error is squared, up
      to three units of 2^-23 below and one above. */
  lemma StepOnReals(d: real, x: real, m: real, y: real, z: real)
    requires 0.0 < d && 0.0 < Times(d, x)
    requires (1.0 - EPSILON) * Times(d, x) < m <= Times(d, x)
    requires 2.0 - m <= y < 2.0 - m + 2.0 * EPSILON
    requires (1.0 - EPSILON) * Times(x, y) < z <= Times(x, y)
    ensures var (e, ee) := (Error(d, x), Times(Error(d, x), Error(d, x)));
            ee - EPSILON * (3.0 - 4.0 * e + ee) < Error(d, z) < ee + EPSILON * (1.0 - ee)
  {
    hide Times;
    var s := Times(d, x);
    TimesRegroup(d, x, y);
    StepHigh(s, y, m);
    StepLow(s, y, m);
    StepRounds(d, z, Times(x, y));
    Squared(1.0 - s);
  }

  predicate Within(n: nat, e: real) {
    if n == 0 then -0.06 <= e <= 0.06
    else if n == 1 then -0.001 < e < 0.0037
    else if n == 2 then -0.000001 < e < 0.000014
    else -3.01 * EPSILON < e < 1.01 * EPSILON
  }

  lemma SquareAtMost(e: real, b: real)
    requires -b <= e <= b
    ensures 0.0 <= Times(e, e) <= b * b
  {
  }

  lemma Contraction(n: nat, e: real, f: real)
    requires Within(n, e)
    requires var ee := Times(e, e); ee - EPSILON * (3.0 - 4.0 * e + ee) < f < ee + EPSILON * (1.0 - ee)
    ensures Within(n + 1, f)
  {
    hide Times;
    SquareAtMost(e, if n == 0 then 0.06 else if n == 1 then 0.0037 else 0.000014);
  }

  lemma Expanded(d: real)
    ensures Times(d - 0.5, 1.0 - d) == 1.5 * d - Times(d, d) - 0.5
    ensures Times(1.0 - d, 1.0 + d) == 1.0 - Times(d, d)
    ensures Times(d - 0.75, d - 0.75) == Times(d, d) - 1.5 * d + 0.5625
    ensures Times(d - 0.75, d - 0.75) >= 0.0
  {
  }

  lemma ChordError(d: real)
    requires 0.5 <= d <= 1.0
    ensures -0.0589 <= 1.0 - 23685482.0 * EPSILON * d + 15790321.0 * EPSILON * Times(d, d) <= 0.0589
    ensures 0.0 <= Times(d, d) <= 1.0
  {
    hide Times;
    Expanded(d);
    TimesNotNegative(d - 0.5, 1.0 - d);
    TimesNotNegative(1.0 - d, 1.0 + d);
    TimesNotNegative(d, d);
  }

  lemma GuessOnReals(d: real, m: real, x: real)
    requires 0.5 <= d < 1.0
    requires (1.0 - EPSILON) * (d * (15790321.0 * EPSILON)) < m <= d * (15790321.0 * EPSILON)
    requires 23685482.0 * EPSILON - m <= x < 23685482.0 * EPSILON - m + 2.0 * EPSILON
    ensures -0.06 <= Error(d, x) <= 0.06
  {
    hide Times;
    ChordError(d);
    GuessLow(d, x);
    GuessHigh(d, x);
  }

  lemma GuessLow(d: real, x: real)
    requires 0.5 <= d < 1.0 && 23685482.0 * EPSILON - 15790321.0 * EPSILON * d <= x
    ensures 23685482.0 * EPSILON * d - 15790321.0 * EPSILON * Times(d, d) <= Times(d, x)
  {
    hide Times;
    var low := 23685482.0 * EPSILON - 15790321.0 * EPSILON * d;
    TimesLess(d, low, x);
    TimesAffine(d, 23685482.0 * EPSILON, -15790321.0 * EPSILON);
  }

  lemma GuessHigh(d: real, x: real)
    requires 0.5 <= d < 1.0 && x <= 23685484.0 * EPSILON - (1.0 - EPSILON) * 15790321.0 * EPSILON * d
    ensures Times(d, x) <= 23685484.0 * EPSILON * d - (1.0 - EPSILON) * 15790321.0 * EPSILON * Times(d, d)
  {
    hide Times;
    var high := 23685484.0 * EPSILON - (1.0 - EPSILON) * 15790321.0 * EPSILON * d;
    TimesLess(d, x, high);
    TimesAffine(d, 23685484.0 * EPSILON, (EPSILON - 1.0) * 15790321.0 * EPSILON);
  }
}
