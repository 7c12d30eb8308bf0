/**
 What feed-forward and back-propagation compute, on values
 (FederatedLearningESP32/components/federatedlearning/federatedlearning.c:73-135,
 234-332, 430-595). Layers are sequences of units; `exp` is any positive function.
 */
module NeuralMath {

  datatype Unit = Unit(a: real, bias: real, weights: seq<real>)
  type Units = seq<Unit>
  type Net = seq<Units>
  type Matrix = seq<seq<real>>

  const PERCEPTRON := 1
  const RELU := 2
  const SIGMOID := 3
  const SOFTMAX := 4

  ghost predicate Positive(exp: real -> real) {
    forall x :: exp(x) > 0.0
  }

  /** Every unit has one weight for each unit of the layer before. */
  predicate FullyConnected(net: Net) {
    forall l :: 1 <= l < |net| ==> ConnectedTo(net[l], |net[l - 1]|)
  }

  predicate ConnectedTo(us: Units, n: nat) {
    forall i :: 0 <= i < |us| ==> |us[i].weights| == n
  }

  function Activations(us: Units): seq<real> {
    seq(|us|, i requires 0 <= i < |us| => us[i].a)
  }

  function Dot(x: seq<real>, y: seq<real>): real
    requires |x| == |y|
  {
    if x == [] then 0.0 else Dot(x[..|x| - 1], y[..|x| - 1]) + x[|x| - 1] * y[|x| - 1]
  }

  // ----- feed-forward

  function Weighted(u: Unit, prev: seq<real>): real
    requires |u.weights| == |prev|
  {
    u.bias + Dot(u.weights, prev)
  }

  function SoftmaxSum(exp: real -> real, us: Units, prev: seq<real>): (s: real)
    requires ConnectedTo(us, |prev|)
  {
    if us == [] then 0.0
    else SoftmaxSum(exp, us[..|us| - 1], prev) + exp(Weighted(us[|us| - 1], prev))
  }

  lemma {:induction false} SoftmaxSumPositive(exp: real -> real, us: Units, prev: seq<real>)
    requires Positive(exp) && ConnectedTo(us, |prev|)
    ensures us != [] ==> SoftmaxSum(exp, us, prev) > 0.0
    ensures SoftmaxSum(exp, us, prev) >= 0.0
  {
    if us != [] {
      SoftmaxSumPositive(exp, us[..|us| - 1], prev);
    }
  }

  /** `ActivationFunctionCalculaton`: softmax walks the last layer again. */
  function Activate(exp: real -> real, net: Net, z: real, kind: int): real
    requires Positive(exp) && |net| >= 2 && net[|net| - 1] != [] && FullyConnected(net)
  {
    if kind == PERCEPTRON then if z > 0.0 then 1.0 else 0.0
    else if kind == RELU then if z > 0.0 then z else 0.0
    else if kind == SIGMOID then 1.0 / (1.0 + exp(-z))
    else if kind == SOFTMAX then
      var (last, prev) := (net[|net| - 1], Activations(net[|net| - 2]));
      SoftmaxSumPositive(exp, last, prev);
      exp(z) / SoftmaxSum(exp, last, prev)
    else 0.0
  }

  /** Every activation but the one of unit `i` in layer `l` stays. */
  function WithActivation(net: Net, l: nat, i: nat, a: real): (r: Net)
    requires l < |net| && i < |net[l]|
    ensures |r| == |net| && forall m :: 0 <= m < |net| ==> |r[m]| == |net[m]|
  {
    net[l := net[l][i := net[l][i].(a := a)]]
  }

  predicate Computable(net: Net, kinds: seq<int>) {
    |net| >= 2 && |kinds| == |net| && net[|net| - 1] != [] && FullyConnected(net)
  }

  predicate SameParameters(a: Net, b: Net) {
    |a| == |b| && forall l :: 0 <= l < |a| ==> SameUnits(a[l], b[l])
  }

  predicate SameUnits(a: Units, b: Units) {
    |a| == |b| && forall i :: 0 <= i < |a| ==> a[i].bias == b[i].bias && a[i].weights == b[i].weights
  }

  lemma SameIsComputable(a: Net, b: Net, kinds: seq<int>)
    requires SameParameters(a, b) && Computable(a, kinds)
    ensures Computable(b, kinds)
  {
    assert SameUnits(a[|a| - 1], b[|a| - 1]);
    forall l | 1 <= l < |b| ensures ConnectedTo(b[l], |b[l - 1]|) {
      assert ConnectedTo(a[l], |a[l - 1]|) && SameUnits(a[l], b[l]) && SameUnits(a[l - 1], b[l - 1]);
    }
  }

  /** The network once all units before unit `i` of layer `l` have been computed. */
  function ForwardTo(exp: real -> real, net: Net, kinds: seq<int>, l: nat, i: nat): (r: Net)
    requires Positive(exp) && Computable(net, kinds) && 1 <= l < |net| && i <= |net[l]|
    ensures SameParameters(net, r) && Computable(r, kinds)
    decreases l, i
  {
    if i > 0 then
      var before := ForwardTo(exp, net, kinds, l, i - 1);
      assert SameUnits(net[l], before[l]) && SameUnits(net[l - 1], before[l - 1]);
      assert ConnectedTo(net[l], |net[l - 1]|);
      var z := Weighted(before[l][i - 1], Activations(before[l - 1]));
      var r := WithActivation(before, l, i - 1, Activate(exp, before, z, kinds[l]));
      assert forall m :: 0 <= m < |net| ==> SameUnits(net[m], before[m]);
      assert forall m :: 0 <= m < |net| ==> SameUnits(net[m], r[m]);
      SameIsComputable(net, r, kinds);
      r
    else if l > 1 then ForwardTo(exp, net, kinds, l - 1, |net[l - 1]|)
    else
      assert forall m :: 0 <= m < |net| ==> SameUnits(net[m], net[m]);
      net
  }

  function Forward(exp: real -> real, net: Net, kinds: seq<int>): Net
    requires Positive(exp) && Computable(net, kinds)
  {
    ForwardTo(exp, net, kinds, |net| - 1, |net[|net| - 1]|)
  }

  /** A unit holds what its activation function makes of the layer before. */
  ghost predicate Consistent(exp: real -> real, net: Net, kinds: seq<int>, l: nat, i: nat)
    requires Positive(exp) && Computable(net, kinds) && 1 <= l < |net| && i < |net[l]|
  {
    assert ConnectedTo(net[l], |net[l - 1]|);
    net[l][i].a == Activate(exp, net, Weighted(net[l][i], Activations(net[l - 1])), kinds[l])
  }

  lemma {:induction false} SoftmaxSumOfSame(exp: real -> real, a: Units, b: Units, prev: seq<real>)
    requires ConnectedTo(a, |prev|) && SameUnits(a, b)
    ensures ConnectedTo(b, |prev|) && SoftmaxSum(exp, a, prev) == SoftmaxSum(exp, b, prev)
  {
    if a != [] {
      SoftmaxSumOfSame(exp, a[..|a| - 1], b[..|b| - 1], prev);
    }
  }

  /** Computing one unit does not disturb a unit computed before. */
  lemma StaysConsistent(exp: real -> real, net: Net, kinds: seq<int>, l: nat, i: nat, a: real, m: nat, j: nat)
    requires Positive(exp) && Computable(net, kinds) && 1 <= m <= l < |net| && i < |net[l]| && j < |net[m]|
    requires (m, j) != (l, i) && Settled(kinds, m)
    requires Consistent(exp, net, kinds, m, j) && Computable(WithActivation(net, l, i, a), kinds)
    ensures Consistent(exp, WithActivation(net, l, i, a), kinds, m, j)
  {
    hide Weighted, SoftmaxSum;
    var r := WithActivation(net, l, i, a);
    assert r[m - 1] == net[m - 1];
    assert r[m][j] == net[m][j];
    assert ConnectedTo(net[m], |net[m - 1]|);
    if kinds[m] == SOFTMAX {
      SoftmaxSumOfSame(exp, net[m], r[m], Activations(net[m - 1]));
    }
  }

  lemma BecomesConsistent(exp: real -> real, net: Net, kinds: seq<int>, l: nat, i: nat)
    requires Positive(exp) && Computable(net, kinds) && 1 <= l < |net| && i < |net[l]|
    requires ConnectedTo(net[l], |net[l - 1]|) && Settled(kinds, l)
    requires var a := Activate(exp, net, Weighted(net[l][i], Activations(net[l - 1])), kinds[l]);
             Computable(WithActivation(net, l, i, a), kinds)
    ensures var a := Activate(exp, net, Weighted(net[l][i], Activations(net[l - 1])), kinds[l]);
            Consistent(exp, WithActivation(net, l, i, a), kinds, l, i)
  {
    var a := Activate(exp, net, Weighted(net[l][i], Activations(net[l - 1])), kinds[l]);
    var r := WithActivation(net, l, i, a);
    assert r[l - 1] == net[l - 1];
    if kinds[l] == SOFTMAX {
      SoftmaxSumOfSame(exp, net[l], r[l], Activations(net[l - 1]));
    }
  }

  /** Softmax divides by a sum over the last layer, so it means something only there. */
  predicate Settled(kinds: seq<int>, m: nat)
    requires m < |kinds|
  {
    kinds[m] != SOFTMAX || m == |kinds| - 1
  }

  /** One more unit. */
  lemma ForwardStep(exp: real -> real, net: Net, kinds: seq<int>, l: nat, i: nat)
    requires Positive(exp) && Computable(net, kinds) && 1 <= l < |net| && i < |net[l]|
    ensures var before := ForwardTo(exp, net, kinds, l, i);
            && |before| == |net| && i < |before[l]| && ConnectedTo(before[l], |before[l - 1]|)
            && ForwardTo(exp, net, kinds, l, i + 1)
               == WithActivation(before, l, i,
                                 Activate(exp, before, Weighted(before[l][i], Activations(before[l - 1])), kinds[l]))
  {
    hide Activate, WithActivation;
    var before := ForwardTo(exp, net, kinds, l, i);
    assert SameUnits(net[l], before[l]) && SameUnits(net[l - 1], before[l - 1]);
    assert ConnectedTo(before[l], |before[l - 1]|);
  }

  /** All units before unit `i` of layer `l` are consistent. */
  ghost predicate ConsistentTo(exp: real -> real, net: Net, kinds: seq<int>, l: nat, i: nat)
    requires Positive(exp) && Computable(net, kinds) && 1 <= l < |net|
  {
    forall m, j :: 1 <= m <= l && 0 <= j < |net[m]| && (m < l || j < i) && Settled(kinds, m) ==>
      Consistent(exp, net, kinds, m, j)
  }

  lemma ConsistentNext(exp: real -> real, net: Net, kinds: seq<int>, l: nat, i: nat, a: real)
    requires Positive(exp) && Computable(net, kinds) && 1 <= l < |net| && i < |net[l]|
    requires ConnectedTo(net[l], |net[l - 1]|) && ConsistentTo(exp, net, kinds, l, i)
    requires a == Activate(exp, net, Weighted(net[l][i], Activations(net[l - 1])), kinds[l])
    requires Computable(WithActivation(net, l, i, a), kinds)
    ensures ConsistentTo(exp, WithActivation(net, l, i, a), kinds, l, i + 1)
  {
    hide Consistent, FullyConnected, Activate, Weighted, Activations;
    var r := WithActivation(net, l, i, a);
    forall m, j | 1 <= m <= l && 0 <= j < |r[m]| && (m < l || j < i + 1) && Settled(kinds, m)
      ensures Consistent(exp, r, kinds, m, j)
    {
      if (m, j) != (l, i) {
        StaysConsistent(exp, net, kinds, l, i, a, m, j);
      } else {
        BecomesConsistent(exp, net, kinds, l, i);
      }
    }
  }

  lemma {:induction false} ForwardIsConsistent(exp: real -> real, net: Net, kinds: seq<int>, l: nat, i: nat)
    requires Positive(exp) && Computable(net, kinds) && 1 <= l < |net| && i <= |net[l]|
    ensures var r := ForwardTo(exp, net, kinds, l, i);
            r[0] == net[0] && ConsistentTo(exp, r, kinds, l, i)
    decreases l, i, 0
  {
    hide Consistent, Activate, FullyConnected;
    if i > 0 {
      ForwardOneMore(exp, net, kinds, l, i - 1);
    } else if l > 1 {
      ForwardIsConsistent(exp, net, kinds, l - 1, |net[l - 1]|);
      assert SameUnits(net[l - 1], ForwardTo(exp, net, kinds, l, 0)[l - 1]);
    }
  }

  lemma {:induction false} ForwardOneMore(exp: real -> real, net: Net, kinds: seq<int>, l: nat, i: nat)
    requires Positive(exp) && Computable(net, kinds) && 1 <= l < |net| && i < |net[l]|
    ensures var r := ForwardTo(exp, net, kinds, l, i + 1);
            r[0] == net[0] && ConsistentTo(exp, r, kinds, l, i + 1)
    decreases l, i, 1
  {
    hide ConsistentTo, Activate, FullyConnected, SameParameters;
    ForwardIsConsistent(exp, net, kinds, l, i);
    ForwardStep(exp, net, kinds, l, i);
    var before := ForwardTo(exp, net, kinds, l, i);
    var a := Activate(exp, before, Weighted(before[l][i], Activations(before[l - 1])), kinds[l]);
    ConsistentNext(exp, before, kinds, l, i, a);
  }

  /** After feed-forward the whole network is consistent: the input is as given, no weight
      or bias has changed, and every activation is what its function makes of the final
      activations of the layer before (a softmax before the last layer excepted). */
  lemma FeedForwardIsConsistent(exp: real -> real, net: Net, kinds: seq<int>)
    requires Positive(exp) && Computable(net, kinds)
    ensures var r := Forward(exp, net, kinds);
            && r[0] == net[0] && SameParameters(net, r)
            && forall m, j :: 1 <= m < |r| && 0 <= j < |r[m]| && Settled(kinds, m) ==> Consistent(exp, r, kinds, m, j)
  {
    hide Consistent, FullyConnected;
    assert SameUnits(net[|net| - 1], Forward(exp, net, kinds)[|net| - 1]);
    ForwardIsConsistent(exp, net, kinds, |net| - 1, |net[|net| - 1]|);
  }

  // ----- softmax

  function Total(xs: seq<real>): real {
    if xs == [] then 0.0 else Total(xs[..|xs| - 1]) + xs[|xs| - 1]
  }

  lemma {:induction false} SharesAddUp(exp: real -> real, us: Units, prev: seq<real>, s: real, outs: seq<real>)
    requires ConnectedTo(us, |prev|) && s > 0.0 && |outs| == |us|
    requires forall i :: 0 <= i < |us| ==> outs[i] == exp(Weighted(us[i], prev)) / s
    ensures Total(outs) == SoftmaxSum(exp, us, prev) / s
  {
    if us != [] {
      var n := |us| - 1;
      SharesAddUp(exp, us[..n], prev, s, outs[..n]);
      assert SoftmaxSum(exp, us, prev) / s == SoftmaxSum(exp, us[..n], prev) / s + exp(Weighted(us[n], prev)) / s;
    }
  }

  /** The outputs of a softmax layer are positive and add up to exactly one. */
  lemma SoftmaxSumsToOne(exp: real -> real, net: Net, kinds: seq<int>)
    requires Positive(exp) && Computable(net, kinds) && kinds[|kinds| - 1] == SOFTMAX
    ensures var outs := Activations(Forward(exp, net, kinds)[|net| - 1]);
            Total(outs) == 1.0 && forall i :: 0 <= i < |outs| ==> outs[i] > 0.0
  {
    hide Forward;
    FeedForwardIsConsistent(exp, net, kinds);
    var r := Forward(exp, net, kinds);
    SameIsComputable(net, r, kinds);
    OutputsOfSoftmax(exp, r, kinds);
  }

  lemma OutputsOfSoftmax(exp: real -> real, r: Net, kinds: seq<int>)
    requires Positive(exp) && Computable(r, kinds) && kinds[|kinds| - 1] == SOFTMAX
    requires forall m, j :: 1 <= m < |r| && 0 <= j < |r[m]| && Settled(kinds, m) ==> Consistent(exp, r, kinds, m, j)
    ensures var outs := Activations(r[|r| - 1]);
            Total(outs) == 1.0 && forall i :: 0 <= i < |outs| ==> outs[i] > 0.0
  {
    var (last, prev) := (r[|r| - 1], Activations(r[|r| - 2]));
    var outs := Activations(last);
    assert ConnectedTo(last, |prev|);
    SoftmaxSumPositive(exp, last, prev);
    var s := SoftmaxSum(exp, last, prev);
    forall i | 0 <= i < |last| ensures outs[i] == exp(Weighted(last[i], prev)) / s && outs[i] > 0.0 {
      assert Consistent(exp, r, kinds, |r| - 1, i);
    }
    SharesAddUp(exp, last, prev, s, outs);
    assert SoftmaxSum(exp, last, prev) / s == 1.0;
  }

  // ----- back-propagation

  datatype Rule = Rule(alpha: real, regularization: int, lambda: real)

  /** `StochasticGradientDescentCalculation`. */
  function Descent(w: real, output: real, delta: real, r: Rule): real {
    if r.regularization == 0 then -r.alpha * delta * output
    else if r.regularization == 1 then
      if w > 0.0 then -r.alpha * (delta * output + 1.0)
      else if w == 0.0 then -r.alpha * (delta * output + 0.0)
      else -r.alpha * (delta * output - 1.0)
    else if r.regularization == 2 then -r.alpha * (delta * output + 2.0 * r.lambda * w)
    else 0.0
  }

  /** What one weight adds to the loss: `LassoRegressionCalculation`, `RidgeRegressionCalculation`. */
  function Penalty(w: real, r: Rule): real {
    if r.regularization == 1 then r.lambda * Size(w)
    else if r.regularization == 2 then r.lambda * (w * w)
    else 0.0
  }

  function Size(w: real): real {
    if w < 0.0 then -w else w
  }

  /** The slope of the penalty around `w`, taken over a distance that does not reach past zero. */
  function Slope(w: real, r: Rule, h: real): real
    requires h > 0.0
  {
    (Penalty(w + h, r) - Penalty(w - h, r)) / (2.0 * h)
  }

  lemma RatioIs(n: real, q: real, k: real)
    requires k > 0.0 && n == q * k
    ensures n / k == q
  {
  }

  lemma LassoSlope(l: real, w: real, h: real)
    requires h > 0.0 && (w == 0.0 || h <= Size(w))
    ensures l * Size(w + h) - l * Size(w - h)
         == (if w > 0.0 then l else if w < 0.0 then -l else 0.0) * (2.0 * h)
  {
    var d := Size(w + h) - Size(w - h);
    assert d == if w > 0.0 then 2.0 * h else if w < 0.0 then -2.0 * h else 0.0;
    assert l * Size(w + h) - l * Size(w - h) == l * d;
  }

  lemma RidgeSlope(l: real, w: real, h: real)
    ensures l * ((w + h) * (w + h)) - l * ((w - h) * (w - h)) == 2.0 * l * w * (2.0 * h)
  {
    assert (w + h) * (w + h) - (w - h) * (w - h) == 4.0 * (w * h);
    assert l * (4.0 * (w * h)) == 2.0 * l * w * (2.0 * h);
  }

  lemma SlopeOfLasso(w: real, r: Rule, h: real)
    requires h > 0.0 && (w == 0.0 || h <= Size(w)) && r.regularization == 1
    ensures Slope(w, r, h) == if w > 0.0 then r.lambda else if w < 0.0 then -r.lambda else 0.0
  {
    hide Size;
    var l := r.lambda;
    LassoSlope(l, w, h);
    RatioIs(Penalty(w + h, r) - Penalty(w - h, r), if w > 0.0 then l else if w < 0.0 then -l else 0.0, 2.0 * h);
  }

  lemma SlopeOfRidge(w: real, r: Rule, h: real)
    requires h > 0.0 && r.regularization == 2
    ensures Slope(w, r, h) == 2.0 * r.lambda * w
  {
    RidgeSlope(r.lambda, w, h);
    RatioIs(Penalty(w + h, r) - Penalty(w - h, r), 2.0 * r.lambda * w, 2.0 * h);
  }

  lemma SlopeIs(w: real, r: Rule, h: real)
    requires h > 0.0 && (w == 0.0 || h <= Size(w))
    ensures r.regularization == 1 ==>
              Slope(w, r, h) == if w > 0.0 then r.lambda else if w < 0.0 then -r.lambda else 0.0
    ensures r.regularization == 2 ==> Slope(w, r, h) == 2.0 * r.lambda * w
    ensures r.regularization != 1 && r.regularization != 2 ==> Slope(w, r, h) == 0.0
  {
    if r.regularization == 1 {
      hide Slope;
      SlopeOfLasso(w, r, h);
    } else if r.regularization == 2 {
      hide Slope;
      SlopeOfRidge(w, r, h);
    }
  }

  /** A step against a gradient. */
  function Downhill(alpha: real, gradient: real): real {
    -alpha * gradient
  }

  /** What the rule adds to the gradient of one weight. */
  function Pull(w: real, r: Rule): real {
    if r.regularization == 1 then if w > 0.0 then 1.0 else if w == 0.0 then 0.0 else -1.0
    else if r.regularization == 2 then 2.0 * r.lambda * w
    else 0.0
  }

  lemma DescentIsDownhill(w: real, output: real, delta: real, r: Rule)
    requires 0 <= r.regularization <= 2
    ensures Descent(w, output, delta, r) == Downhill(r.alpha, delta * output + Pull(w, r))
  {
    assert -r.alpha * delta * output == -r.alpha * (delta * output);
  }

  lemma SameStepIff(alpha: real, x: real, y: real)
    ensures Downhill(alpha, x) == Downhill(alpha, y) <==> alpha == 0.0 || x == y
  {
    assert Downhill(alpha, x) - Downhill(alpha, y) == -alpha * (x - y);
  }

  /** A weight moves down the slope of the loss with its penalty if and only if the rule is
      not the Lasso's, or its factor is one: the update leaves `lambda` out. */
  lemma DescentFollowsPenaltyIff(w: real, output: real, delta: real, r: Rule, h: real)
    requires 0 <= r.regularization <= 2 && h > 0.0 && (w == 0.0 || h <= Size(w))
    ensures Descent(w, output, delta, r) == Downhill(r.alpha, delta * output + Slope(w, r, h))
            <==> r.regularization != 1 || r.alpha == 0.0 || r.lambda == 1.0 || w == 0.0
  {
    hide Slope, Size, Descent, Downhill;
    SlopeIs(w, r, h);
    DescentIsDownhill(w, output, delta, r);
    SameStepIff(r.alpha, delta * output + Pull(w, r), delta * output + Slope(w, r, h));
  }

  /** `ActivationFunctionDerivativeCalculation`. */
  function Derivative(a: real, kind: int): real {
    if kind == PERCEPTRON || kind == RELU then if a > 0.0 then 1.0 else 0.0
    else if kind == SIGMOID then a * (1.0 - a)
    else 0.0
  }

  function TrainedUnit(u: Unit, prev: seq<real>, delta: real, r: Rule): (t: Unit)
    requires |u.weights| == |prev|
    ensures |t.weights| == |u.weights|
  {
    Unit(u.a, u.bias - delta * r.alpha,
         seq(|u.weights|, j requires 0 <= j < |u.weights| => u.weights[j] + Descent(u.weights[j], prev[j], delta, r)))
  }

  function TrainedLayer(us: Units, prev: seq<real>, deltas: seq<real>, r: Rule): (t: Units)
    requires ConnectedTo(us, |prev|) && |deltas| == |us|
    ensures |t| == |us| && ConnectedTo(t, |prev|)
  {
    seq(|us|, i requires 0 <= i < |us| => TrainedUnit(us[i], prev, deltas[i], r))
  }

  /** Rows are units, columns the units of the layer before. */
  function WeightsOf(us: Units): Matrix {
    seq(|us|, i requires 0 <= i < |us| => us[i].weights)
  }

  predicate Rectangular(m: Matrix, columns: nat) {
    forall i :: 0 <= i < |m| ==> |m[i]| == columns
  }

  function Transposed(m: Matrix, columns: nat): (t: Matrix)
    requires Rectangular(m, columns)
    ensures |t| == columns && Rectangular(t, |m|)
  {
    seq(columns, j requires 0 <= j < columns => seq(|m|, i requires 0 <= i < |m| => m[i][j]))
  }

  function Product(m: Matrix, v: seq<real>): (p: seq<real>)
    requires Rectangular(m, |v|)
    ensures |p| == |m|
  {
    seq(|m|, i requires 0 <= i < |m| => Dot(v, m[i]))
  }

  function OutputDeltas(us: Units, labels: seq<real>): seq<real>
    requires |labels| == |us|
  {
    seq(|us|, i requires 0 <= i < |us| => us[i].a - labels[i])
  }

  /** The next layer's deltas carried back through its weights, times the derivative. */
  function HiddenDeltas(us: Units, kind: int, next: Units, deltas: seq<real>): (d: seq<real>)
    requires ConnectedTo(next, |us|) && |deltas| == |next|
    ensures |d| == |us|
  {
    var back := Product(Transposed(WeightsOf(next), |us|), deltas);
    seq(|us|, i requires 0 <= i < |us| => back[i] * Derivative(us[i].a, kind))
  }

  predicate Trainable(net: Net, kinds: seq<int>, labels: seq<real>) {
    net != [] && |kinds| == |net| && |labels| == |net[|net| - 1]| && FullyConnected(net)
  }

  /** The deltas of layer `l`: from the weights of the next layer as already updated. */
  function Deltas(net: Net, kinds: seq<int>, labels: seq<real>, r: Rule, l: nat): (d: seq<real>)
    requires Trainable(net, kinds, labels) && 1 <= l < |net|
    ensures |d| == |net[l]|
    decreases |net| - l, 0
  {
    if l == |net| - 1 then OutputDeltas(net[l], labels)
    else
      HiddenDeltas(net[l], kinds[l], After(net, kinds, labels, r, l + 1), Deltas(net, kinds, labels, r, l + 1))
  }

  function After(net: Net, kinds: seq<int>, labels: seq<real>, r: Rule, l: nat): (us: Units)
    requires Trainable(net, kinds, labels) && 1 <= l < |net|
    ensures |us| == |net[l]| && ConnectedTo(us, |net[l - 1]|)
    decreases |net| - l, 1
  {
    assert ConnectedTo(net[l], |net[l - 1]|);
    TrainedLayer(net[l], Activations(net[l - 1]), Deltas(net, kinds, labels, r, l), r)
  }

  /** `BackPropagation`: every layer but the input is trained once. */
  function Trained(net: Net, kinds: seq<int>, labels: seq<real>, r: Rule): Net
    requires Trainable(net, kinds, labels)
  {
    seq(|net|, l requires 0 <= l < |net| => if l == 0 then net[0] else After(net, kinds, labels, r, l))
  }

  /** Training changes no activation and no shape. */
  lemma {:induction false} TrainingKeeps(net: Net, kinds: seq<int>, labels: seq<real>, r: Rule)
    requires Trainable(net, kinds, labels)
    ensures var t := Trained(net, kinds, labels, r);
            && |t| == |net| && FullyConnected(t)
            && forall l :: 0 <= l < |net| ==> Activations(t[l]) == Activations(net[l])
  {
    hide Deltas;
    var t := Trained(net, kinds, labels, r);
    forall l | 0 <= l < |net| ensures Activations(t[l]) == Activations(net[l]) && |t[l]| == |net[l]| {
    }
    forall l | 1 <= l < |t| ensures ConnectedTo(t[l], |t[l - 1]|) {
      assert |t[l - 1]| == |net[l - 1]|;
    }
  }

  // ----- the order of the updates

  function Squares(v: seq<real>): real {
    Dot(v, v)
  }

  /** The column of weights that leads from unit `i` of a layer of `n` to the next layer. */
  function Column(next: Units, n: nat, i: nat): seq<real>
    requires ConnectedTo(next, n) && i < n
  {
    seq(|next|, j requires 0 <= j < |next| => next[j].weights[i])
  }

  lemma HiddenDeltaIs(us: Units, kind: int, next: Units, deltas: seq<real>, i: nat)
    requires ConnectedTo(next, |us|) && |deltas| == |next| && i < |us|
    ensures HiddenDeltas(us, kind, next, deltas)[i] == Dot(deltas, Column(next, |us|, i)) * Derivative(us[i].a, kind)
  {
    hide Dot, Derivative;
    assert Transposed(WeightsOf(next), |us|)[i] == Column(next, |us|, i);
  }

  lemma DotUnfolds(x: seq<real>, y: seq<real>)
    requires |x| == |y|
    ensures x == [] ==> Dot(x, y) == 0.0
    ensures x != [] ==> Dot(x, y) == Dot(x[..|x| - 1], y[..|x| - 1]) + x[|x| - 1] * y[|x| - 1]
  {
  }

  lemma {:induction false} DotShifted(d: seq<real>, x: seq<real>, y: seq<real>, k: real)
    requires |d| == |x| == |y| && forall j :: 0 <= j < |d| ==> y[j] == x[j] - k * d[j]
    ensures Dot(d, y) == Dot(d, x) - k * Squares(d)
  {
    hide Dot;
    DotUnfolds(d, x);
    DotUnfolds(d, y);
    DotUnfolds(d, d);
    if d != [] {
      var n := |d| - 1;
      DotShifted(d[..n], x[..n], y[..n], k);
      ShiftedTerm(d[n], x[n], y[n], k, Squares(d[..n]), Dot(d[..n], x[..n]), Dot(d[..n], y[..n]));
    }
  }

  lemma ShiftedTerm(d: real, x: real, y: real, k: real, s: real, p: real, q: real)
    requires y == x - k * d && q == p - k * s
    ensures q + d * y == p + d * x - k * (s + d * d)
  {
    assert d * y == d * x - k * (d * d);
    assert k * (s + d * d) == k * s + k * (d * d);
  }

  /** Without regularisation, a hidden delta computed from the updated weights differs from
      the one computed from the weights before the update by the learning rate times the
      unit's own activation and derivative times the squared length of the next deltas. */
  lemma UpdatedWeightsShiftDelta(us: Units, kind: int, next: Units, deltas: seq<real>, r: Rule, i: nat)
    requires ConnectedTo(next, |us|) && |deltas| == |next| && i < |us| && r.regularization == 0
    ensures var trained := TrainedLayer(next, Activations(us), deltas, r);
            HiddenDeltas(us, kind, trained, deltas)[i]
            == HiddenDeltas(us, kind, next, deltas)[i]
               - r.alpha * us[i].a * Squares(deltas) * Derivative(us[i].a, kind)
  {
    hide HiddenDeltas, Derivative, Squares, Dot;
    var trained := TrainedLayer(next, Activations(us), deltas, r);
    HiddenDeltaIs(us, kind, next, deltas, i);
    HiddenDeltaIs(us, kind, trained, deltas, i);
    var (x, y, k) := (Column(next, |us|, i), Column(trained, |us|, i), r.alpha * us[i].a);
    forall j | 0 <= j < |deltas| ensures y[j] == x[j] - k * deltas[j] {
      assert trained[j].weights[i] == next[j].weights[i] + Descent(next[j].weights[i], us[i].a, deltas[j], r);
    }
    DotShifted(deltas, x, y, k);
    Spread(Dot(deltas, x), k, Squares(deltas), Derivative(us[i].a, kind));
  }

  lemma Spread(x: real, k: real, s: real, f: real)
    ensures (x - k * s) * f == x * f - k * s * f
  {
  }
}
