/**
 What feed-forward and back-propagation leave behind, place by place, in plain numbers
 (FederatedLearningESP32/components/federatedlearning/federatedlearning.c:73-135,
 234-332, 430-595): every activation from its input sum, and every bias and weight from
 the network before the update.
 */
module NeuralResults {
  import opened NeuralMath
  import opened Sums

  // ----- sums over indices

  function Upto(n: nat): (s: seq<nat>)
    ensures |s| == n && forall k :: 0 <= k < n ==> s[k] == k
  {
    seq(n, k requires 0 <= k < n => k)
  }

  function Products(x: seq<real>, y: seq<real>): nat -> real {
    (k: nat) => if k < |x| && k < |y| then x[k] * y[k] else 0.0
  }

  /** The sum of `x[k] * y[k]` over all indices. */
  function SumOfProducts(x: seq<real>, y: seq<real>): real {
    Sum(Upto(|x|), Products(x, y))
  }

  lemma {:induction false} SumOfSame<T>(xs: seq<T>, f: T -> real, g: T -> real)
    requires forall k :: 0 <= k < |xs| ==> f(xs[k]) == g(xs[k])
    ensures Sum(xs, f) == Sum(xs, g)
  {
    if xs != [] {
      SumOfSame(xs[..|xs| - 1], f, g);
    }
  }

  lemma {:induction false} DotIsSum(x: seq<real>, y: seq<real>)
    requires |x| == |y|
    ensures Dot(x, y) == SumOfProducts(x, y)
  {
    hide Sum;
    SumUnfolds(Upto(|x|), Products(x, y));
    DotUnfolds(x, y);
    if x != [] {
      var n := |x| - 1;
      DotIsSum(x[..n], y[..n]);
      assert Upto(|x|)[..n] == Upto(n);
      SumOfSame(Upto(n), Products(x, y), Products(x[..n], y[..n]));
    }
  }

  lemma SumUnfolds<T>(xs: seq<T>, f: T -> real)
    ensures xs == [] ==> Sum(xs, f) == 0.0
    ensures xs != [] ==> Sum(xs, f) == Sum(xs[..|xs| - 1], f) + f(xs[|xs| - 1])
  {
  }

  // ----- feed-forward

  /** Bias plus weighted activations. */
  function Input(bias: real, weights: seq<real>, acts: seq<real>): real {
    bias + SumOfProducts(weights, acts)
  }

  /** What activation `a` has to do with input `z`: 1 perceptron, 2 ReLU, 3 sigmoid,
      4 softmax, which depends on more than `z`. */
  ghost predicate Fires(exp: real -> real, kind: int, a: real, z: real) {
    && (kind == 1 ==> (z > 0.0 ==> a == 1.0) && (z <= 0.0 ==> a == 0.0))
    && (kind == 2 ==> (z > 0.0 ==> a == z) && (z <= 0.0 ==> a == 0.0))
    && (kind == 3 ==> a * (1.0 + exp(-z)) == 1.0)
    && (kind < 1 || kind > 4 ==> a == 0.0)
  }

  function InputOf(net: Net, l: nat, i: nat): real
    requires 1 <= l < |net| && i < |net[l]|
  {
    Input(net[l][i].bias, net[l][i].weights,
          seq(|net[l - 1]|, j requires 0 <= j < |net[l - 1]| => net[l - 1][j].a))
  }

  lemma InputIsWeighted(net: Net, l: nat, i: nat)
    requires FullyConnected(net) && 1 <= l < |net| && i < |net[l]|
    ensures ConnectedTo(net[l], |net[l - 1]|)
    ensures InputOf(net, l, i) == Weighted(net[l][i], Activations(net[l - 1]))
  {
    assert ConnectedTo(net[l], |net[l - 1]|);
    DotIsSum(net[l][i].weights, Activations(net[l - 1]));
  }

  lemma Inverse(x: real)
    requires x > 0.0
    ensures 1.0 / x * x == 1.0
  {
  }

  lemma ActivateFires(exp: real -> real, net: Net, z: real, kind: int)
    requires Positive(exp) && |net| >= 2 && net[|net| - 1] != [] && FullyConnected(net)
    ensures Fires(exp, kind, Activate(exp, net, z, kind), z)
  {
    hide FullyConnected, SoftmaxSum;
    Inverse(1.0 + exp(-z));
  }

  /** After feed-forward no bias, no weight and no input has changed, and every unit fires as
      its kind says, from the sum of its bias and its weights times the final activations of
      the layer before. */
  lemma EveryUnitFires(exp: real -> real, net: Net, kinds: seq<int>)
    requires Positive(exp) && Computable(net, kinds)
    ensures var r := Forward(exp, net, kinds);
            && |r| == |net| && r[0] == net[0]
            && forall l, i :: 1 <= l < |r| && 0 <= i < |r[l]| ==>
                 && |r[l]| == |net[l]|
                 && r[l][i].bias == net[l][i].bias && r[l][i].weights == net[l][i].weights
                 && Fires(exp, kinds[l], r[l][i].a, InputOf(r, l, i))
  {
    hide Forward, Consistent, Fires, InputOf, Activate;
    FeedForwardIsConsistent(exp, net, kinds);
    var r := Forward(exp, net, kinds);
    SameIsComputable(net, r, kinds);
    forall l, i | 1 <= l < |r| && 0 <= i < |r[l]|
      ensures |r[l]| == |net[l]| && r[l][i].bias == net[l][i].bias && r[l][i].weights == net[l][i].weights
      ensures Fires(exp, kinds[l], r[l][i].a, InputOf(r, l, i))
    {
      assert SameUnits(net[l], r[l]);
      OneFires(exp, r, kinds, l, i);
    }
  }

  lemma OneFires(exp: real -> real, r: Net, kinds: seq<int>, l: nat, i: nat)
    requires Positive(exp) && Computable(r, kinds) && 1 <= l < |r| && i < |r[l]|
    requires Settled(kinds, l) ==> Consistent(exp, r, kinds, l, i)
    ensures Fires(exp, kinds[l], r[l][i].a, InputOf(r, l, i))
  {
    hide Activate, InputOf, FullyConnected;
    InputIsWeighted(r, l, i);
    ActivateFires(exp, r, InputOf(r, l, i), kinds[l]);
  }

  /** The outputs of a softmax layer are in proportion to the exponentials of their inputs. */
  lemma SoftmaxInProportion(exp: real -> real, net: Net, kinds: seq<int>, i: nat, k: nat)
    requires Positive(exp) && Computable(net, kinds) && kinds[|kinds| - 1] == 4
    requires i < |net[|net| - 1]| && k < |net[|net| - 1]|
    ensures var r: Net := Forward(exp, net, kinds);
            var n := |net| - 1;
            && |r| == |net| && |r[n]| == |net[n]|
            && r[n][i].a * exp(InputOf(r, n, k)) == r[n][k].a * exp(InputOf(r, n, i))
  {
    hide Forward, InputOf, Consistent;
    FeedForwardIsConsistent(exp, net, kinds);
    var r := Forward(exp, net, kinds);
    SameIsComputable(net, r, kinds);
    assert SameUnits(net[|net| - 1], r[|net| - 1]);
    InProportion(exp, r, kinds, i, k);
  }

  /** They are positive and add up to one. */
  lemma SoftmaxAddsUp(exp: real -> real, net: Net, kinds: seq<int>)
    requires Positive(exp) && Computable(net, kinds) && kinds[|kinds| - 1] == 4
    ensures |Forward(exp, net, kinds)| == |net|
    ensures var last: Units := Forward(exp, net, kinds)[|net| - 1];
            Sum(last, (u: Unit) => u.a) == 1.0 && forall i :: 0 <= i < |last| ==> last[i].a > 0.0
  {
    hide Forward, Consistent;
    FeedForwardIsConsistent(exp, net, kinds);
    SoftmaxSumsToOne(exp, net, kinds);
    var last: Units := Forward(exp, net, kinds)[|net| - 1];
    TotalIsSum(last);
    assert forall i :: 0 <= i < |last| ==> Activations(last)[i] == last[i].a;
  }

  lemma InProportion(exp: real -> real, r: Net, kinds: seq<int>, i: nat, k: nat)
    requires Positive(exp) && Computable(r, kinds) && kinds[|kinds| - 1] == 4
    requires i < |r[|r| - 1]| && k < |r[|r| - 1]|
    requires Consistent(exp, r, kinds, |r| - 1, i) && Consistent(exp, r, kinds, |r| - 1, k)
    ensures r[|r| - 1][i].a * exp(InputOf(r, |r| - 1, k)) == r[|r| - 1][k].a * exp(InputOf(r, |r| - 1, i))
  {
    hide InputOf, SoftmaxSum, FullyConnected;
    var n := |r| - 1;
    InputIsWeighted(r, n, i);
    InputIsWeighted(r, n, k);
    SoftmaxSumPositive(exp, r[n], Activations(r[n - 1]));
    Crosswise(exp(InputOf(r, n, i)), exp(InputOf(r, n, k)), SoftmaxSum(exp, r[n], Activations(r[n - 1])));
  }

  lemma Crosswise(x: real, y: real, s: real)
    requires s > 0.0
    ensures x / s * y == y / s * x
  {
    assert x / s * y == (x * y) / s && y / s * x == (y * x) / s;
  }

  lemma {:induction false} TotalIsSum(us: Units)
    ensures Total(Activations(us)) == Sum(us, (u: Unit) => u.a)
  {
    if us != [] {
      TotalIsSum(us[..|us| - 1]);
      assert Activations(us)[..|us| - 1] == Activations(us[..|us| - 1]);
    }
  }

  // ----- back-propagation

  /** How far the biases of a layer have moved down. */
  function Steps(before: Units, after: Units): (s: seq<real>)
    requires |before| == |after|
    ensures |s| == |before| && forall i :: 0 <= i < |s| ==> s[i] == before[i].bias - after[i].bias
  {
    seq(|before|, i requires 0 <= i < |before| => before[i].bias - after[i].bias)
  }

  /** The slope of an activation function, from its value. */
  function SlopeAt(kind: int, a: real): real {
    if kind == 1 || kind == 2 then if a > 0.0 then 1.0 else 0.0
    else if kind == 3 then a * (1.0 - a)
    else 0.0
  }

  /** The bias steps of layer `l + 1`, carried back along the updated weights to unit `i`. */
  function CarriedBack(net: Net, t: Net, l: nat, i: nat): real
    requires l + 1 < |net| == |t| && |t[l + 1]| == |net[l + 1]|
    requires ConnectedTo(t[l + 1], |net[l]|) && i < |net[l]|
  {
    var next := t[l + 1];
    SumOfProducts(Steps(net[l + 1], next), seq(|next|, k requires 0 <= k < |next| => next[k].weights[i]))
  }

  /** A weight after the update, when its unit's bias moved by `step` and the unit it comes
      from has activation `a`. */
  predicate WeightMoved(w: real, moved: real, step: real, a: real, r: Rule) {
    && (r.regularization == 0 ==> moved == w - step * a)
    && (r.regularization == 1 ==>
          moved == w - step * a - (if w > 0.0 then r.alpha else if w < 0.0 then -r.alpha else 0.0))
    && (r.regularization == 2 ==> moved == w - step * a - 2.0 * r.alpha * r.lambda * w)
    && (r.regularization < 0 || r.regularization > 2 ==> moved == w)
  }

  predicate SameShape(net: Net, t: Net) {
    && |t| == |net|
    && forall l, i :: 0 <= l < |net| && 0 <= i < |net[l]| ==>
         |t[l]| == |net[l]| && |t[l][i].weights| == |net[l][i].weights| && t[l][i].a == net[l][i].a
  }

  lemma StepIs(net: Net, kinds: seq<int>, labels: seq<real>, r: Rule, l: nat)
    requires Trainable(net, kinds, labels) && 1 <= l < |net|
    ensures var (t, d) := (Trained(net, kinds, labels, r), Deltas(net, kinds, labels, r, l));
            |t[l]| == |net[l]| && forall i :: 0 <= i < |net[l]| ==> Steps(net[l], t[l])[i] == d[i] * r.alpha
  {
    hide Deltas;
    AfterUnfolds(net, kinds, labels, r, l);
  }

  lemma AfterUnfolds(net: Net, kinds: seq<int>, labels: seq<real>, r: Rule, l: nat)
    requires Trainable(net, kinds, labels) && 1 <= l < |net|
    ensures ConnectedTo(net[l], |net[l - 1]|) && |Activations(net[l - 1])| == |net[l - 1]|
    ensures Trained(net, kinds, labels, r)[l] == After(net, kinds, labels, r, l)
         == TrainedLayer(net[l], Activations(net[l - 1]), Deltas(net, kinds, labels, r, l), r)
  {
    hide TrainedLayer, Deltas;
  }

  lemma {:induction false} DotScaled(x: seq<real>, y: seq<real>, c: seq<real>, s: real)
    requires |x| == |y| == |c| && forall k :: 0 <= k < |x| ==> y[k] == x[k] * s
    ensures Dot(y, c) == Dot(x, c) * s
  {
    hide Dot;
    DotUnfolds(x, c);
    DotUnfolds(y, c);
    if x != [] {
      var n := |x| - 1;
      DotScaled(x[..n], y[..n], c[..n], s);
      ScaledTerm(Dot(x[..n], c[..n]), x[n], c[n], s);
    }
  }

  lemma ScaledTerm(p: real, x: real, c: real, s: real)
    ensures p * s + x * s * c == (p + x * c) * s
  {
  }

  /** Training keeps shapes and activations, and the input layer. */
  lemma ShapeKept(net: Net, kinds: seq<int>, labels: seq<real>, r: Rule)
    requires Trainable(net, kinds, labels)
    ensures SameShape(net, Trained(net, kinds, labels, r)) && Trained(net, kinds, labels, r)[0] == net[0]
    ensures |Trained(net, kinds, labels, r)| == |net|
    ensures forall l :: 0 <= l < |net| ==> |Trained(net, kinds, labels, r)[l]| == |net[l]|
  {
    hide Deltas;
    forall l | 1 <= l < |net| ensures |Trained(net, kinds, labels, r)[l]| == |net[l]| {
      AfterUnfolds(net, kinds, labels, r, l);
    }
  }

  /** The bias of an output unit moves against the output minus the label. */
  lemma OutputMoves(net: Net, kinds: seq<int>, labels: seq<real>, r: Rule)
    requires Trainable(net, kinds, labels) && |net| > 1
    ensures var (t, n) := (Trained(net, kinds, labels, r), |net| - 1);
            && |t[n]| == |net[n]|
            && forall i :: 0 <= i < |net[n]| ==> Steps(net[n], t[n])[i] == r.alpha * (net[n][i].a - labels[i])
  {
    hide Trained, Steps;
    StepIs(net, kinds, labels, r, |net| - 1);
  }

  /** The bias of a hidden unit moves against the steps of the layer after it, carried back
      along the updated weights, times the slope of its function. */
  lemma HiddenMoves(net: Net, kinds: seq<int>, labels: seq<real>, r: Rule, l: nat, i: nat)
    requires Trainable(net, kinds, labels) && 1 <= l < |net| - 1 && i < |net[l]|
    ensures var t: Net := Trained(net, kinds, labels, r);
            && |t[l]| == |net[l]| && |t[l + 1]| == |net[l + 1]|
            && ConnectedTo(t[l + 1], |net[l]|)
            && Steps(net[l], t[l])[i] == CarriedBack(net, t, l, i) * SlopeAt(kinds[l], net[l][i].a)
  {
    hide Trained, Steps, Dot, HiddenDeltas, FullyConnected;
    ShapeKept(net, kinds, labels, r);
    var t: Net := Trained(net, kinds, labels, r);
    var (d, up) := (Deltas(net, kinds, labels, r, l), Deltas(net, kinds, labels, r, l + 1));
    StepIs(net, kinds, labels, r, l);
    StepIs(net, kinds, labels, r, l + 1);
    AfterUnfolds(net, kinds, labels, r, l + 1);
    var next := t[l + 1];
    HiddenDeltaIs(net[l], kinds[l], next, up, i);
    var (x, c) := (Steps(net[l + 1], next), Column(next, |net[l]|, i));
    DotScaled(up, x, c, r.alpha);
    DotIsSum(x, c);
    Reordered(Dot(up, c), SlopeAt(kinds[l], net[l][i].a), r.alpha);
  }

  lemma Reordered(x: real, f: real, s: real)
    ensures x * f * s == x * s * f
  {
  }

  /** Every weight moves with the bias of its unit, and by what the regularization adds. */
  lemma OneWeightMoves(net: Net, kinds: seq<int>, labels: seq<real>, r: Rule, l: nat, i: nat, j: nat)
    requires Trainable(net, kinds, labels) && 1 <= l < |net| && i < |net[l]| && j < |net[l - 1]|
    ensures var t: Net := Trained(net, kinds, labels, r);
            && |t[l]| == |net[l]| && |net[l][i].weights| == |t[l][i].weights| == |net[l - 1]|
            && WeightMoved(net[l][i].weights[j], t[l][i].weights[j], Steps(net[l], t[l])[i], net[l - 1][j].a, r)
  {
    hide Trained, Steps, Deltas, Descent, WeightMoved, FullyConnected;
    ShapeKept(net, kinds, labels, r);
    StepIs(net, kinds, labels, r, l);
    AfterUnfolds(net, kinds, labels, r, l);
    var (us, prev, d) := (net[l], Activations(net[l - 1]), Deltas(net, kinds, labels, r, l));
    var t: Net := Trained(net, kinds, labels, r);
    assert t[l][i] == TrainedUnit(us[i], prev, d[i], r);
    DescentMoves(us[i].weights[j], t[l][i].weights[j], Steps(us, t[l])[i], prev[j], d[i], r);
  }

  /** Without regularization: bias and weights of an output unit, spelled out. */
  lemma OutputRule(net: Net, kinds: seq<int>, labels: seq<real>, r: Rule, i: nat, j: nat)
    requires Trainable(net, kinds, labels) && |net| > 1 && r.regularization == 0
    requires i < |net[|net| - 1]| && j < |net[|net| - 2]|
    ensures |Trained(net, kinds, labels, r)| == |net| && |Trained(net, kinds, labels, r)[|net| - 1]| == |labels|
    ensures var n := |net| - 1;
            var (u, v: Unit) := (net[n][i], Trained(net, kinds, labels, r)[n][i]);
            && |u.weights| == |v.weights| == |net[n - 1]|
            && v.bias == u.bias - r.alpha * (u.a - labels[i])
            && v.weights[j] == u.weights[j] - r.alpha * (u.a - labels[i]) * net[n - 1][j].a
  {
    hide Trained, FullyConnected, Steps;
    ShapeKept(net, kinds, labels, r);
    OutputMoves(net, kinds, labels, r);
    OneWeightMoves(net, kinds, labels, r, |net| - 1, i, j);
  }

  lemma DescentMoves(w: real, moved: real, step: real, a: real, delta: real, r: Rule)
    requires moved == w + Descent(w, a, delta, r) && step == delta * r.alpha
    ensures WeightMoved(w, moved, step, a, r)
  {
    assert r.alpha * (delta * a) == delta * r.alpha * a;
    assert r.alpha * (2.0 * r.lambda * w) == 2.0 * r.alpha * r.lambda * w;
    assert r.alpha * (delta * a + 1.0) == r.alpha * (delta * a) + r.alpha;
    assert r.alpha * (delta * a - 1.0) == r.alpha * (delta * a) - r.alpha;
    assert r.alpha * (delta * a + 2.0 * r.lambda * w) == r.alpha * (delta * a) + r.alpha * (2.0 * r.lambda * w);
  }
}
