/**
 Feed-forward and back-propagation as walks over neurons on the heap
 (FederatedLearningESP32/components/federatedlearning/federatedlearning.c:430-595),
 proved to compute what `NeuralMath` says.
 */
module Training {
  import opened Math = NeuralMath

  /** A neuron; the walks over its list of weights, and over the lists of neurons and
      layers, go through sequences here. */
  class Neuron {
    var activationfunctionvalue: real
    var bias: real
    var weights: seq<real>

    constructor (activation: real, bias: real, weights: seq<real>)
      ensures this.activationfunctionvalue == activation && this.bias == bias && this.weights == weights
    {
      this.activationfunctionvalue := activation;
      this.bias := bias;
      this.weights := weights;
    }
  }

  type Layer = seq<Neuron>

  ghost predicate DistinctNeurons(ns: Layer) {
    forall i, j :: 0 <= i < j < |ns| ==> ns[i] != ns[j]
  }

  ghost predicate Disjoint(a: Layer, b: Layer) {
    forall i, j :: 0 <= i < |a| && 0 <= j < |b| ==> a[i] != b[j]
  }

  /** No neuron occurs twice in a network. */
  ghost predicate Separate(ls: seq<Layer>) {
    && (forall l :: 0 <= l < |ls| ==> DistinctNeurons(ls[l]))
    && (forall l, m :: 0 <= l < |ls| && 0 <= m < |ls| && l != m ==> Disjoint(ls[l], ls[m]))
  }

  ghost function Neurons(ls: seq<Layer>): set<Neuron> {
    set l, i | 0 <= l < |ls| && 0 <= i < |ls[l]| :: ls[l][i]
  }

  ghost function UnitOf(n: Neuron): (u: Unit)
    reads n
    ensures u.a == n.activationfunctionvalue && u.bias == n.bias && u.weights == n.weights
  {
    Unit(n.activationfunctionvalue, n.bias, n.weights)
  }

  ghost function UnitsOf(ns: Layer): (us: Units)
    reads ns
    ensures |us| == |ns| && forall i :: 0 <= i < |ns| ==> us[i] == UnitOf(ns[i])
  {
    seq(|ns|, i requires 0 <= i < |ns| reads ns => UnitOf(ns[i]))
  }

  ghost function NetOf(ls: seq<Layer>): (net: Net)
    reads Neurons(ls)
    ensures |net| == |ls| && forall l :: 0 <= l < |ls| ==> net[l] == UnitsOf(ls[l])
  {
    seq(|ls|, l requires 0 <= l < |ls| reads Neurons(ls) => UnitsOf(ls[l]))
  }

  // ----- one neuron

  /** Bias plus the weighted activations of the layer before. */
  method WeightedInput(n: Neuron, prev: Layer) returns (z: real)
    requires |n.weights| == |prev|
    ensures z == Weighted(UnitOf(n), Activations(UnitsOf(prev)))
  {
    ghost var acts := Activations(UnitsOf(prev));
    z := n.bias;
    var j := 0;
    while j < |n.weights|
      invariant 0 <= j <= |n.weights|
      invariant z == n.bias + Dot(n.weights[..j], acts[..j])
    {
      assert n.weights[..j + 1][..j] == n.weights[..j] && acts[..j + 1][..j] == acts[..j];
      z := z + n.weights[j] * prev[j].activationfunctionvalue;
      j := j + 1;
    }
    assert n.weights[..j] == n.weights && acts[..j] == acts;
  }

  /** The walk over the last layer that softmax repeats for every neuron. */
  method SumOfExponentials(exp: real -> real, last: Layer, prev: Layer) returns (sum: real)
    requires ConnectedTo(UnitsOf(last), |prev|)
    ensures sum == SoftmaxSum(exp, UnitsOf(last), Activations(UnitsOf(prev)))
  {
    ghost var us := UnitsOf(last);
    sum := 0.0;
    var i := 0;
    while i < |last|
      invariant 0 <= i <= |last|
      invariant sum == SoftmaxSum(exp, us[..i], Activations(UnitsOf(prev)))
    {
      assert |us[i].weights| == |prev|;
      var z := WeightedInput(last[i], prev);
      sum := sum + exp(z);
      assert us[..i + 1][..i] == us[..i];
      i := i + 1;
    }
    assert us[..i] == us;
  }

  lemma LastIsConnected(net: Net)
    requires FullyConnected(net) && |net| >= 2
    ensures ConnectedTo(net[|net| - 1], |net[|net| - 2]|)
  {
  }

  /** `ActivationFunctionCalculaton`. */
  method ActivationFunctionCalculation(exp: real -> real, ls: seq<Layer>, z: real, kind: int) returns (a: real)
    requires Positive(exp) && |ls| >= 2 && ls[|ls| - 1] != [] && FullyConnected(NetOf(ls))
    ensures a == Activate(exp, NetOf(ls), z, kind)
  {
    hide FullyConnected, SoftmaxSum;
    match kind
    case 1 => a := if z > 0.0 then 1.0 else 0.0;
    case 2 => a := if z > 0.0 then z else 0.0;
    case 3 => a := 1.0 / (1.0 + exp(-z));
    case 4 =>
      LastIsConnected(NetOf(ls));
      var sum := SumOfExponentials(exp, ls[|ls| - 1], ls[|ls| - 2]);
      SoftmaxSumPositive(exp, UnitsOf(ls[|ls| - 1]), Activations(UnitsOf(ls[|ls| - 2])));
      a := exp(z) / sum;
    case _ => a := 0.0;
  }

  // ----- feed-forward

  /** Overwriting one activation is seen at one place of the network. */
  lemma OneActivation(ls: seq<Layer>, before: Net, l: nat, i: nat, a: real)
    requires |before| == |ls| && forall m :: 0 <= m < |ls| ==> |before[m]| == |ls[m]|
    requires l < |ls| && i < |ls[l]|
    requires UnitOf(ls[l][i]) == before[l][i].(a := a)
    requires forall m, j :: 0 <= m < |ls| && 0 <= j < |ls[m]| && (m, j) != (l, i) ==> UnitOf(ls[m][j]) == before[m][j]
    ensures NetOf(ls) == WithActivation(before, l, i, a)
  {
    forall m | 0 <= m < |ls| ensures UnitsOf(ls[m]) == WithActivation(before, l, i, a)[m] {
    }
  }

  lemma DifferentNeurons(ls: seq<Layer>, l: nat, i: nat)
    requires Separate(ls) && l < |ls| && i < |ls[l]|
    ensures forall m, j :: 0 <= m < |ls| && 0 <= j < |ls[m]| && (m, j) != (l, i) ==> ls[m][j] != ls[l][i]
  {
    forall m, j | 0 <= m < |ls| && 0 <= j < |ls[m]| && (m, j) != (l, i) ensures ls[m][j] != ls[l][i] {
      if m != l {
        assert Disjoint(ls[m], ls[l]);
      } else {
        assert DistinctNeurons(ls[l]);
      }
    }
  }

  /** The body of the loop over the neurons of a layer. */
  method ComputeNeuron(exp: real -> real, ls: seq<Layer>, kinds: seq<int>, l: nat, i: nat)
    requires Positive(exp) && Separate(ls) && Computable(NetOf(ls), kinds) && 1 <= l < |ls| && i < |ls[l]|
    requires ConnectedTo(UnitsOf(ls[l]), |ls[l - 1]|)
    modifies ls[l][i]
    ensures var net: Net := old(NetOf(ls));
            var a := Activate(exp, net, Weighted(net[l][i], Activations(net[l - 1])), kinds[l]);
            NetOf(ls) == WithActivation(net, l, i, a)
  {
    hide Separate, Activate, FullyConnected;
    ghost var net: Net := NetOf(ls);
    assert |net[l][i].weights| == |ls[l - 1]|;
    var z := WeightedInput(ls[l][i], ls[l - 1]);
    assert NetOf(ls) == net;
    var a := ActivationFunctionCalculation(exp, ls, z, kinds[l]);
    assert NetOf(ls) == net;
    DifferentNeurons(ls, l, i);
    ls[l][i].activationfunctionvalue := a;
    OneActivation(ls, net, l, i, a);
  }

  /** `FeedFoward`. */
  method FeedForward(exp: real -> real, ls: seq<Layer>, kinds: seq<int>)
    requires Positive(exp) && Separate(ls) && Computable(NetOf(ls), kinds)
    modifies Neurons(ls)
    ensures NetOf(ls) == Forward(exp, old(NetOf(ls)), kinds)
  {
    hide Separate, Activate, FullyConnected, WithActivation, Weighted, Activations, UnitsOf;
    ghost var net: Net := NetOf(ls);
    var l := 1;
    while l < |ls|
      invariant 1 <= l <= |ls|
      invariant NetOf(ls) == if l < |ls| then ForwardTo(exp, net, kinds, l, 0) else Forward(exp, net, kinds)
    {
      var i := 0;
      while i < |ls[l]|
        invariant 0 <= i <= |ls[l]| == |net[l]|
        invariant NetOf(ls) == ForwardTo(exp, net, kinds, l, i)
      {
        ForwardStep(exp, net, kinds, l, i);
        assert ls[l][i] in Neurons(ls);
        ComputeNeuron(exp, ls, kinds, l, i);
        i := i + 1;
      }
      l := l + 1;
    }
  }

  // ----- back-propagation

  /** The transposed weights of a layer as the matrix `weights[previous][current]`. */
  ghost predicate Holds(m: array2<real>, us: Units, columns: nat)
    reads m
  {
    && m.Length0 == columns && m.Length1 == |us| && ConnectedTo(us, columns)
    && forall j, i :: 0 <= j < columns && 0 <= i < |us| ==> m[j, i] == us[i].weights[j]
  }

  /** The inner loop over the weights of one neuron. */
  method TrainWeights(n: Neuron, prev: Layer, delta: real, r: Rule, weights: array2<real>, i: nat)
    requires |n.weights| == |prev| == weights.Length0 && i < weights.Length1 && n !in prev
    modifies n`weights, weights
    ensures |n.weights| == old(|n.weights|)
    ensures forall j :: 0 <= j < |n.weights| ==>
              n.weights[j] == old(n.weights)[j] + Descent(old(n.weights)[j], prev[j].activationfunctionvalue, delta, r)
    ensures forall j :: 0 <= j < |prev| ==> weights[j, i] == n.weights[j]
    ensures forall j, k :: 0 <= j < |prev| && 0 <= k < weights.Length1 && k != i ==> weights[j, k] == old(weights[j, k])
  {
    hide Descent;
    var j := 0;
    while j < |prev|
      invariant 0 <= j <= |prev| == |n.weights|
      invariant forall k :: 0 <= k < j ==>
                  n.weights[k] == old(n.weights)[k]
                                  + Descent(old(n.weights)[k], prev[k].activationfunctionvalue, delta, r)
      invariant forall k :: j <= k < |prev| ==> n.weights[k] == old(n.weights)[k]
      invariant forall k :: 0 <= k < j ==> weights[k, i] == n.weights[k]
      invariant forall k, c :: 0 <= k < |prev| && 0 <= c < weights.Length1 && c != i ==>
                  weights[k, c] == old(weights[k, c])
    {
      var w := n.weights[j];
      n.weights := n.weights[j := w + Descent(w, prev[j].activationfunctionvalue, delta, r)];
      weights[j, i] := n.weights[j];
      j := j + 1;
    }
  }

  /** Bias and weights of one neuron. */
  method TrainNeuron(n: Neuron, prev: Layer, delta: real, r: Rule, weights: array2<real>, i: nat)
    requires |n.weights| == |prev| == weights.Length0 && i < weights.Length1 && n !in prev
    modifies n`bias, n`weights, weights
    ensures UnitOf(n) == TrainedUnit(old(UnitOf(n)), old(Activations(UnitsOf(prev))), delta, r)
    ensures forall j :: 0 <= j < |prev| ==> weights[j, i] == n.weights[j]
    ensures forall j, k :: 0 <= j < |prev| && 0 <= k < weights.Length1 && k != i ==> weights[j, k] == old(weights[j, k])
  {
    hide Descent;
    ghost var u := UnitOf(n);
    ghost var acts := Activations(UnitsOf(prev));
    n.bias := n.bias - delta * r.alpha;
    TrainWeights(n, prev, delta, r, weights, i);
    assert n.weights == TrainedUnit(u, acts, delta, r).weights;
  }

  /** The loop that updates a layer and notes its new weights. */
  method TrainLayer(ns: Layer, prev: Layer, deltas: array<real>, r: Rule) returns (weights: array2<real>)
    requires DistinctNeurons(ns) && Disjoint(ns, prev) && ConnectedTo(UnitsOf(ns), |prev|) && deltas.Length >= |ns|
    modifies ns`bias, ns`weights
    ensures fresh(weights)
    ensures UnitsOf(ns) == TrainedLayer(old(UnitsOf(ns)), old(Activations(UnitsOf(prev))), deltas[..|ns|], r)
    ensures Holds(weights, UnitsOf(ns), |prev|)
  {
    hide TrainedUnit;
    ghost var us: Units := UnitsOf(ns);
    ghost var acts := Activations(UnitsOf(prev));
    weights := new real[|prev|, |ns|];
    var i := 0;
    while i < |ns|
      invariant 0 <= i <= |ns|
      invariant forall k :: 0 <= k < i ==> UnitOf(ns[k]) == TrainedUnit(us[k], acts, deltas[k], r)
      invariant forall k :: i <= k < |ns| ==> UnitOf(ns[k]) == us[k]
      invariant forall j :: 0 <= j < |prev| ==> prev[j].activationfunctionvalue == acts[j]
      invariant forall j, k :: 0 <= j < |prev| && 0 <= k < i ==> weights[j, k] == ns[k].weights[j]
    {
      assert |us[i].weights| == |prev|;
      assert Activations(UnitsOf(prev)) == acts;
      TrainNeuron(ns[i], prev, deltas[i], r, weights, i);
      i := i + 1;
    }
    assert UnitsOf(ns) == TrainedLayer(us, acts, deltas[..|ns|], r);
  }

  /** The deltas of the last layer. */
  method LastDeltas(ns: Layer, labels: array<real>) returns (deltas: array<real>)
    requires labels.Length == |ns|
    ensures fresh(deltas) && deltas[..] == OutputDeltas(UnitsOf(ns), labels[..])
  {
    deltas := new real[|ns|];
    var i := 0;
    while i < |ns|
      invariant 0 <= i <= |ns|
      invariant forall k :: 0 <= k < i ==> deltas[k] == ns[k].activationfunctionvalue - labels[k]
    {
      deltas[i] := ns[i].activationfunctionvalue - labels[i];
      i := i + 1;
    }
    assert deltas[..] == OutputDeltas(UnitsOf(ns), labels[..]);
  }

  /** One accumulation over the next layer's deltas, along a row of the matrix. */
  method CarriedBack(deltas: array<real>, weights: array2<real>, i: nat, ghost row: seq<real>) returns (sum: real)
    requires i < weights.Length0 && weights.Length1 == |row| <= deltas.Length
    requires forall j :: 0 <= j < |row| ==> weights[i, j] == row[j]
    ensures sum == Dot(deltas[..|row|], row)
  {
    sum := 0.0;
    var j := 0;
    while j < weights.Length1
      invariant 0 <= j <= |row|
      invariant sum == Dot(deltas[..j], row[..j])
    {
      assert deltas[..j + 1][..j] == deltas[..j] && row[..j + 1][..j] == row[..j];
      sum := sum + deltas[j] * weights[i, j];
      j := j + 1;
    }
    assert row[..j] == row;
  }

  /** The `memcpy` of the next layer's deltas. */
  method CopyDeltas(deltas: array<real>, count: nat) returns (aux: array<real>)
    requires count <= deltas.Length
    ensures fresh(aux) && aux.Length == count && aux[..] == deltas[..count]
  {
    aux := new real[count];
    var k := 0;
    while k < count
      invariant 0 <= k <= count && aux[..k] == deltas[..k]
    {
      aux[k] := deltas[k];
      k := k + 1;
    }
  }

  /** The deltas of a hidden layer, from a copy of those of the next layer. */
  method InnerDeltas(ns: Layer, kind: int, deltas: array<real>, count: nat, weights: array2<real>, ghost next: Units)
    returns (hidden: array<real>)
    requires Holds(weights, next, |ns|) && |next| == count <= deltas.Length
    ensures fresh(hidden) && hidden[..] == HiddenDeltas(UnitsOf(ns), kind, next, deltas[..count])
  {
    hide Derivative, Dot, HiddenDeltas;
    ghost var ds := deltas[..count];
    ghost var want := HiddenDeltas(UnitsOf(ns), kind, next, ds);
    var aux := CopyDeltas(deltas, count);
    assert aux[..count] == ds;
    hidden := new real[|ns|];
    var i := 0;
    while i < |ns|
      invariant 0 <= i <= |ns| && aux[..count] == ds
      invariant forall m :: 0 <= m < i ==> hidden[m] == want[m]
    {
      HiddenDeltaIs(UnitsOf(ns), kind, next, ds, i);
      var sum := CarriedBack(aux, weights, i, Column(next, |ns|, i));
      hidden[i] := sum * Derivative(ns[i].activationfunctionvalue, kind);
      i := i + 1;
    }
    assert hidden[..] == want;
  }

  // ----- how many deltas are copied

  function Widths(ls: seq<Layer>): (ws: seq<nat>)
    ensures |ws| == |ls| && forall l :: 0 <= l < |ls| ==> ws[l] == |ls[l]|
  {
    seq(|ls|, l requires 0 <= l < |ls| => |ls[l]|)
  }

  /** The count with which the deltas of layer `l + 1` are copied at hidden layer `l`: at
      the first hidden layer reached it is their number, then the number for layer `l`. */
  function CopiedCount(widths: seq<nat>, l: nat): nat
    requires 1 <= l < |widths| - 1
  {
    if l == |widths| - 2 then widths[l + 1] else widths[l]
  }

  /** The copy stays inside the buffer of the next layer's deltas, and holds every delta
      that is read from it, one for each neuron of the next layer. */
  predicate CopySuffices(widths: seq<nat>, l: nat)
    requires 1 <= l < |widths| - 1
  {
    var (buffer, read) := (widths[l + 1], widths[l + 1]);
    read <= CopiedCount(widths, l) <= buffer
  }

  predicate EqualHidden(widths: seq<nat>) {
    forall l, m :: 1 <= l < m < |widths| - 1 ==> widths[l] == widths[m]
  }

  /** Every copy is right if and only if all hidden layers have the same width. */
  lemma CopiesSufficeIff(widths: seq<nat>)
    ensures (forall l :: 1 <= l < |widths| - 1 ==> CopySuffices(widths, l)) <==> EqualHidden(widths)
  {
    if forall l :: 1 <= l < |widths| - 1 ==> CopySuffices(widths, l) {
      forall l, m | 1 <= l < m < |widths| - 1 ensures widths[l] == widths[m] {
        SameAsLater(widths, l, m);
      }
    }
  }

  lemma SameAsLater(widths: seq<nat>, l: nat, m: nat)
    requires forall k :: 1 <= k < |widths| - 1 ==> CopySuffices(widths, k)
    requires 1 <= l <= m < |widths| - 1
    ensures widths[l] == widths[m]
    decreases m - l
  {
    if l < m {
      assert CopySuffices(widths, l);
      SameAsLater(widths, l + 1, m);
    }
  }

  /** With hidden layers of three and two neurons the copy runs past the buffer, and with
      two and three neurons a delta is read past the copy. */
  lemma UnequalHiddenFails()
    ensures CopiedCount([2, 3, 2, 1], 1) == 3 > [2, 3, 2, 1][2]
    ensures CopiedCount([2, 2, 3, 1], 1) == 2 < [2, 2, 3, 1][2]
    ensures !CopySuffices([2, 3, 2, 1], 1) && !CopySuffices([2, 2, 3, 1], 1)
  {
  }

  lemma LayersApart(ls: seq<Layer>, l: nat)
    requires Separate(ls) && 1 <= l < |ls|
    ensures DistinctNeurons(ls[l]) && Disjoint(ls[l], ls[l - 1])
    ensures forall m, i, j :: 0 <= m < |ls| && m != l && 0 <= i < |ls[m]| && 0 <= j < |ls[l]| ==> ls[m][i] != ls[l][j]
  {
    forall m, i, j | 0 <= m < |ls| && m != l && 0 <= i < |ls[m]| && 0 <= j < |ls[l]| ensures ls[m][i] != ls[l][j] {
      assert Disjoint(ls[m], ls[l]);
    }
  }

  /** Training one layer leaves the others alone. */
  method TrainLayerOf(ls: seq<Layer>, l: nat, deltas: array<real>, r: Rule) returns (weights: array2<real>)
    requires Separate(ls) && 1 <= l < |ls| && ConnectedTo(UnitsOf(ls[l]), |ls[l - 1]|) && deltas.Length == |ls[l]|
    modifies ls[l]
    ensures fresh(weights) && deltas[..] == old(deltas[..])
    ensures UnitsOf(ls[l]) == TrainedLayer(old(UnitsOf(ls[l])), old(Activations(UnitsOf(ls[l - 1]))), deltas[..], r)
    ensures forall m :: 0 <= m < |ls| && m != l ==> UnitsOf(ls[m]) == old(UnitsOf(ls[m]))
    ensures Holds(weights, UnitsOf(ls[l]), |ls[l - 1]|)
  {
    hide Separate, TrainedLayer, Holds;
    LayersApart(ls, l);
    assert deltas[..|ls[l]|] == deltas[..];
    weights := TrainLayer(ls[l], ls[l - 1], deltas, r);
  }

  /** Layers above `l` have been trained, the others not yet. */
  ghost predicate TrainedAbove(ls: seq<Layer>, net: Net, kinds: seq<int>, labels: seq<real>, r: Rule, l: int)
    requires Trainable(net, kinds, labels) && |ls| == |net| && l >= 0
    reads Neurons(ls)
  {
    forall m :: 0 <= m < |ls| ==> UnitsOf(ls[m]) == if l < m then After(net, kinds, labels, r, m) else net[m]
  }

  /** The first half of the loop body: the deltas of layer `l`. */
  method DeltasOf(ls: seq<Layer>, kinds: seq<int>, labels: array<real>, r: Rule, l: nat, deltas: array<real>,
                  count: nat, weights: array2<real>, ghost net: Net)
    returns (now: array<real>)
    requires 1 <= l < |ls| == |net| && Trainable(net, kinds, labels[..]) && UnitsOf(ls[l]) == net[l]
    requires l < |ls| - 1 ==>
               && deltas[..] == Deltas(net, kinds, labels[..], r, l + 1) && count == |net[l + 1]|
               && Holds(weights, After(net, kinds, labels[..], r, l + 1), |ls[l]|)
    ensures fresh(now) && now[..] == Deltas(net, kinds, labels[..], r, l)
  {
    hide HiddenDeltas, OutputDeltas, TrainedLayer, FullyConnected, Holds;
    if l == |ls| - 1 {
      now := LastDeltas(ls[l], labels);
    } else {
      ghost var next := After(net, kinds, labels[..], r, l + 1);
      assert deltas.Length == |deltas[..]| == |next| && deltas[..count] == deltas[..];
      now := InnerDeltas(ls[l], kinds[l], deltas, count, weights, next);
    }
  }

  lemma AfterIs(net: Net, kinds: seq<int>, labels: seq<real>, r: Rule, l: nat)
    requires Trainable(net, kinds, labels) && 1 <= l < |net|
    ensures ConnectedTo(net[l], |net[l - 1]|) && |Activations(net[l - 1])| == |net[l - 1]|
    ensures After(net, kinds, labels, r, l)
         == TrainedLayer(net[l], Activations(net[l - 1]), Deltas(net, kinds, labels, r, l), r)
  {
    hide TrainedLayer, Deltas;
  }

  /** What the loop carries from layer `l + 1` to layer `l`. */
  ghost predicate Carried(ls: seq<Layer>, net: Net, kinds: seq<int>, labels: seq<real>, r: Rule, l: nat,
                          deltas: array<real>, count: nat, weights: array2<real>)
    requires Trainable(net, kinds, labels) && l < |ls| == |net|
    reads deltas, weights
  {
    l < |ls| - 1 ==>
      && deltas[..] == Deltas(net, kinds, labels, r, l + 1)
      && Holds(weights, After(net, kinds, labels, r, l + 1), |ls[l]|)
      && (l > 0 ==> count == CopiedCount(Widths(ls), l))
  }

  /** The count that the loop leaves for the layer before. */
  function NextCount(ls: seq<Layer>, l: nat): (n: nat)
    requires 1 <= l < |ls|
    ensures l > 1 ==> n == CopiedCount(Widths(ls), l - 1)
  {
    if l == |ls| - 1 then |ls[l]| else |ls[l - 1]|
  }

  lemma CountIsRight(ls: seq<Layer>, net: Net, l: nat)
    requires 1 <= l < |ls| - 1 && EqualHidden(Widths(ls)) && |ls| == |net| && |net[l + 1]| == |ls[l + 1]|
    ensures CopiedCount(Widths(ls), l) == |net[l + 1]|
  {
    CopiesSufficeIff(Widths(ls));
    assert CopySuffices(Widths(ls), l);
  }

  lemma SameWidth(ls: seq<Layer>, net: Net, kinds: seq<int>, labels: seq<real>, r: Rule, l: nat)
    requires Trainable(net, kinds, labels) && l < |ls| - 1 && |ls| == |net|
    requires TrainedAbove(ls, net, kinds, labels, r, l)
    ensures |net[l + 1]| == |ls[l + 1]|
  {
    assert UnitsOf(ls[l + 1]) == After(net, kinds, labels, r, l + 1);
  }

  /** The loop body for layer `l`. */
  method TrainOne(ls: seq<Layer>, kinds: seq<int>, labels: array<real>, r: Rule, l: nat, deltas: array<real>,
                  count: nat, weights: array2<real>, ghost net: Net)
    returns (deltas': array<real>, count': nat, weights': array2<real>)
    requires Separate(ls) && 1 <= l < |ls| == |net| && Trainable(net, kinds, labels[..]) && EqualHidden(Widths(ls))
    requires TrainedAbove(ls, net, kinds, labels[..], r, l)
    requires Carried(ls, net, kinds, labels[..], r, l, deltas, count, weights)
    modifies ls[l]
    ensures labels[..] == old(labels[..]) && TrainedAbove(ls, net, kinds, labels[..], r, l - 1)
    ensures Carried(ls, net, kinds, labels[..], r, l - 1, deltas', count', weights')
  {
    hide Separate, Deltas, After, TrainedLayer, Holds, Activations, ConnectedTo, FullyConnected, Trainable;
    hide EqualHidden, CopiedCount, Widths;
    ghost var target := labels[..];
    assert UnitsOf(ls[l]) == net[l] && UnitsOf(ls[l - 1]) == net[l - 1];
    AfterIs(net, kinds, target, r, l);
    if l < |ls| - 1 {
      SameWidth(ls, net, kinds, target, r, l);
      CountIsRight(ls, net, l);
    }
    deltas' := DeltasOf(ls, kinds, labels, r, l, deltas, count, weights, net);
    count' := NextCount(ls, l);
    assert deltas'.Length == |deltas'[..]|;
    weights' := TrainLayerOf(ls, l, deltas', r);
  }

  /** `BackPropagation`. */
  method BackPropagation(ls: seq<Layer>, kinds: seq<int>, labels: array<real>, r: Rule)
    requires Separate(ls) && Trainable(NetOf(ls), kinds, labels[..]) && EqualHidden(Widths(ls))
    modifies Neurons(ls)
    ensures NetOf(ls) == Trained(old(NetOf(ls)), kinds, old(labels[..]), r)
  {
    hide Separate, EqualHidden, Widths, Trainable, Trained, NetOf, TrainedAbove, Carried, Neurons;
    ghost var net: Net := NetOf(ls);
    ghost var target := labels[..];
    NotEmpty(ls, net, kinds, target);
    var deltas := new real[0];
    var weights := new real[0, 0];
    var count: nat := 0;
    var l := |ls| - 1;
    NothingTrained(ls, net, kinds, target, r, deltas, count, weights);
    while l > 0
      invariant 0 <= l < |ls| && labels[..] == target
      invariant TrainedAbove(ls, net, kinds, target, r, l)
      invariant Carried(ls, net, kinds, target, r, l, deltas, count, weights)
    {
      LayerNeurons(ls, l);
      deltas, count, weights := TrainOne(ls, kinds, labels, r, l, deltas, count, weights, net);
      l := l - 1;
    }
    AllTrained(ls, net, kinds, target, r);
  }

  lemma NotEmpty(ls: seq<Layer>, net: Net, kinds: seq<int>, labels: seq<real>)
    requires net == NetOf(ls) && Trainable(net, kinds, labels)
    ensures |net| == |ls| > 0
  {
  }

  lemma NothingTrained(ls: seq<Layer>, net: Net, kinds: seq<int>, labels: seq<real>, r: Rule, deltas: array<real>,
                       count: nat, weights: array2<real>)
    requires Trainable(net, kinds, labels) && net == NetOf(ls)
    ensures TrainedAbove(ls, net, kinds, labels, r, |ls| - 1)
    ensures Carried(ls, net, kinds, labels, r, |ls| - 1, deltas, count, weights)
  {
  }

  lemma AllTrained(ls: seq<Layer>, net: Net, kinds: seq<int>, labels: seq<real>, r: Rule)
    requires Trainable(net, kinds, labels) && |ls| == |net| && TrainedAbove(ls, net, kinds, labels, r, 0)
    ensures NetOf(ls) == Trained(net, kinds, labels, r)
  {
    assert forall m :: 0 <= m < |ls| ==> NetOf(ls)[m] == Trained(net, kinds, labels, r)[m];
  }

  lemma LayerNeurons(ls: seq<Layer>, l: nat)
    requires l < |ls|
    ensures forall n :: n in ls[l] ==> n in Neurons(ls)
  {
  }
}
