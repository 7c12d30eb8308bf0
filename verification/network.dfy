/**
 The biases and weights of a network as values, and what the steps of federated averaging
 do to them (FederatedLearningServer/src/federatedlearning.c:655-722).
 */
module Network {

  // ----- parameters as values

  datatype NeuronValue = NeuronValue(bias: real, weights: seq<real>)
  type LayerValue = seq<NeuronValue>
  type NetValue = seq<LayerValue>

  /** A place where a network holds one parameter. */
  datatype Place = BiasOf(l: nat, i: nat) | WeightOf(l: nat, i: nat, j: nat)

  predicate Has(n: NetValue, p: Place) {
    p.l < |n| && p.i < |n[p.l]| && (p.WeightOf? ==> p.j < |n[p.l][p.i].weights|)
  }

  function At(n: NetValue, p: Place): real
    requires Has(n, p)
  {
    match p
    case BiasOf(l, i) => n[l][i].bias
    case WeightOf(l, i, j) => n[l][i].weights[j]
  }

  predicate SameLayerShape(a: LayerValue, b: LayerValue) {
    |a| == |b| && forall i :: 0 <= i < |a| ==> |a[i].weights| == |b[i].weights|
  }

  predicate SameShape(a: NetValue, b: NetValue) {
    |a| == |b| && forall l :: 0 <= l < |a| ==> SameLayerShape(a[l], b[l])
  }

  function PlusScaled(a: real, b: real, k: int): real {
    a + b * k as real
  }

  function AddScaled(a: NeuronValue, b: NeuronValue, k: int): NeuronValue
    requires |a.weights| == |b.weights|
  {
    NeuronValue(PlusScaled(a.bias, b.bias, k),
                seq(|a.weights|, j requires 0 <= j < |a.weights| => PlusScaled(a.weights[j], b.weights[j], k)))
  }

  function AddScaledLayer(a: LayerValue, b: LayerValue, k: int): LayerValue
    requires SameLayerShape(a, b)
  {
    seq(|a|, i requires 0 <= i < |a| => AddScaled(a[i], b[i], k))
  }

  function AddScaledNet(a: NetValue, b: NetValue, k: int): (n: NetValue)
    requires SameShape(a, b)
    ensures SameShape(n, a)
  {
    seq(|a|, l requires 0 <= l < |a| => AddScaledLayer(a[l], b[l], k))
  }

  lemma LayerOfSum(a: NetValue, b: NetValue, k: int, l: nat)
    requires SameShape(a, b) && l < |a|
    ensures |AddScaledNet(a, b, k)| == |a| == |b| && SameLayerShape(a[l], b[l])
    ensures AddScaledNet(a, b, k)[l] == AddScaledLayer(a[l], b[l], k)
  {
    hide SameLayerShape, AddScaledLayer;
  }

  lemma NeuronOfSum(a: LayerValue, b: LayerValue, k: int, i: nat)
    requires SameLayerShape(a, b) && i < |a|
    ensures |AddScaledLayer(a, b, k)| == |a| == |b| && |a[i].weights| == |b[i].weights|
    ensures AddScaledLayer(a, b, k)[i] == AddScaled(a[i], b[i], k)
  {
    hide AddScaled;
  }

  function Over(a: real, k: int): real
    requires k != 0
  {
    a / k as real
  }

  function Divided(a: NeuronValue, k: int): NeuronValue
    requires k != 0
  {
    NeuronValue(Over(a.bias, k), seq(|a.weights|, j requires 0 <= j < |a.weights| => Over(a.weights[j], k)))
  }

  function DividedLayer(a: LayerValue, k: int): LayerValue
    requires k != 0
  {
    seq(|a|, i requires 0 <= i < |a| => Divided(a[i], k))
  }

  function DividedNet(a: NetValue, k: int): (n: NetValue)
    requires k != 0
    ensures SameShape(n, a)
  {
    seq(|a|, l requires 0 <= l < |a| => DividedLayer(a[l], k))
  }

  /** Weights become zero, but a bias only when its neuron is the first of its layer. */
  function Reset(a: NeuronValue, first: bool): NeuronValue {
    NeuronValue(if first then 0.0 else a.bias, seq(|a.weights|, _ => 0.0))
  }

  function ResetLayer(a: LayerValue): LayerValue {
    seq(|a|, i requires 0 <= i < |a| => Reset(a[i], i == 0))
  }

  function ResetNet(a: NetValue): (n: NetValue)
    ensures SameShape(n, a)
  {
    seq(|a|, l requires 0 <= l < |a| => ResetLayer(a[l]))
  }

  /** No list of the network has exactly one element (see `NetworkCopy`). */
  predicate Copyable(n: NetValue) {
    |n| != 1 && forall l :: 0 <= l < |n| ==> |n[l]| != 1 && forall i :: 0 <= i < |n[l]| ==> |n[l][i].weights| != 1
  }

  lemma ShapeIsKept(a: NetValue, b: NetValue, c: NetValue)
    requires SameShape(a, b)
    ensures SameShape(b, a) && (SameShape(b, c) ==> SameShape(a, c))
    ensures Copyable(a) ==> Copyable(b)
  {
    forall l | 0 <= l < |a| ensures SameLayerShape(b[l], a[l]) {
      assert SameLayerShape(a[l], b[l]);
    }
    if SameShape(b, c) {
      forall l | 0 <= l < |a| ensures SameLayerShape(a[l], c[l]) {
        assert SameLayerShape(a[l], b[l]) && SameLayerShape(b[l], c[l]);
      }
    }
    if Copyable(a) {
      forall l, i | 0 <= l < |b| && 0 <= i < |b[l]| ensures |b[l]| != 1 && |b[l][i].weights| != 1 {
        assert SameLayerShape(a[l], b[l]);
      }
      assert forall l :: 0 <= l < |b| ==> SameLayerShape(a[l], b[l]);
    }
  }

  // ----- the three operations, parameter by parameter

  lemma HasSame(a: NetValue, b: NetValue, p: Place)
    requires SameShape(a, b)
    ensures Has(a, p) <==> Has(b, p)
  {
    if p.l < |a| {
      assert SameLayerShape(a[p.l], b[p.l]);
    }
  }

  lemma AtAddScaled(a: NetValue, b: NetValue, k: int, p: Place)
    requires SameShape(a, b) && Has(a, p)
    ensures Has(b, p) && Has(AddScaledNet(a, b, k), p)
    ensures At(AddScaledNet(a, b, k), p) == At(a, p) + At(b, p) * k as real
  {
    HasSame(a, b, p);
    HasSame(AddScaledNet(a, b, k), a, p);
    assert SameLayerShape(a[p.l], b[p.l]);
    assert AddScaledNet(a, b, k)[p.l][p.i] == AddScaled(a[p.l][p.i], b[p.l][p.i], k);
  }

  lemma AtDivided(a: NetValue, k: int, p: Place)
    requires k != 0 && Has(a, p)
    ensures Has(DividedNet(a, k), p) && At(DividedNet(a, k), p) == At(a, p) / k as real
  {
    HasSame(DividedNet(a, k), a, p);
    assert DividedNet(a, k)[p.l][p.i] == Divided(a[p.l][p.i], k);
  }

  /** The places that `SetNeuralNetworkZeroWeightValue` clears. */
  predicate Cleared(p: Place) {
    p.WeightOf? || p.i == 0
  }

  lemma AtReset(a: NetValue, p: Place)
    requires Has(a, p)
    ensures Has(ResetNet(a), p) && At(ResetNet(a), p) == if Cleared(p) then 0.0 else At(a, p)
  {
    HasSame(ResetNet(a), a, p);
    assert ResetNet(a)[p.l][p.i] == Reset(a[p.l][p.i], p.i == 0);
  }
}
