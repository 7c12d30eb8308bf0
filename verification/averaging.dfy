/**
 The in-place walks of federated averaging over linked networks
 (FederatedLearningServer/src/federatedlearning.c:655-722).
 */
module Averaging {
  import opened Network
  import opened LinkedNetwork

  /** The first `l` elements are done. */
  function Upto<T>(before: seq<T>, after: seq<T>, l: nat): seq<T>
    requires l <= |before| == |after|
  {
    after[..l] + before[l..]
  }

  // ----- summing

  /** The walk over the weights of a neuron in `FederatedAveragingSum`. */
  method SumWeights(g: Neuron, c: Neuron, k: int, ghost gs: seq<Weight>, ghost cs: seq<Weight>)
    requires WeightsLinked(g, gs, false) && WeightsLinked(c, cs, false) && |gs| == |cs|
    requires DistinctWeights(gs) && forall j :: 0 <= j < |gs| ==> gs[j] !in cs
    modifies gs`weight
    ensures forall j :: 0 <= j < |gs| ==> gs[j].weight == PlusScaled(old(gs[j].weight), old(cs[j].weight), k)
  {
    var (w, v) := (g.firstweight, c.firstweight);
    ghost var j := 0;
    while w != null
      invariant j <= |gs| && w == WeightAt(gs, j) && v == WeightAt(cs, j)
      invariant forall i :: 0 <= i < j ==> gs[i].weight == PlusScaled(old(gs[i].weight), old(cs[i].weight), k)
      invariant forall i :: j <= i < |gs| ==> gs[i].weight == old(gs[i].weight)
      decreases |gs| - j
    {
      assert NextWeight(gs, j, false) && NextWeight(cs, j, false);
      assert cs[j] !in gs;
      w.weight := w.weight + v.weight * k as real;
      w := w.nextweight;
      v := v.nextweight;
      j := j + 1;
    }
  }

  lemma {:induction false} Summed(c: NeuronCells, before: NeuronValue, added: NeuronValue, k: int)
    requires |before.weights| == |added.weights| == |c.weights|
    requires c.neuron.bias == PlusScaled(before.bias, added.bias, k)
    requires forall j :: 0 <= j < |c.weights| ==>
               c.weights[j].weight == PlusScaled(before.weights[j], added.weights[j], k)
    ensures ValueOf(c) == AddScaled(before, added, k)
  {
    hide WeightValues;
    WeightValuesAre(c.weights, AddScaled(before, added, k).weights);
  }

  method SumNeuron(g: Neuron, c: Neuron, k: int, ghost gs: NeuronCells, ghost cs: NeuronCells)
    requires gs.neuron == g && cs.neuron == c && |gs.weights| == |cs.weights|
    requires WeightsLinked(g, gs.weights, false) && WeightsLinked(c, cs.weights, false)
    requires DistinctWeights(gs.weights) && ApartNeuron(gs, cs)
    modifies g`bias, gs.weights`weight
    ensures ValueOf(gs) == AddScaled(old(ValueOf(gs)), old(ValueOf(cs)), k)
  {
    hide WeightValues, AddScaled, WeightsLinked, DistinctWeights;
    ghost var before, added := ValueOf(gs), ValueOf(cs);
    WeightValuesAt(gs.weights);
    WeightValuesAt(cs.weights);
    g.bias := g.bias + c.bias * k as real;
    assert g.bias == PlusScaled(before.bias, added.bias, k);
    hide PlusScaled;
    SumWeights(g, c, k, gs.weights, cs.weights);
    Summed(gs, before, added, k);
  }

  /** One turn of the loop over the neurons: no other neuron changes. */
  method SumNeuronAt(n: Neuron, m: Neuron, k: int, ghost gs: LayerCells, ghost cs: LayerCells, ghost i: nat)
    requires NeuronsLinked(gs, false) && NeuronsLinked(cs, false)
    requires SeparateNeurons(gs.neurons) && ApartLayer(gs.neurons, cs.neurons)
    requires i < |gs.neurons| == |cs.neurons| && n == gs.neurons[i].neuron && m == cs.neurons[i].neuron
    requires |gs.neurons[i].weights| == |cs.neurons[i].weights|
    modifies n`bias, gs.neurons[i].weights`weight
    ensures NeuronsLinked(gs, false) && NeuronsLinked(cs, false)
    ensures LayerParameters(cs.neurons) == old(LayerParameters(cs.neurons))
    ensures var before := old(LayerParameters(gs.neurons));
            LayerParameters(gs.neurons) == before[i := AddScaled(before[i], LayerParameters(cs.neurons)[i], k)]
  {
    hide LayerParameters, AddScaled, WeightsLinked, WeightValues, ApartLayer, NeuronsLinked, SeparateNeurons;
    hide DistinctWeights, Neurons, Weights;
    ghost var before, added := LayerParameters(gs.neurons), LayerParameters(cs.neurons);
    LayerParametersAt(gs.neurons);
    LayerParametersAt(cs.neurons);
    assert allocated(Neurons(gs.neurons)) && allocated(Weights(gs.neurons));
    assert allocated(Neurons(cs.neurons)) && allocated(Weights(cs.neurons));
    NeuronLinkedAt(gs, i);
    NeuronLinkedAt(cs, i);
    SeparateAt(gs.neurons, i);
    ApartFrom(gs.neurons, cs.neurons, i);
    SumNeuron(n, m, k, gs.neurons[i], cs.neurons[i]);
    OneNeuron(gs.neurons, before, i, AddScaled(before[i], added[i], k));
    LayerParametersAre(cs.neurons, added);
  }

  lemma {:induction false} CellsShape(gs: seq<NeuronCells>, cs: seq<NeuronCells>, k: int)
    requires SameLayerShape(LayerParameters(gs), LayerParameters(cs))
    ensures |gs| == |cs| == |AddScaledLayer(LayerParameters(gs), LayerParameters(cs), k)|
    ensures forall i :: 0 <= i < |gs| ==> |gs[i].weights| == |cs[i].weights|
  {
    hide LayerParameters;
    LayerParametersAt(gs);
    LayerParametersAt(cs);
    forall i | 0 <= i < |gs| ensures |gs[i].weights| == |cs[i].weights| {
      assert |LayerParameters(gs)[i].weights| == |LayerParameters(cs)[i].weights|;
    }
  }

  /** The walk over the neurons of a layer in `FederatedAveragingSum`. */
  method SumLayer(g: Layer, c: Layer, k: int, ghost gs: LayerCells, ghost cs: LayerCells)
    requires gs.layer == g && cs.layer == c && NeuronsLinked(gs, false) && NeuronsLinked(cs, false)
    requires SeparateNeurons(gs.neurons) && ApartLayer(gs.neurons, cs.neurons)
    requires SameLayerShape(LayerParameters(gs.neurons), LayerParameters(cs.neurons))
    modifies Neurons(gs.neurons)`bias, Weights(gs.neurons)`weight
    ensures LayerParameters(gs.neurons)
         == AddScaledLayer(old(LayerParameters(gs.neurons)), old(LayerParameters(cs.neurons)), k)
  {
    hide LayerParameters, AddScaled, AddScaledLayer, WeightsLinked, ApartLayer, NeuronsLinked, SeparateNeurons;
    hide SameLayerShape, Neurons, Weights, Upto;
    ghost var before, added := LayerParameters(gs.neurons), LayerParameters(cs.neurons);
    ghost var sum := AddScaledLayer(before, added, k);
    CellsShape(gs.neurons, cs.neurons, k);
    LayerParametersAt(gs.neurons);
    UptoEnds(before, sum);
    FirstNeuron(gs);
    FirstNeuron(cs);
    var (n, m) := (g.firstneuron, c.firstneuron);
    ghost var i := 0;
    while n != null
      invariant i <= |gs.neurons| && n == NeuronAt(gs.neurons, i) && m == NeuronAt(cs.neurons, i)
      invariant NeuronsLinked(gs, false) && NeuronsLinked(cs, false) && LayerParameters(cs.neurons) == added
      invariant LayerParameters(gs.neurons) == Upto(before, sum, i)
      decreases |gs.neurons| - i
    {
      NeuronOfSum(before, added, k, i);
      UptoNext(before, sum, i);
      CellsOf(gs.neurons, i);
      SumNeuronAt(n, m, k, gs, cs, i);
      NeuronLinkedAt(gs, i);
      NeuronLinkedAt(cs, i);
      n := n.nextneuron;
      m := m.nextneuron;
      i := i + 1;
    }
  }

  lemma {:induction false} UptoEnds<T>(before: seq<T>, after: seq<T>)
    requires |before| == |after|
    ensures Upto(before, after, 0) == before && Upto(before, after, |before|) == after
  {
  }

  lemma {:induction false} UptoNext<T>(before: seq<T>, after: seq<T>, l: nat)
    requires l < |before| == |after|
    ensures |Upto(before, after, l)| == |before| && Upto(before, after, l)[l] == before[l]
    ensures Upto(before, after, l)[l := after[l]] == Upto(before, after, l + 1)
  {
  }

  /** One turn of the loop over the layers: no other layer changes. */
  method SumLayerAt(a: Layer, b: Layer, k: int, ghost g: NeuralNetwork, ghost c: NeuralNetwork, ghost l: nat)
    requires Walkable(g) && Walkable(c) && Apart(g.cells, c.cells) && l < |g.cells| == |c.cells|
    requires a == g.cells[l].layer && b == c.cells[l].layer
    requires SameLayerShape(Parameters(g.cells)[l], Parameters(c.cells)[l])
    modifies Neurons(g.cells[l].neurons)`bias, Weights(g.cells[l].neurons)`weight
    ensures Walkable(g) && Walkable(c) && Parameters(c.cells) == old(Parameters(c.cells))
    ensures var before := old(Parameters(g.cells));
            Parameters(g.cells) == before[l := AddScaledLayer(before[l], Parameters(c.cells)[l], k)]
  {
    hide Walkable, NeuronsLinked, SeparateNeurons, Apart, ApartLayer, SameLayerShape;
    hide Layers, AllNeurons, AllWeights, Neurons, Weights, Parameters, LayerParameters, AddScaledLayer;
    ghost var (gs, cs) := (g.cells, c.cells);
    ghost var before, added := Parameters(gs), Parameters(cs);
    ParametersAt(gs);
    ParametersAt(cs);
    LayerLinkedAt(g, l);
    LayerLinkedAt(c, l);
    SeparateLayer(g, l);
    ApartLayers(gs, cs, l);
    assert allocated(Layers(gs)) && allocated(AllNeurons(gs)) && allocated(AllWeights(gs));
    assert allocated(Layers(cs)) && allocated(AllNeurons(cs)) && allocated(AllWeights(cs));
    SumLayer(a, b, k, gs[l], cs[l]);
    forall m | 0 <= m < |gs| && m != l
      ensures LayerParameters(gs[m].neurons) == old(LayerParameters(gs[m].neurons))
    {
      assert old(allocated(Neurons(gs[m].neurons))) && old(allocated(Weights(gs[m].neurons)));
      SeparateLayers(g, l, m);
      NoneOf(gs[m].neurons, gs[l].neurons);
    }
    OneLayer(gs, before, l, AddScaledLayer(before[l], added[l], k));
  }

  lemma {:induction false} SameLength(gs: seq<LayerCells>, cs: seq<LayerCells>, k: int)
    requires SameShape(Parameters(gs), Parameters(cs))
    ensures |gs| == |cs| == |AddScaledNet(Parameters(gs), Parameters(cs), k)|
  {
  }

  /** `FederatedAveragingSum`. */
  method FederatedAveragingSum(g: NeuralNetwork, c: NeuralNetwork, k: int)
    requires Walkable(g) && Walkable(c) && Apart(g.cells, c.cells)
    requires SameShape(Parameters(g.cells), Parameters(c.cells))
    modifies AllNeurons(g.cells)`bias, AllWeights(g.cells)`weight
    ensures Walkable(g) && Walkable(c) && Parameters(c.cells) == old(Parameters(c.cells))
    ensures Parameters(g.cells) == AddScaledNet(old(Parameters(g.cells)), old(Parameters(c.cells)), k)
  {
    hide Walkable, Apart, SameShape, SameLayerShape, AllNeurons, AllWeights, Neurons, Weights, Parameters;
    hide AddScaledNet, AddScaledLayer, Layers, Separate, LayersLinked, LayerParameters, Upto;
    ghost var (gs, cs) := (g.cells, c.cells);
    ghost var before, added := Parameters(gs), Parameters(cs);
    ghost var sum := AddScaledNet(before, added, k);
    SameLength(gs, cs, k);
    ParametersLength(gs);
    FirstLayer(g);
    FirstLayer(c);
    var (a, b) := (g.firstlayer, c.firstlayer);
    ghost var l := 0;
    UptoEnds(before, sum);
    while a != null
      invariant l <= |gs| && a == LayerAt(gs, l) && b == LayerAt(cs, l)
      invariant Walkable(g) && Walkable(c) && Parameters(cs) == added
      invariant Parameters(gs) == Upto(before, sum, l)
      decreases |gs| - l
    {
      LayerOfSum(before, added, k, l);
      UptoNext(before, sum, l);
      CellsOfLayer(gs, l);
      SumLayerAt(a, b, k, g, c, l);
      LayerLinkedAt(g, l);
      LayerLinkedAt(c, l);
      a := a.nextlayer;
      b := b.nextlayer;
      l := l + 1;
    }
  }

  // ----- averaging

  method AverageWeights(n: Neuron, k: int, ghost ws: seq<Weight>)
    requires k != 0 && WeightsLinked(n, ws, false) && DistinctWeights(ws)
    modifies ws`weight
    ensures forall j :: 0 <= j < |ws| ==> ws[j].weight == Over(old(ws[j].weight), k)
  {
    var w := n.firstweight;
    ghost var j := 0;
    while w != null
      invariant j <= |ws| && w == WeightAt(ws, j)
      invariant forall i :: 0 <= i < j ==> ws[i].weight == Over(old(ws[i].weight), k)
      invariant forall i :: j <= i < |ws| ==> ws[i].weight == old(ws[i].weight)
      decreases |ws| - j
    {
      assert NextWeight(ws, j, false);
      w.weight := w.weight / k as real;
      w := w.nextweight;
      j := j + 1;
    }
  }

  lemma {:induction false} Averaged(c: NeuronCells, before: NeuronValue, k: int)
    requires k != 0 && |before.weights| == |c.weights| && c.neuron.bias == Over(before.bias, k)
    requires forall j :: 0 <= j < |c.weights| ==> c.weights[j].weight == Over(before.weights[j], k)
    ensures ValueOf(c) == Divided(before, k)
  {
    hide WeightValues;
    WeightValuesAre(c.weights, Divided(before, k).weights);
  }

  method AverageNeuron(n: Neuron, k: int, ghost c: NeuronCells)
    requires k != 0 && c.neuron == n && WeightsLinked(n, c.weights, false) && DistinctWeights(c.weights)
    modifies n`bias, c.weights`weight
    ensures ValueOf(c) == Divided(old(ValueOf(c)), k)
  {
    hide WeightValues, Divided, WeightsLinked, DistinctWeights;
    ghost var before := ValueOf(c);
    WeightValuesAt(c.weights);
    n.bias := n.bias / k as real;
    assert n.bias == Over(before.bias, k);
    hide Over;
    AverageWeights(n, k, c.weights);
    Averaged(c, before, k);
  }

  /** The walk over the neurons of a layer in `FederatedAveraging`. */
  method AverageLayer(a: Layer, k: int, ghost c: LayerCells)
    requires k != 0 && c.layer == a && NeuronsLinked(c, false) && SeparateNeurons(c.neurons)
    modifies Neurons(c.neurons)`bias, Weights(c.neurons)`weight
    ensures LayerParameters(c.neurons) == DividedLayer(old(LayerParameters(c.neurons)), k)
  {
    hide LayerParameters, Divided, WeightsLinked, WeightValues, NeuronsLinked, SeparateNeurons;
    hide DistinctWeights, Neurons, Weights;
    LayerParametersAt(c.neurons);
    ghost var average := DividedLayer(LayerParameters(c.neurons), k);
    assert allocated(Neurons(c.neurons)) && allocated(Weights(c.neurons));
    FirstNeuron(c);
    var n := a.firstneuron;
    ghost var i := 0;
    while n != null
      invariant i <= |c.neurons| && n == NeuronAt(c.neurons, i) && NeuronsLinked(c, false)
      invariant forall j :: 0 <= j < i ==> ValueOf(c.neurons[j]) == average[j]
      invariant forall j :: i <= j < |c.neurons| ==> ValueOf(c.neurons[j]) == old(ValueOf(c.neurons[j]))
      decreases |c.neurons| - i
    {
      NeuronLinkedAt(c, i);
      SeparateAt(c.neurons, i);
      CellsOf(c.neurons, i);
      AverageNeuron(n, k, c.neurons[i]);
      n := n.nextneuron;
      i := i + 1;
    }
    LayerParametersAre(c.neurons, average);
  }

  method AverageLayerAt(a: Layer, k: int, ghost g: NeuralNetwork, ghost l: nat)
    requires k != 0 && Walkable(g) && l < |g.cells| && a == g.cells[l].layer
    modifies Neurons(g.cells[l].neurons)`bias, Weights(g.cells[l].neurons)`weight
    ensures Walkable(g)
    ensures var before := old(Parameters(g.cells)); Parameters(g.cells) == before[l := DividedLayer(before[l], k)]
  {
    hide Walkable, NeuronsLinked, SeparateNeurons, ApartLayer;
    hide Layers, AllNeurons, AllWeights, Neurons, Weights, Parameters, LayerParameters, DividedLayer;
    ghost var gs := g.cells;
    ghost var before := Parameters(gs);
    ParametersAt(gs);
    LayerLinkedAt(g, l);
    SeparateLayer(g, l);
    assert allocated(Layers(gs)) && allocated(AllNeurons(gs)) && allocated(AllWeights(gs));
    AverageLayer(a, k, gs[l]);
    forall m | 0 <= m < |gs| && m != l
      ensures LayerParameters(gs[m].neurons) == old(LayerParameters(gs[m].neurons))
    {
      assert old(allocated(Neurons(gs[m].neurons))) && old(allocated(Weights(gs[m].neurons)));
      SeparateLayers(g, l, m);
      NoneOf(gs[m].neurons, gs[l].neurons);
    }
    OneLayer(gs, before, l, DividedLayer(before[l], k));
  }

  /** `FederatedAveraging`. */
  method FederatedAveraging(g: NeuralNetwork, k: int)
    requires k != 0 && Walkable(g)
    modifies AllNeurons(g.cells)`bias, AllWeights(g.cells)`weight
    ensures Walkable(g) && Parameters(g.cells) == DividedNet(old(Parameters(g.cells)), k)
  {
    hide Walkable, AllNeurons, AllWeights, Neurons, Weights, Parameters, Layers, Separate, LayersLinked;
    hide LayerParameters, DividedLayer, DividedNet, Upto;
    ghost var gs := g.cells;
    ghost var before := Parameters(gs);
    ghost var average := DividedNet(before, k);
    LayersOfAverage(before, k);
    ParametersLength(gs);
    FirstLayer(g);
    UptoEnds(before, average);
    var a := g.firstlayer;
    ghost var l := 0;
    while a != null
      invariant l <= |gs| && a == LayerAt(gs, l) && Walkable(g) && Parameters(gs) == Upto(before, average, l)
      decreases |gs| - l
    {
      UptoNext(before, average, l);
      CellsOfLayer(gs, l);
      AverageLayerAt(a, k, g, l);
      LayerLinkedAt(g, l);
      a := a.nextlayer;
      l := l + 1;
    }
  }

  lemma {:induction false} LayersOfAverage(n: NetValue, k: int)
    requires k != 0
    ensures |DividedNet(n, k)| == |n| && forall l :: 0 <= l < |n| ==> DividedNet(n, k)[l] == DividedLayer(n[l], k)
  {
    hide DividedLayer;
  }

  // ----- clearing

  method ZeroWeights(n: Neuron, ghost ws: seq<Weight>)
    requires WeightsLinked(n, ws, false)
    modifies ws`weight
    ensures forall j :: 0 <= j < |ws| ==> ws[j].weight == 0.0
  {
    var w := n.firstweight;
    ghost var j := 0;
    while w != null
      invariant j <= |ws| && w == WeightAt(ws, j)
      invariant forall i :: 0 <= i < j ==> ws[i].weight == 0.0
      decreases |ws| - j
    {
      assert NextWeight(ws, j, false);
      w.weight := 0.0;
      w := w.nextweight;
      j := j + 1;
    }
  }

  method ZeroNeuron(n: Neuron, ghost c: NeuronCells)
    requires c.neuron == n && WeightsLinked(n, c.weights, false)
    modifies c.weights`weight
    ensures ValueOf(c) == Reset(old(ValueOf(c)), false)
  {
    hide WeightValues, WeightsLinked;
    ghost var before := ValueOf(c);
    WeightValuesAt(c.weights);
    ZeroWeights(n, c.weights);
    WeightValuesAre(c.weights, Reset(before, false).weights);
  }

  method ZeroNeurons(a: Layer, ghost c: LayerCells)
    requires c.layer == a && NeuronsLinked(c, false) && SeparateNeurons(c.neurons)
    modifies Weights(c.neurons)`weight
    ensures forall i :: 0 <= i < |c.neurons| ==> ValueOf(c.neurons[i]) == Reset(old(ValueOf(c.neurons[i])), false)
  {
    hide Reset, WeightsLinked, WeightValues, NeuronsLinked, SeparateNeurons, DistinctWeights, Neurons, Weights;
    FirstNeuron(c);
    assert allocated(Neurons(c.neurons)) && allocated(Weights(c.neurons));
    var n := a.firstneuron;
    ghost var i := 0;
    while n != null
      invariant i <= |c.neurons| && n == NeuronAt(c.neurons, i) && NeuronsLinked(c, false)
      invariant forall j :: 0 <= j < i ==> ValueOf(c.neurons[j]) == Reset(old(ValueOf(c.neurons[j])), false)
      invariant forall j :: i <= j < |c.neurons| ==> ValueOf(c.neurons[j]) == old(ValueOf(c.neurons[j]))
      decreases |c.neurons| - i
    {
      NeuronLinkedAt(c, i);
      SeparateAt(c.neurons, i);
      CellsOf(c.neurons, i);
      ZeroNeuron(n, c.neurons[i]);
      n := n.nextneuron;
      i := i + 1;
    }
  }

  lemma {:induction false} FirstReset(before: LayerValue, mid: LayerValue)
    requires |mid| == |before| > 0 && mid == before[0 := NeuronValue(0.0, before[0].weights)]
    ensures |ResetLayer(before)| == |before|
    ensures forall i :: 0 <= i < |before| ==> Reset(mid[i], false) == ResetLayer(before)[i]
  {
  }

  lemma {:induction false} FirstCleared(ns: seq<NeuronCells>, before: LayerValue)
    requires |ns| == |before| > 0 && ValueOf(ns[0]) == NeuronValue(0.0, before[0].weights)
    requires forall i :: 0 < i < |ns| ==> ValueOf(ns[i]) == before[i]
    ensures LayerParameters(ns) == before[0 := NeuronValue(0.0, before[0].weights)]
  {
    hide LayerParameters, WeightValues;
    LayerParametersAre(ns, before[0 := NeuronValue(0.0, before[0].weights)]);
  }

  /** The body of the loop over the layers. */
  method ZeroLayer(a: Layer, ghost c: LayerCells)
    requires c.layer == a && c.neurons != [] && NeuronsLinked(c, false) && SeparateNeurons(c.neurons)
    modifies Neurons(c.neurons)`bias, Weights(c.neurons)`weight
    ensures LayerParameters(c.neurons) == ResetLayer(old(LayerParameters(c.neurons)))
  {
    hide LayerParameters, Reset, WeightsLinked, WeightValues, NeuronsLinked, SeparateNeurons;
    hide DistinctWeights, Neurons, Weights, ResetLayer;
    ghost var before := LayerParameters(c.neurons);
    LayerParametersAt(c.neurons);
    FirstNeuron(c);
    SeparateAt(c.neurons, 0);
    CellsOf(c.neurons, 0);
    assert allocated(Neurons(c.neurons)) && allocated(Weights(c.neurons));
    a.firstneuron.bias := 0.0;
    FirstCleared(c.neurons, before);
    LayerParametersAt(c.neurons);
    FirstReset(before, LayerParameters(c.neurons));
    ZeroNeurons(a, c);
    LayerParametersAre(c.neurons, ResetLayer(before));
  }

  method ZeroLayerAt(a: Layer, ghost g: NeuralNetwork, ghost l: nat)
    requires Walkable(g) && l < |g.cells| && a == g.cells[l].layer && g.cells[l].neurons != []
    modifies Neurons(g.cells[l].neurons)`bias, Weights(g.cells[l].neurons)`weight
    ensures Walkable(g)
    ensures var before := old(Parameters(g.cells)); Parameters(g.cells) == before[l := ResetLayer(before[l])]
  {
    hide Walkable, NeuronsLinked, SeparateNeurons, ApartLayer;
    hide Layers, AllNeurons, AllWeights, Neurons, Weights, Parameters, LayerParameters, ResetLayer;
    ghost var gs := g.cells;
    ghost var before := Parameters(gs);
    ParametersAt(gs);
    LayerLinkedAt(g, l);
    SeparateLayer(g, l);
    assert allocated(Layers(gs)) && allocated(AllNeurons(gs)) && allocated(AllWeights(gs));
    ZeroLayer(a, gs[l]);
    forall m | 0 <= m < |gs| && m != l
      ensures LayerParameters(gs[m].neurons) == old(LayerParameters(gs[m].neurons))
    {
      assert old(allocated(Neurons(gs[m].neurons))) && old(allocated(Weights(gs[m].neurons)));
      SeparateLayers(g, l, m);
      NoneOf(gs[m].neurons, gs[l].neurons);
    }
    OneLayer(gs, before, l, ResetLayer(before[l]));
  }

  /** `SetNeuralNetworkZeroWeightValue`, which dereferences the first neuron of every layer. */
  method SetNeuralNetworkZeroWeightValue(g: NeuralNetwork)
    requires Walkable(g) && forall l :: 0 <= l < |g.cells| ==> g.cells[l].neurons != []
    modifies AllNeurons(g.cells)`bias, AllWeights(g.cells)`weight
    ensures Walkable(g) && Parameters(g.cells) == ResetNet(old(Parameters(g.cells)))
  {
    hide Walkable, AllNeurons, AllWeights, Neurons, Weights, Parameters, Layers, Separate, LayersLinked;
    hide LayerParameters, ResetLayer, ResetNet, Upto;
    ghost var gs := g.cells;
    ghost var before := Parameters(gs);
    LayersOfReset(before);
    ParametersLength(gs);
    FirstLayer(g);
    UptoEnds(before, ResetNet(before));
    var a := g.firstlayer;
    ghost var l := 0;
    while a != null
      invariant l <= |gs| && a == LayerAt(gs, l) && Walkable(g) && Parameters(gs) == Upto(before, ResetNet(before), l)
      decreases |gs| - l
    {
      UptoNext(before, ResetNet(before), l);
      CellsOfLayer(gs, l);
      ZeroLayerAt(a, g, l);
      LayerLinkedAt(g, l);
      a := a.nextlayer;
      l := l + 1;
    }
  }

  lemma {:induction false} LayersOfReset(n: NetValue)
    ensures |ResetNet(n)| == |n| && forall l :: 0 <= l < |n| ==> ResetNet(n)[l] == ResetLayer(n[l])
  {
    hide ResetLayer;
  }
}
