/**
 Neural networks as the program stores them: layers, neurons and weights in doubly linked
 lists inside each other (FederatedLearningServer/lib/federatedlearning.h:31-61).
 */
module LinkedNetwork {
  import opened Bytes
  import opened Network

  // ----- the cells; memory that was just allocated holds arbitrary values

  class Weight {
    var weight: real
    var nextweight: Weight?
    var previousweight: Weight?

    constructor Malloc() {
    }
  }

  class Neuron {
    var neurontype: bytes
    var weights: int
    var activationfunctionvalue: real
    var bias: real
    var firstweight: Weight?
    var lastweight: Weight?
    var nextneuron: Neuron?
    var previousneuron: Neuron?

    constructor Malloc() {
    }
  }

  class Layer {
    var activationfunctiontype: int
    var neurons: int
    var firstneuron: Neuron?
    var lastneuron: Neuron?
    var nextlayer: Layer?
    var previouslayer: Layer?

    constructor Malloc() {
    }
  }

  /** A network also knows, for proofs only, the cells it is made of. */
  class NeuralNetwork {
    var epoch: int
    var alpha: real
    var regularization: int
    var lambda: real
    var percentualtraining: int
    var lossfunctiontype: int
    var layers: int
    var firstlayer: Layer?
    var lastlayer: Layer?
    ghost var cells: seq<LayerCells>

    constructor Malloc() {
    }
  }

  datatype NeuronCells = NeuronCells(neuron: Neuron, weights: seq<Weight>)

  datatype LayerCells = LayerCells(layer: Layer, neurons: seq<NeuronCells>)

  // ----- which cells there are

  ghost function Neurons(ns: seq<NeuronCells>): set<Neuron> {
    set i | 0 <= i < |ns| :: ns[i].neuron
  }

  ghost function Weights(ns: seq<NeuronCells>): set<Weight> {
    set i, j | 0 <= i < |ns| && 0 <= j < |ns[i].weights| :: ns[i].weights[j]
  }

  ghost function Layers(ls: seq<LayerCells>): set<Layer> {
    set l | 0 <= l < |ls| :: ls[l].layer
  }

  ghost function AllNeurons(ls: seq<LayerCells>): set<Neuron> {
    set l, n | 0 <= l < |ls| && n in Neurons(ls[l].neurons) :: n
  }

  ghost function AllWeights(ls: seq<LayerCells>): set<Weight> {
    set l, w | 0 <= l < |ls| && w in Weights(ls[l].neurons) :: w
  }

  ghost predicate DistinctWeights(ws: seq<Weight>) {
    forall i, j :: 0 <= i < j < |ws| ==> ws[i] != ws[j]
  }

  ghost predicate ApartNeuron(a: NeuronCells, b: NeuronCells) {
    a.neuron != b.neuron && forall j :: 0 <= j < |a.weights| ==> a.weights[j] !in b.weights
  }

  ghost predicate SeparateNeurons(ns: seq<NeuronCells>) {
    && (forall i :: 0 <= i < |ns| ==> DistinctWeights(ns[i].weights))
    && (forall i, j :: 0 <= i < |ns| && 0 <= j < |ns| && i != j ==> ApartNeuron(ns[i], ns[j]))
  }

  ghost predicate ApartLayer(a: seq<NeuronCells>, b: seq<NeuronCells>) {
    Neurons(a) !! Neurons(b) && Weights(a) !! Weights(b)
  }

  /** No cell occurs twice in a network. */
  ghost predicate Separate(ls: seq<LayerCells>) {
    && (forall l :: 0 <= l < |ls| ==> SeparateNeurons(ls[l].neurons))
    && (forall l, m :: 0 <= l < |ls| && 0 <= m < |ls| && l != m ==>
          ls[l].layer != ls[m].layer && ApartLayer(ls[l].neurons, ls[m].neurons))
  }

  ghost predicate Apart(a: seq<LayerCells>, b: seq<LayerCells>) {
    Layers(a) !! Layers(b) && AllNeurons(a) !! AllNeurons(b) && AllWeights(a) !! AllWeights(b)
  }

  // ----- how they are linked; in a copy a single cell is also linked to itself

  function WeightAt(ws: seq<Weight>, j: nat): Weight? {
    if j < |ws| then ws[j] else null
  }

  function NeuronAt(ns: seq<NeuronCells>, i: nat): Neuron? {
    if i < |ns| then ns[i].neuron else null
  }

  function LayerAt(ls: seq<LayerCells>, l: nat): Layer? {
    if l < |ls| then ls[l].layer else null
  }

  ghost predicate NextWeight(ws: seq<Weight>, j: nat, copied: bool)
    requires j < |ws|
    reads ws`nextweight
  {
    ws[j].nextweight == if copied && |ws| == 1 then ws[0] else WeightAt(ws, j + 1)
  }

  ghost predicate NextNeuron(ns: seq<NeuronCells>, i: nat, copied: bool)
    requires i < |ns|
    reads Neurons(ns)`nextneuron
  {
    ns[i].neuron.nextneuron == if copied && |ns| == 1 then ns[0].neuron else NeuronAt(ns, i + 1)
  }

  ghost predicate NextLayer(ls: seq<LayerCells>, l: nat, copied: bool)
    requires l < |ls|
    reads Layers(ls)`nextlayer
  {
    ls[l].layer.nextlayer == if copied && |ls| == 1 then ls[0].layer else LayerAt(ls, l + 1)
  }

  ghost predicate WeightsLinked(n: Neuron, ws: seq<Weight>, copied: bool)
    reads n`firstweight, ws`nextweight
  {
    n.firstweight == WeightAt(ws, 0) && forall j :: 0 <= j < |ws| ==> NextWeight(ws, j, copied)
  }

  ghost predicate NeuronsLinked(c: LayerCells, copied: bool)
    reads c.layer`firstneuron, Neurons(c.neurons)`nextneuron, Neurons(c.neurons)`firstweight
    reads Weights(c.neurons)`nextweight
  {
    var ns := c.neurons;
    && c.layer.firstneuron == NeuronAt(ns, 0)
    && (forall i :: 0 <= i < |ns| ==> NextNeuron(ns, i, copied))
    && forall i :: 0 <= i < |ns| ==> WeightsLinked(ns[i].neuron, ns[i].weights, copied)
  }

  ghost predicate LayersLinked(first: Layer?, ls: seq<LayerCells>, copied: bool)
    reads Layers(ls)`nextlayer, Layers(ls)`firstneuron, AllNeurons(ls)`nextneuron, AllNeurons(ls)`firstweight
    reads AllWeights(ls)`nextweight
  {
    && first == LayerAt(ls, 0)
    && (forall l :: 0 <= l < |ls| ==> NextLayer(ls, l, copied))
    && forall l :: 0 <= l < |ls| ==> NeuronsLinked(ls[l], copied)
  }

  /** Following the `next` links visits every cell once, in order, and ends. */
  ghost predicate Walkable(n: NeuralNetwork)
    reads n`firstlayer, n`cells
    reads Layers(n.cells)`nextlayer, Layers(n.cells)`firstneuron
    reads AllNeurons(n.cells)`nextneuron, AllNeurons(n.cells)`firstweight, AllWeights(n.cells)`nextweight
  {
    Separate(n.cells) && LayersLinked(n.firstlayer, n.cells, false)
  }

  // ----- parameters

  ghost function WeightValues(ws: seq<Weight>): (v: seq<real>)
    reads ws`weight
    ensures |v| == |ws| && forall j :: 0 <= j < |ws| ==> v[j] == ws[j].weight
  {
    if ws == [] then [] else WeightValues(ws[..|ws| - 1]) + [ws[|ws| - 1].weight]
  }

  ghost function ValueOf(c: NeuronCells): NeuronValue
    reads c.neuron`bias, c.weights`weight
  {
    NeuronValue(c.neuron.bias, WeightValues(c.weights))
  }

  ghost function LayerParameters(ns: seq<NeuronCells>): (v: LayerValue)
    reads Neurons(ns)`bias, Weights(ns)`weight
    ensures |v| == |ns| && forall i :: 0 <= i < |ns| ==> v[i] == ValueOf(ns[i])
  {
    if ns == [] then [] else LayerParameters(ns[..|ns| - 1]) + [ValueOf(ns[|ns| - 1])]
  }

  ghost function Parameters(ls: seq<LayerCells>): (v: NetValue)
    reads AllNeurons(ls)`bias, AllWeights(ls)`weight
    ensures |v| == |ls| && forall l :: 0 <= l < |ls| ==> v[l] == LayerParameters(ls[l].neurons)
  {
    if ls == [] then [] else Parameters(ls[..|ls| - 1]) + [LayerParameters(ls[|ls| - 1].neurons)]
  }

  // ----- the other way round; in a copy the first cell is linked back to itself

  ghost predicate PreviousWeight(ws: seq<Weight>, j: nat, copied: bool)
    requires j < |ws|
    reads ws`previousweight
  {
    ws[j].previousweight == if j > 0 then ws[j - 1] else if copied then ws[0] else null
  }

  ghost predicate PreviousNeuron(ns: seq<NeuronCells>, i: nat, copied: bool)
    requires i < |ns|
    reads Neurons(ns)`previousneuron
  {
    ns[i].neuron.previousneuron == if i > 0 then ns[i - 1].neuron else if copied then ns[0].neuron else null
  }

  ghost predicate PreviousLayer(ls: seq<LayerCells>, l: nat, copied: bool)
    requires l < |ls|
    reads Layers(ls)`previouslayer
  {
    ls[l].layer.previouslayer == if l > 0 then ls[l - 1].layer else if copied then ls[0].layer else null
  }

  ghost predicate WeightsLinkedBack(n: Neuron, ws: seq<Weight>, copied: bool)
    reads n`lastweight, ws`previousweight
  {
    && n.lastweight == (if ws == [] then null else ws[|ws| - 1])
    && forall j :: 0 <= j < |ws| ==> PreviousWeight(ws, j, copied)
  }

  ghost predicate NeuronsLinkedBack(c: LayerCells, copied: bool)
    reads c.layer`lastneuron, Neurons(c.neurons)`previousneuron, Neurons(c.neurons)`lastweight
    reads Weights(c.neurons)`previousweight
  {
    var ns := c.neurons;
    && c.layer.lastneuron == (if ns == [] then null else ns[|ns| - 1].neuron)
    && (forall i :: 0 <= i < |ns| ==> PreviousNeuron(ns, i, copied))
    && forall i :: 0 <= i < |ns| ==> WeightsLinkedBack(ns[i].neuron, ns[i].weights, copied)
  }

  ghost predicate LayersLinkedBack(last: Layer?, ls: seq<LayerCells>, copied: bool)
    reads Layers(ls)`previouslayer, Layers(ls)`lastneuron
    reads AllNeurons(ls)`previousneuron, AllNeurons(ls)`lastweight, AllWeights(ls)`previousweight
  {
    && last == (if ls == [] then null else ls[|ls| - 1].layer)
    && (forall l :: 0 <= l < |ls| ==> PreviousLayer(ls, l, copied))
    && forall l :: 0 <= l < |ls| ==> NeuronsLinkedBack(ls[l], copied)
  }

  // ----- everything else a network holds

  datatype NeuronContent = NeuronContent(neurontype: bytes, weights: int, activation: real, bias: real,
                                         list: seq<real>)

  datatype LayerContent = LayerContent(activationfunctiontype: int, neurons: int, list: seq<NeuronContent>)

  datatype NetContent = NetContent(epoch: int, alpha: real, regularization: int, lambda: real,
                                   percentualtraining: int, lossfunctiontype: int, layers: int,
                                   list: seq<LayerContent>)

  ghost function ContentOfNeuron(c: NeuronCells): (n: NeuronContent)
    reads c.neuron`neurontype, c.neuron`weights, c.neuron`activationfunctionvalue, c.neuron`bias, c.weights`weight
    ensures n.neurontype == c.neuron.neurontype && n.weights == c.neuron.weights && n.bias == c.neuron.bias
    ensures n.activation == c.neuron.activationfunctionvalue && |n.list| == |c.weights|
  {
    var n := c.neuron;
    NeuronContent(n.neurontype, n.weights, n.activationfunctionvalue, n.bias, WeightValues(c.weights))
  }

  ghost function ContentOfNeurons(ns: seq<NeuronCells>): (v: seq<NeuronContent>)
    reads Neurons(ns)`neurontype, Neurons(ns)`weights, Neurons(ns)`activationfunctionvalue, Neurons(ns)`bias
    reads Weights(ns)`weight
    ensures |v| == |ns| && forall i :: 0 <= i < |ns| ==> v[i] == ContentOfNeuron(ns[i])
  {
    if ns == [] then [] else ContentOfNeurons(ns[..|ns| - 1]) + [ContentOfNeuron(ns[|ns| - 1])]
  }

  ghost function ContentOfLayer(c: LayerCells): (l: LayerContent)
    reads c.layer`activationfunctiontype, c.layer`neurons
    reads Neurons(c.neurons)`neurontype, Neurons(c.neurons)`weights, Neurons(c.neurons)`activationfunctionvalue
    reads Neurons(c.neurons)`bias, Weights(c.neurons)`weight
    ensures l.activationfunctiontype == c.layer.activationfunctiontype && l.neurons == c.layer.neurons
    ensures |l.list| == |c.neurons|
  {
    LayerContent(c.layer.activationfunctiontype, c.layer.neurons, ContentOfNeurons(c.neurons))
  }

  ghost function ContentOfLayers(ls: seq<LayerCells>): (v: seq<LayerContent>)
    reads Layers(ls)`activationfunctiontype, Layers(ls)`neurons
    reads AllNeurons(ls)`neurontype, AllNeurons(ls)`weights, AllNeurons(ls)`activationfunctionvalue
    reads AllNeurons(ls)`bias, AllWeights(ls)`weight
    ensures |v| == |ls| && forall l :: 0 <= l < |ls| ==> v[l] == ContentOfLayer(ls[l])
  {
    if ls == [] then [] else ContentOfLayers(ls[..|ls| - 1]) + [ContentOfLayer(ls[|ls| - 1])]
  }

  ghost function ContentOf(n: NeuralNetwork): (c: NetContent)
    reads n, Layers(n.cells)`activationfunctiontype, Layers(n.cells)`neurons
    reads AllNeurons(n.cells)`neurontype, AllNeurons(n.cells)`weights
    reads AllNeurons(n.cells)`activationfunctionvalue, AllNeurons(n.cells)`bias, AllWeights(n.cells)`weight
    ensures c.epoch == n.epoch && c.alpha == n.alpha && c.regularization == n.regularization && c.lambda == n.lambda
    ensures c.percentualtraining == n.percentualtraining && c.lossfunctiontype == n.lossfunctiontype
    ensures c.layers == n.layers && |c.list| == |n.cells|
  {
    NetContent(n.epoch, n.alpha, n.regularization, n.lambda, n.percentualtraining, n.lossfunctiontype, n.layers,
               ContentOfLayers(n.cells))
  }

  /** The biases and weights among it. */
  function ParametersIn(ls: seq<LayerContent>): NetValue {
    seq(|ls|, l requires 0 <= l < |ls| => ParametersOfLayer(ls[l]))
  }

  function ParametersOfLayer(c: LayerContent): LayerValue {
    seq(|c.list|, i requires 0 <= i < |c.list| => NeuronValue(c.list[i].bias, c.list[i].list))
  }

  lemma {:induction false} ContentHasParameters(ls: seq<LayerCells>)
    ensures ParametersIn(ContentOfLayers(ls)) == Parameters(ls)
  {
    hide WeightValues;
    forall l | 0 <= l < |ls| ensures ParametersOfLayer(ContentOfLayer(ls[l])) == LayerParameters(ls[l].neurons) {
    }
  }

  // ----- facts about the cells

  lemma {:induction false} WeightValuesAt(ws: seq<Weight>)
    ensures |WeightValues(ws)| == |ws| && forall j :: 0 <= j < |ws| ==> WeightValues(ws)[j] == ws[j].weight
  {
  }

  lemma {:induction false} WeightValuesAre(ws: seq<Weight>, v: seq<real>)
    requires |v| == |ws| && forall j :: 0 <= j < |ws| ==> ws[j].weight == v[j]
    ensures WeightValues(ws) == v
  {
  }

  lemma {:induction false} ApartAt(a: seq<NeuronCells>, b: seq<NeuronCells>, i: nat, j: nat)
    requires ApartLayer(a, b) && i < |a| && j < |b|
    ensures ApartNeuron(a[i], b[j])
  {
    assert a[i].neuron in Neurons(a) && b[j].neuron in Neurons(b);
    forall k | 0 <= k < |a[i].weights| ensures a[i].weights[k] !in b[j].weights {
      InWeights(a, i, a[i].weights[k]);
      if a[i].weights[k] in b[j].weights {
        InWeights(b, j, a[i].weights[k]);
      }
    }
  }

  lemma {:induction false} InWeights(ns: seq<NeuronCells>, i: nat, w: Weight)
    requires i < |ns| && w in ns[i].weights
    ensures w in Weights(ns)
  {
  }

  lemma {:induction false} ApartFrom(a: seq<NeuronCells>, b: seq<NeuronCells>, i: nat)
    requires ApartLayer(a, b) && i < |a|
    ensures forall j :: 0 <= j < |b| ==> ApartNeuron(b[j], a[i]) && ApartNeuron(a[i], b[j])
  {
    forall j | 0 <= j < |b| ensures ApartNeuron(b[j], a[i]) && ApartNeuron(a[i], b[j]) {
      ApartAt(a, b, i, j);
      ApartAt(b, a, j, i);
    }
  }

  lemma {:induction false} LayerParametersAre(ns: seq<NeuronCells>, v: LayerValue)
    requires |v| == |ns| && forall i :: 0 <= i < |ns| ==> ValueOf(ns[i]) == v[i]
    ensures LayerParameters(ns) == v
  {
  }

  lemma {:induction false} LayerParametersAt(ns: seq<NeuronCells>)
    ensures |LayerParameters(ns)| == |ns|
    ensures forall i :: 0 <= i < |ns| ==> LayerParameters(ns)[i] == ValueOf(ns[i])
  {
  }

  lemma {:induction false} NeuronLinkedAt(c: LayerCells, i: nat)
    requires NeuronsLinked(c, false) && i < |c.neurons|
    ensures c.neurons[i].neuron.nextneuron == NeuronAt(c.neurons, i + 1)
    ensures WeightsLinked(c.neurons[i].neuron, c.neurons[i].weights, false)
  {
    assert NextNeuron(c.neurons, i, false);
  }

  lemma {:induction false} FirstNeuron(c: LayerCells)
    requires NeuronsLinked(c, false)
    ensures c.layer.firstneuron == NeuronAt(c.neurons, 0)
  {
  }

  lemma {:induction false} SeparateAt(ns: seq<NeuronCells>, i: nat)
    requires SeparateNeurons(ns) && i < |ns|
    ensures DistinctWeights(ns[i].weights)
    ensures forall j :: 0 <= j < |ns| && i != j ==> ApartNeuron(ns[j], ns[i])
  {
  }

  lemma {:induction false} CellsOf(ns: seq<NeuronCells>, i: nat)
    requires i < |ns|
    ensures NeuronAt(ns, i) == ns[i].neuron && ns[i].neuron in Neurons(ns)
    ensures forall j :: 0 <= j < |ns[i].weights| ==> ns[i].weights[j] in Weights(ns)
  {
  }

  lemma {:induction false} OneNeuron(ns: seq<NeuronCells>, before: LayerValue, i: nat, v: NeuronValue)
    requires i < |ns| == |before| && ValueOf(ns[i]) == v
    requires forall j :: 0 <= j < |ns| && j != i ==> ValueOf(ns[j]) == before[j]
    ensures LayerParameters(ns) == before[i := v]
  {
    hide LayerParameters, WeightValues;
    LayerParametersAre(ns, before[i := v]);
  }

  lemma {:induction false} FirstLayer(n: NeuralNetwork)
    requires Walkable(n)
    ensures n.firstlayer == LayerAt(n.cells, 0)
  {
  }

  lemma {:induction false} LayerLinkedAt(n: NeuralNetwork, l: nat)
    requires Walkable(n) && l < |n.cells|
    ensures n.cells[l].layer.nextlayer == LayerAt(n.cells, l + 1) && NeuronsLinked(n.cells[l], false)
  {
    assert NextLayer(n.cells, l, false);
  }

  lemma {:induction false} CellsOfLayer(ls: seq<LayerCells>, l: nat)
    requires l < |ls|
    ensures LayerAt(ls, l) == ls[l].layer
    ensures Neurons(ls[l].neurons) <= AllNeurons(ls) && Weights(ls[l].neurons) <= AllWeights(ls)
  {
  }

  lemma {:induction false} SeparateLayer(n: NeuralNetwork, l: nat)
    requires Walkable(n) && l < |n.cells|
    ensures SeparateNeurons(n.cells[l].neurons)
  {
  }

  lemma {:induction false} SeparateLayers(n: NeuralNetwork, l: nat, m: nat)
    requires Walkable(n) && l < |n.cells| && m < |n.cells| && l != m
    ensures ApartLayer(n.cells[m].neurons, n.cells[l].neurons)
  {
  }

  lemma {:induction false} ApartLayers(a: seq<LayerCells>, b: seq<LayerCells>, l: nat)
    requires Apart(a, b) && l < |a|
    ensures forall n :: n in Neurons(a[l].neurons) ==> n !in AllNeurons(b)
    ensures forall w :: w in Weights(a[l].neurons) ==> w !in AllWeights(b)
    ensures l < |b| ==> ApartLayer(a[l].neurons, b[l].neurons)
  {
    hide Neurons, Weights, AllNeurons, AllWeights;
    CellsOfLayer(a, l);
    if l < |b| {
      CellsOfLayer(b, l);
    }
  }

  lemma {:induction false} NoneOf(a: seq<NeuronCells>, b: seq<NeuronCells>)
    requires ApartLayer(a, b)
    ensures forall n :: n in Neurons(a) ==> n !in Neurons(b)
    ensures forall w :: w in Weights(a) ==> w !in Weights(b)
  {
    hide Neurons, Weights;
  }

  lemma {:induction false} ParametersAre(ls: seq<LayerCells>, v: NetValue)
    requires |v| == |ls| && forall l :: 0 <= l < |ls| ==> LayerParameters(ls[l].neurons) == v[l]
    ensures Parameters(ls) == v
  {
    hide LayerParameters;
  }

  lemma {:induction false} ParametersLength(ls: seq<LayerCells>)
    ensures |Parameters(ls)| == |ls|
  {
  }

  lemma {:induction false} ParametersAt(ls: seq<LayerCells>)
    ensures |Parameters(ls)| == |ls|
    ensures forall l :: 0 <= l < |ls| ==> Parameters(ls)[l] == LayerParameters(ls[l].neurons)
  {
    hide LayerParameters;
  }

  lemma {:induction false} OneLayer(ls: seq<LayerCells>, before: NetValue, l: nat, v: LayerValue)
    requires l < |ls| == |before| && LayerParameters(ls[l].neurons) == v
    requires forall m :: 0 <= m < |ls| && m != l ==> LayerParameters(ls[m].neurons) == before[m]
    ensures Parameters(ls) == before[l := v]
  {
    hide Parameters, LayerParameters;
    ParametersAre(ls, before[l := v]);
  }
}
