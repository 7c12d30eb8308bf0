/**
 Copying and freeing networks (FederatedLearningServer/src/federatedlearning.c:62-225). The
 three copying loops share a branch for the first cell that has no `else`, so that the
 first cell of every list is also linked behind itself.
 */
module NetworkCopy {
  import opened Network
  import opened LinkedNetwork

  // ----- one neuron and its weights

  method CopyWeight(currentweight: Weight) returns (newweight: Weight)
    ensures fresh(newweight) && newweight.weight == currentweight.weight
  {
    newweight := new Weight.Malloc();
    newweight.weight := currentweight.weight;
  }

  /** The crosswiring of one more weight. */
  method AppendWeight(n: Neuron, w: Weight, ghost ws: seq<Weight>)
    requires WeightsLinked(n, ws, true) && WeightsLinkedBack(n, ws, true) && DistinctWeights(ws) && w !in ws
    modifies n`firstweight, n`lastweight, w`nextweight, w`previousweight, ws`nextweight
    ensures WeightsLinked(n, ws + [w], true) && WeightsLinkedBack(n, ws + [w], true)
  {
    ghost var all := ws + [w];
    assert ws != [] ==> NextWeight(ws, |ws| - 1, true) && PreviousWeight(ws, 0, true);
    if n.firstweight == null {
      w.previousweight := null;
      w.nextweight := null;
      n.firstweight := w;
      n.lastweight := w;
    }
    w.nextweight := null;
    w.previousweight := n.lastweight;
    n.lastweight.nextweight := w;
    n.lastweight := w;
    forall j | 0 <= j < |all| ensures NextWeight(all, j, true) && PreviousWeight(all, j, true) {
      assert j < |ws| ==> old(NextWeight(ws, j, true)) && old(PreviousWeight(ws, j, true));
    }
  }

  method CopyNeuron(neuronsource: Neuron, ghost from: NeuronCells) returns (newneuron: Neuron, ghost cells: NeuronCells)
    requires from.neuron == neuronsource && WeightsLinked(neuronsource, from.weights, false)
    ensures cells.neuron == newneuron && fresh(newneuron) && fresh(cells.weights) && DistinctWeights(cells.weights)
    ensures WeightsLinked(newneuron, cells.weights, true) && WeightsLinkedBack(newneuron, cells.weights, true)
    ensures ContentOfNeuron(cells) == ContentOfNeuron(from)
  {
    hide WeightValues;
    newneuron := new Neuron.Malloc();
    newneuron.neurontype := neuronsource.neurontype;
    newneuron.weights := neuronsource.weights;
    newneuron.activationfunctionvalue := neuronsource.activationfunctionvalue;
    newneuron.bias := neuronsource.bias;
    newneuron.firstweight := null;
    newneuron.lastweight := null;
    ghost var ws: seq<Weight> := CopyWeights(neuronsource, newneuron, from.weights);
    cells := NeuronCells(newneuron, ws);
    WeightValuesAt(from.weights);
    WeightValuesAre(ws, WeightValues(from.weights));
  }

  /** The loop over the weights. */
  method CopyWeights(neuronsource: Neuron, newneuron: Neuron, ghost from: seq<Weight>) returns (ghost ws: seq<Weight>)
    requires WeightsLinked(neuronsource, from, false) && newneuron != neuronsource
    requires newneuron.firstweight == null && newneuron.lastweight == null
    modifies newneuron`firstweight, newneuron`lastweight
    ensures fresh(ws) && DistinctWeights(ws) && |ws| == |from|
    ensures WeightsLinked(newneuron, ws, true) && WeightsLinkedBack(newneuron, ws, true)
    ensures forall j :: 0 <= j < |ws| ==> ws[j].weight == from[j].weight
  {
    hide WeightsLinkedBack;
    ws := [];
    NoWeights(newneuron);
    var currentweight := neuronsource.firstweight;
    while currentweight != null
      invariant |ws| <= |from| && currentweight == WeightAt(from, |ws|)
      invariant fresh(ws) && DistinctWeights(ws)
      invariant WeightsLinked(newneuron, ws, true) && WeightsLinkedBack(newneuron, ws, true)
      invariant forall j :: 0 <= j < |ws| ==> ws[j].weight == from[j].weight
      decreases |from| - |ws|
    {
      assert old(NextWeight(from, |ws|, false));
      var newweight := CopyWeight(currentweight);
      AppendWeight(newneuron, newweight, ws);
      currentweight := currentweight.nextweight;
      ws := ws + [newweight];
    }
  }

  lemma NoWeights(n: Neuron)
    requires n.firstweight == null && n.lastweight == null
    ensures WeightsLinked(n, [], true) && WeightsLinkedBack(n, [], true)
    ensures WeightsLinked(n, [], false) && WeightsLinkedBack(n, [], false)
  {
  }

  // ----- one layer and its neurons

  /** The crosswiring of one more neuron. */
  method AppendNeuron(l: Layer, n: Neuron, ghost ns: seq<NeuronCells>, ghost ws: seq<Weight>)
    requires NeuronsLinked(LayerCells(l, ns), true) && NeuronsLinkedBack(LayerCells(l, ns), true)
    requires n !in Neurons(ns) && WeightsLinked(n, ws, true) && WeightsLinkedBack(n, ws, true)
    modifies l`firstneuron, l`lastneuron, n`nextneuron, n`previousneuron, Neurons(ns)`nextneuron
    ensures NeuronsLinked(LayerCells(l, ns + [NeuronCells(n, ws)]), true)
    ensures NeuronsLinkedBack(LayerCells(l, ns + [NeuronCells(n, ws)]), true)
  {
    hide WeightsLinked, WeightsLinkedBack;
    ghost var all := ns + [NeuronCells(n, ws)];
    assert ns != [] ==> NextNeuron(ns, |ns| - 1, true) && PreviousNeuron(ns, 0, true);
    assert forall i :: 0 <= i < |ns| ==> ns[i].neuron in Neurons(ns);
    if l.firstneuron == null {
      n.previousneuron := null;
      n.nextneuron := null;
      l.firstneuron := n;
      l.lastneuron := n;
    }
    n.nextneuron := null;
    n.previousneuron := l.lastneuron;
    l.lastneuron.nextneuron := n;
    l.lastneuron := n;
    forall i | 0 <= i < |all| ensures NextNeuron(all, i, true) && PreviousNeuron(all, i, true) {
      assert i < |ns| ==> old(NextNeuron(ns, i, true)) && old(PreviousNeuron(ns, i, true));
    }
    forall i | 0 <= i < |all|
      ensures WeightsLinked(all[i].neuron, all[i].weights, true)
      ensures WeightsLinkedBack(all[i].neuron, all[i].weights, true)
    {
      assert i < |ns| ==> old(WeightsLinked(ns[i].neuron, ns[i].weights, true))
                          && old(WeightsLinkedBack(ns[i].neuron, ns[i].weights, true));
    }
  }

  lemma {:induction false} CellsAppended(ns: seq<NeuronCells>, c: NeuronCells)
    ensures Neurons(ns + [c]) == Neurons(ns) + {c.neuron}
    ensures Weights(ns + [c]) == Weights(ns) + set w | w in c.weights
  {
    var all := ns + [c];
    assert all[|ns|] == c;
    assert forall i :: 0 <= i < |ns| ==> all[i] == ns[i];
    forall w | w in c.weights ensures w in Weights(all) {
      InWeights(all, |ns|, w);
    }
    assert forall n :: n in Neurons(ns) ==> n in Neurons(all);
    forall w | w in Weights(ns) ensures w in Weights(all) {
      var i, j :| 0 <= i < |ns| && 0 <= j < |ns[i].weights| && w == ns[i].weights[j];
      InWeights(all, i, w);
    }
  }

  lemma {:induction false} NeuronAppended(ns: seq<NeuronCells>, c: NeuronCells)
    requires SeparateNeurons(ns) && DistinctWeights(c.weights) && c.neuron !in Neurons(ns)
    requires forall j :: 0 <= j < |c.weights| ==> c.weights[j] !in Weights(ns)
    ensures SeparateNeurons(ns + [c])
  {
    forall i | 0 <= i < |ns| ensures ApartNeuron(ns[i], c) && ApartNeuron(c, ns[i]) {
      assert ns[i].neuron in Neurons(ns);
      forall j | 0 <= j < |ns[i].weights| ensures ns[i].weights[j] !in c.weights {
        InWeights(ns, i, ns[i].weights[j]);
      }
      forall j | 0 <= j < |c.weights| ensures c.weights[j] !in ns[i].weights {
        if c.weights[j] in ns[i].weights {
          InWeights(ns, i, c.weights[j]);
        }
      }
    }
  }

  lemma NoNeurons(l: Layer)
    requires l.firstneuron == null && l.lastneuron == null
    ensures NeuronsLinked(LayerCells(l, []), true) && NeuronsLinkedBack(LayerCells(l, []), true)
    ensures NeuronsLinked(LayerCells(l, []), false) && NeuronsLinkedBack(LayerCells(l, []), false)
    ensures Neurons([]) == {} && Weights([]) == {} && CopiedNeurons(l, [])
  {
  }

  lemma {:induction false} NeuronContentAt(ns: seq<NeuronCells>, i: nat)
    requires i < |ns|
    ensures |ContentOfNeurons(ns)| == |ns| && ContentOfNeurons(ns)[i] == ContentOfNeuron(ns[i])
  {
    hide ContentOfNeuron;
  }

  lemma {:induction false} NeuronContentAppended(ns: seq<NeuronCells>, c: NeuronCells)
    ensures ContentOfNeurons(ns + [c]) == ContentOfNeurons(ns) + [ContentOfNeuron(c)]
  {
    hide ContentOfNeuron;
    assert (ns + [c])[..|ns|] == ns;
  }

  /** Some neurons of a copied layer. */
  ghost predicate CopiedNeurons(l: Layer, ns: seq<NeuronCells>)
    reads l`firstneuron, l`lastneuron, Neurons(ns)`nextneuron, Neurons(ns)`firstweight
    reads Neurons(ns)`previousneuron, Neurons(ns)`lastweight, Weights(ns)`nextweight, Weights(ns)`previousweight
  {
    && SeparateNeurons(ns)
    && NeuronsLinked(LayerCells(l, ns), true) && NeuronsLinkedBack(LayerCells(l, ns), true)
  }

  /** One turn of the loop over the neurons. */
  method CopyNextNeuron(l: Layer, n: Neuron, ghost ns: seq<NeuronCells>, ghost from: NeuronCells)
    returns (ghost cells: NeuronCells)
    requires CopiedNeurons(l, ns) && from.neuron == n && WeightsLinked(n, from.weights, false)
    modifies l`firstneuron, l`lastneuron, Neurons(ns)`nextneuron
    ensures fresh(cells.neuron) && fresh(cells.weights) && CopiedNeurons(l, ns + [cells])
    ensures ContentOfNeurons(ns + [cells]) == old(ContentOfNeurons(ns) + [ContentOfNeuron(from)])
  {
    hide WeightsLinked, WeightsLinkedBack, NeuronsLinked, NeuronsLinkedBack, SeparateNeurons, Neurons, Weights;
    hide ContentOfNeuron, ContentOfNeurons, WeightValues, DistinctWeights;
    assert allocated(Neurons(ns)) && allocated(Weights(ns));
    var newneuron;
    newneuron, cells := CopyNeuron(n, from);
    NeuronAppended(ns, cells);
    AppendNeuron(l, newneuron, ns, cells.weights);
    NeuronContentAppended(ns, cells);
  }

  /** The loop over the neurons. */
  method CopyNeurons(layersource: Layer, newlayer: Layer, ghost from: LayerCells) returns (ghost ns: seq<NeuronCells>)
    requires from.layer == layersource && NeuronsLinked(from, false) && newlayer != layersource
    requires newlayer.firstneuron == null && newlayer.lastneuron == null
    modifies newlayer`firstneuron, newlayer`lastneuron
    ensures fresh(Neurons(ns)) && fresh(Weights(ns)) && CopiedNeurons(newlayer, ns)
    ensures ContentOfNeurons(ns) == ContentOfNeurons(from.neurons)
  {
    hide WeightsLinked, NeuronsLinked, CopiedNeurons, Neurons, Weights, ContentOfNeuron, ContentOfNeurons;
    ghost var content := ContentOfNeurons(from.neurons);
    assert allocated(Neurons(from.neurons)) && allocated(Weights(from.neurons));
    ns := [];
    NoNeurons(newlayer);
    FirstNeuron(from);
    ContentOfNone(from.neurons);
    var currentneuron := layersource.firstneuron;
    while currentneuron != null
      invariant |ns| <= |from.neurons| == |content| && currentneuron == NeuronAt(from.neurons, |ns|)
      invariant NeuronsLinked(from, false) && ContentOfNeurons(from.neurons) == content
      invariant fresh(Neurons(ns)) && fresh(Weights(ns)) && CopiedNeurons(newlayer, ns)
      invariant ContentOfNeurons(ns) == content[..|ns|]
      decreases |from.neurons| - |ns|
    {
      NeuronLinkedAt(from, |ns|);
      NeuronContentAt(from.neurons, |ns|);
      ghost var cells := CopyNextNeuron(newlayer, currentneuron, ns, from.neurons[|ns|]);
      CellsAppended(ns, cells);
      NeuronLinkedAt(from, |ns|);
      currentneuron := currentneuron.nextneuron;
      assert content[..|ns|] + [content[|ns|]] == content[..|ns| + 1];
      ns := ns + [cells];
    }
  }

  lemma {:induction false} ContentOfNone(ns: seq<NeuronCells>)
    ensures ContentOfNeurons([]) == [] && |ContentOfNeurons(ns)| == |ns|
  {
    hide ContentOfNeuron;
  }

  method CopyLayer(layersource: Layer, ghost from: LayerCells) returns (newlayer: Layer, ghost cells: LayerCells)
    requires from.layer == layersource && NeuronsLinked(from, false)
    ensures cells.layer == newlayer && fresh(newlayer) && fresh(Neurons(cells.neurons)) && fresh(Weights(cells.neurons))
    ensures SeparateNeurons(cells.neurons) && NeuronsLinked(cells, true) && NeuronsLinkedBack(cells, true)
    ensures ContentOfLayer(cells) == ContentOfLayer(from)
  {
    hide NeuronsLinked, NeuronsLinkedBack, SeparateNeurons, Neurons, Weights, ContentOfNeurons;
    assert allocated(Neurons(from.neurons)) && allocated(Weights(from.neurons));
    newlayer := new Layer.Malloc();
    newlayer.activationfunctiontype := layersource.activationfunctiontype;
    newlayer.neurons := layersource.neurons;
    newlayer.firstneuron := null;
    newlayer.lastneuron := newlayer.firstneuron;
    ghost var ns := CopyNeurons(layersource, newlayer, from);
    cells := LayerCells(newlayer, ns);
  }

  // ----- the network and its layers

  /** The crosswiring of one more layer. */
  method AppendLayer(n: NeuralNetwork, l: Layer, ghost ls: seq<LayerCells>, ghost c: LayerCells)
    requires LayersLinked(n.firstlayer, ls, true) && LayersLinkedBack(n.lastlayer, ls, true)
    requires c.layer == l && l !in Layers(ls) && NeuronsLinked(c, true) && NeuronsLinkedBack(c, true)
    modifies n`firstlayer, n`lastlayer, l`nextlayer, l`previouslayer, Layers(ls)`nextlayer
    ensures LayersLinked(n.firstlayer, ls + [c], true) && LayersLinkedBack(n.lastlayer, ls + [c], true)
  {
    hide NeuronsLinked, NeuronsLinkedBack;
    ghost var all := ls + [c];
    assert ls != [] ==> NextLayer(ls, |ls| - 1, true) && PreviousLayer(ls, 0, true);
    assert forall i :: 0 <= i < |ls| ==> ls[i].layer in Layers(ls);
    assert forall i :: 0 <= i < |all| ==> allocated(Neurons(all[i].neurons)) && allocated(Weights(all[i].neurons));
    if n.firstlayer == null {
      l.previouslayer := null;
      l.nextlayer := null;
      n.firstlayer := l;
      n.lastlayer := l;
    }
    l.nextlayer := null;
    l.previouslayer := n.lastlayer;
    n.lastlayer.nextlayer := l;
    n.lastlayer := l;
    forall i | 0 <= i < |all| ensures NextLayer(all, i, true) && PreviousLayer(all, i, true) {
      assert i < |ls| ==> old(NextLayer(ls, i, true)) && old(PreviousLayer(ls, i, true));
    }
    forall i | 0 <= i < |all| ensures NeuronsLinked(all[i], true) && NeuronsLinkedBack(all[i], true) {
      assert i < |ls| ==> old(NeuronsLinked(ls[i], true)) && old(NeuronsLinkedBack(ls[i], true));
    }
  }

  lemma {:induction false} AllCellsAppended(ls: seq<LayerCells>, c: LayerCells)
    ensures Layers(ls + [c]) == Layers(ls) + {c.layer}
    ensures AllNeurons(ls + [c]) == AllNeurons(ls) + Neurons(c.neurons)
    ensures AllWeights(ls + [c]) == AllWeights(ls) + Weights(c.neurons)
  {
    hide Neurons, Weights;
    var all := ls + [c];
    assert all[|ls|] == c;
    assert forall l :: 0 <= l < |ls| ==> all[l] == ls[l];
    assert forall n :: n in AllNeurons(ls) ==> n in AllNeurons(all);
    assert forall w :: w in AllWeights(ls) ==> w in AllWeights(all);
    assert forall x :: x in Layers(ls) ==> x in Layers(all);
  }

  lemma {:induction false} LayerAppended(ls: seq<LayerCells>, c: LayerCells)
    requires Separate(ls) && SeparateNeurons(c.neurons) && c.layer !in Layers(ls)
    requires Neurons(c.neurons) !! AllNeurons(ls) && Weights(c.neurons) !! AllWeights(ls)
    ensures Separate(ls + [c])
  {
    hide Neurons, Weights, SeparateNeurons, AllNeurons, AllWeights;
    var all := ls + [c];
    forall l | 0 <= l < |ls|
      ensures ls[l].layer != c.layer && ApartLayer(ls[l].neurons, c.neurons) && ApartLayer(c.neurons, ls[l].neurons)
    {
      CellsOfLayer(ls, l);
      assert ls[l].layer in Layers(ls);
    }
  }

  lemma NoLayers()
    ensures LayersLinked(null, [], true) && LayersLinkedBack(null, [], true) && ContentOfLayers([]) == []
    ensures LayersLinked(null, [], false) && LayersLinkedBack(null, [], false)
    ensures Layers([]) == {} && AllNeurons([]) == {} && AllWeights([]) == {} && Separate([])
  {
  }

  lemma {:induction false} LayerContentAt(ls: seq<LayerCells>, l: nat)
    requires l < |ls|
    ensures |ContentOfLayers(ls)| == |ls| && ContentOfLayers(ls)[l] == ContentOfLayer(ls[l])
  {
    hide ContentOfLayer;
  }

  lemma {:induction false} LayerContentAppended(ls: seq<LayerCells>, c: LayerCells)
    ensures ContentOfLayers(ls + [c]) == ContentOfLayers(ls) + [ContentOfLayer(c)]
  {
    hide ContentOfLayer;
    assert (ls + [c])[..|ls|] == ls;
  }

  /** Some layers of the copy: fresh, separate and linked as copies are. */
  ghost predicate CopiedLayers(c: NeuralNetwork, ls: seq<LayerCells>)
    reads c`firstlayer, c`lastlayer
    reads Layers(ls)`nextlayer, Layers(ls)`firstneuron, Layers(ls)`previouslayer, Layers(ls)`lastneuron
    reads AllNeurons(ls)`nextneuron, AllNeurons(ls)`firstweight, AllNeurons(ls)`previousneuron
    reads AllNeurons(ls)`lastweight, AllWeights(ls)`nextweight, AllWeights(ls)`previousweight
  {
    Separate(ls) && LayersLinked(c.firstlayer, ls, true) && LayersLinkedBack(c.lastlayer, ls, true)
  }

  lemma NoneCopied(c: NeuralNetwork)
    requires c.firstlayer == null && c.lastlayer == null
    ensures CopiedLayers(c, [])
  {
    NoLayers();
  }

  /** One turn of the loop over the layers. */
  method CopyNextLayer(n: NeuralNetwork, l: Layer, ghost ls: seq<LayerCells>, ghost from: LayerCells)
    returns (ghost cells: LayerCells)
    requires CopiedLayers(n, ls) && from.layer == l && NeuronsLinked(from, false)
    modifies n`firstlayer, n`lastlayer, Layers(ls)`nextlayer
    ensures fresh(cells.layer) && fresh(Neurons(cells.neurons)) && fresh(Weights(cells.neurons))
    ensures CopiedLayers(n, ls + [cells])
    ensures ContentOfLayers(ls + [cells]) == old(ContentOfLayers(ls) + [ContentOfLayer(from)])
  {
    hide LayersLinked, LayersLinkedBack, NeuronsLinked, NeuronsLinkedBack, SeparateNeurons, Separate;
    hide Neurons, Weights, Layers, AllNeurons, AllWeights, ContentOfLayer, ContentOfLayers;
    assert allocated(Layers(ls)) && allocated(AllNeurons(ls)) && allocated(AllWeights(ls));
    assert allocated(Neurons(from.neurons)) && allocated(Weights(from.neurons));
    var newlayer;
    newlayer, cells := CopyLayer(l, from);
    LayerAppended(ls, cells);
    assert allocated(Neurons(cells.neurons)) && allocated(Weights(cells.neurons));
    AppendLayer(n, newlayer, ls, cells);
    LayerContentAppended(ls, cells);
  }

  ghost function SettingsOf(n: NeuralNetwork): NetContent
    reads n
  {
    NetContent(n.epoch, n.alpha, n.regularization, n.lambda, n.percentualtraining, n.lossfunctiontype, n.layers, [])
  }

  method CopySettings(neuralnetworksource: NeuralNetwork) returns (newneuralnetwork: NeuralNetwork)
    ensures fresh(newneuralnetwork) && newneuralnetwork.firstlayer == null && newneuralnetwork.lastlayer == null
    ensures SettingsOf(newneuralnetwork) == SettingsOf(neuralnetworksource)
  {
    newneuralnetwork := new NeuralNetwork.Malloc();
    newneuralnetwork.epoch := neuralnetworksource.epoch;
    newneuralnetwork.alpha := neuralnetworksource.alpha;
    newneuralnetwork.regularization := neuralnetworksource.regularization;
    newneuralnetwork.lambda := neuralnetworksource.lambda;
    newneuralnetwork.percentualtraining := neuralnetworksource.percentualtraining;
    newneuralnetwork.lossfunctiontype := neuralnetworksource.lossfunctiontype;
    newneuralnetwork.layers := neuralnetworksource.layers;
    newneuralnetwork.firstlayer := null;
    newneuralnetwork.lastlayer := newneuralnetwork.firstlayer;
  }

  /** `CopyNeuralNetwork`: equal contents in cells that did not exist before, none of them
      twice, in lists of the same lengths. */
  method CopyNeuralNetwork(neuralnetworksource: NeuralNetwork) returns (newneuralnetwork: NeuralNetwork)
    requires Walkable(neuralnetworksource)
    ensures fresh(newneuralnetwork) && fresh(Layers(newneuralnetwork.cells))
    ensures fresh(AllNeurons(newneuralnetwork.cells)) && fresh(AllWeights(newneuralnetwork.cells))
    ensures CopiedLayers(newneuralnetwork, newneuralnetwork.cells)
    ensures ContentOf(newneuralnetwork) == ContentOf(neuralnetworksource)
  {
    hide Walkable, CopiedLayers, NeuronsLinked, Neurons, Weights, Layers, AllNeurons, AllWeights;
    hide ContentOfLayer, ContentOfLayers;
    ghost var from := neuralnetworksource.cells;
    assert allocated(Layers(from)) && allocated(AllNeurons(from)) && allocated(AllWeights(from));
    newneuralnetwork := CopySettings(neuralnetworksource);
    newneuralnetwork.cells := CopyLayers(neuralnetworksource, newneuralnetwork);
  }

  /** The loop over the layers. */
  method CopyLayers(s: NeuralNetwork, c: NeuralNetwork) returns (ghost ls: seq<LayerCells>)
    requires Walkable(s) && c != s && c.firstlayer == null && c.lastlayer == null
    modifies c`firstlayer, c`lastlayer
    ensures fresh(Layers(ls)) && fresh(AllNeurons(ls)) && fresh(AllWeights(ls)) && CopiedLayers(c, ls)
    ensures ContentOfLayers(ls) == ContentOfLayers(s.cells)
  {
    hide Walkable, NeuronsLinked, Neurons, Weights, Layers, AllNeurons, AllWeights;
    hide Separate, LayersLinked, LayersLinkedBack, CopiedLayers, ContentOfLayer, ContentOfLayers;
    ghost var from := s.cells;
    ghost var content := ContentOfLayers(from);
    assert allocated(Layers(from)) && allocated(AllNeurons(from)) && allocated(AllWeights(from));
    ls := [];
    NoLayers();
    NoneCopied(c);
    FirstLayer(s);
    ContentLength(from);
    var currentlayer := s.firstlayer;
    while currentlayer != null
      invariant |ls| <= |from| == |content| && currentlayer == LayerAt(from, |ls|) && Walkable(s)
      invariant fresh(Layers(ls)) && fresh(AllNeurons(ls)) && fresh(AllWeights(ls)) && CopiedLayers(c, ls)
      invariant ContentOfLayers(ls) == content[..|ls|] && ContentOfLayers(from) == content
      decreases |from| - |ls|
    {
      LayerLinkedAt(s, |ls|);
      LayerContentAt(from, |ls|);
      ghost var cells := CopyNextLayer(c, currentlayer, ls, from[|ls|]);
      AllCellsAppended(ls, cells);
      LayerLinkedAt(s, |ls|);
      currentlayer := currentlayer.nextlayer;
      assert content[..|ls|] + [content[|ls|]] == content[..|ls| + 1];
      ls := ls + [cells];
    }
  }

  lemma {:induction false} ContentLength(ls: seq<LayerCells>)
    ensures |ContentOfLayers(ls)| == |ls|
  {
    hide ContentOfLayer;
  }

  // ----- when a walk over the copy ends

  /** Following the links from a weight reaches the end within `k` weights. */
  ghost predicate WeightsEnd(w: Weight?, k: nat)
    reads *
  {
    w == null || (k > 0 && WeightsEnd(w.nextweight, k - 1))
  }

  ghost predicate NeuronsEnd(n: Neuron?, k: nat, inner: nat)
    reads *
    decreases k
  {
    n == null || (k > 0 && WeightsEnd(n.firstweight, inner) && NeuronsEnd(n.nextneuron, k - 1, inner))
  }

  ghost predicate LayersEnd(l: Layer?, k: nat, inner: nat)
    reads *
    decreases k
  {
    l == null || (k > 0 && NeuronsEnd(l.firstneuron, inner, inner) && LayersEnd(l.nextlayer, k - 1, inner))
  }

  /** The three nested loops that print, convert or free a network come to an end. */
  ghost predicate WalkEnds(n: NeuralNetwork)
    reads *
  {
    exists k: nat :: LayersEnd(n.firstlayer, k, k)
  }

  // ----- a list that does not have exactly one element ends

  lemma {:induction false} WeightsDoEnd(ws: seq<Weight>, j: nat, k: nat)
    requires j <= |ws| <= j + k && |ws| != 1 && forall i :: 0 <= i < |ws| ==> NextWeight(ws, i, true)
    ensures WeightsEnd(WeightAt(ws, j), k)
    decreases k
  {
    if j < |ws| {
      assert NextWeight(ws, j, true);
      WeightsDoEnd(ws, j + 1, k - 1);
    }
  }

  predicate CopyableNeurons(ns: seq<NeuronCells>) {
    |ns| != 1 && forall i :: 0 <= i < |ns| ==> |ns[i].weights| != 1
  }

  lemma {:induction false} NeuronsDoEnd(c: LayerCells, i: nat, k: nat, inner: nat)
    requires NeuronsLinked(c, true) && CopyableNeurons(c.neurons) && i <= |c.neurons| <= i + k
    requires forall m :: 0 <= m < |c.neurons| ==> |c.neurons[m].weights| <= inner
    ensures NeuronsEnd(NeuronAt(c.neurons, i), k, inner)
    decreases k
  {
    if i < |c.neurons| {
      assert NextNeuron(c.neurons, i, true);
      WeightsDoEnd(c.neurons[i].weights, 0, inner);
      NeuronsDoEnd(c, i + 1, k - 1, inner);
    }
  }

  predicate CopyableCells(ls: seq<LayerCells>) {
    |ls| != 1 && forall l :: 0 <= l < |ls| ==> CopyableNeurons(ls[l].neurons)
  }

  predicate AtMost(c: LayerCells, k: nat) {
    |c.neurons| <= k && forall i :: 0 <= i < |c.neurons| ==> |c.neurons[i].weights| <= k
  }

  lemma {:induction false} LayersDoEnd(first: Layer?, ls: seq<LayerCells>, l: nat, k: nat, inner: nat)
    requires LayersLinked(first, ls, true) && CopyableCells(ls) && l <= |ls| <= l + k
    requires forall m :: 0 <= m < |ls| ==> AtMost(ls[m], inner)
    ensures LayersEnd(LayerAt(ls, l), k, inner)
    decreases k
  {
    hide NeuronsLinked, NeuronsEnd;
    if l < |ls| {
      assert NextLayer(ls, l, true) && AtMost(ls[l], inner);
      FirstOfCopy(ls[l]);
      NeuronsDoEnd(ls[l], 0, inner, inner);
      LayersDoEnd(first, ls, l + 1, k - 1, inner);
    }
  }

  lemma FirstOfCopy(c: LayerCells)
    requires NeuronsLinked(c, true)
    ensures c.layer.firstneuron == NeuronAt(c.neurons, 0)
  {
  }

  lemma {:induction false} WeightBound(ns: seq<NeuronCells>) returns (k: nat)
    ensures forall i :: 0 <= i < |ns| ==> |ns[i].weights| <= k
  {
    k := 0;
    if ns != [] {
      var m := WeightBound(ns[1..]);
      k := m + |ns[0].weights|;
      assert forall i :: 1 <= i < |ns| ==> ns[i] == ns[1..][i - 1];
    }
  }

  lemma {:induction false} CellBound(ls: seq<LayerCells>) returns (k: nat)
    ensures |ls| <= k && forall l :: 0 <= l < |ls| ==> AtMost(ls[l], k)
  {
    k := 0;
    if ls != [] {
      var m := CellBound(ls[1..]);
      var w := WeightBound(ls[0].neurons);
      k := m + 1 + w + |ls[0].neurons|;
      assert forall l :: 1 <= l < |ls| ==> ls[l] == ls[1..][l - 1];
    }
  }

  // ----- a list of one element never ends

  lemma {:induction false} WeightLoops(w: Weight, k: nat)
    requires w.nextweight == w
    ensures !WeightsEnd(w, k)
  {
    if k > 0 {
      WeightLoops(w, k - 1);
    }
  }

  lemma {:induction false} NeuronLoops(n: Neuron, k: nat, inner: nat)
    requires n.nextneuron == n
    ensures !NeuronsEnd(n, k, inner)
  {
    if k > 0 {
      NeuronLoops(n, k - 1, inner);
    }
  }

  lemma {:induction false} LayerLoops(l: Layer, k: nat, inner: nat)
    requires l.nextlayer == l
    ensures !LayersEnd(l, k, inner)
  {
    if k > 0 {
      LayerLoops(l, k - 1, inner);
    }
  }

  /** A walk that ends gets past every cell before the end. */
  lemma {:induction false} EveryNeuronEnds(c: LayerCells, i: nat, at: nat, k: nat, inner: nat)
    requires NeuronsLinked(c, true) && |c.neurons| != 1 && i <= at < |c.neurons|
    requires NeuronsEnd(c.neurons[i].neuron, k, inner)
    ensures WeightsEnd(c.neurons[at].neuron.firstweight, inner)
    decreases at - i
  {
    assert NextNeuron(c.neurons, i, true);
    if i < at {
      EveryNeuronEnds(c, i + 1, at, k - 1, inner);
    }
  }

  lemma {:induction false} EveryLayerEnds(first: Layer?, ls: seq<LayerCells>, l: nat, at: nat, k: nat, inner: nat)
    requires LayersLinked(first, ls, true) && |ls| != 1 && l <= at < |ls| && LayersEnd(ls[l].layer, k, inner)
    ensures NeuronsEnd(ls[at].layer.firstneuron, inner, inner)
    decreases at - l
  {
    hide NeuronsLinked, NeuronsEnd;
    assert NextLayer(ls, l, true);
    if l < at {
      EveryLayerEnds(first, ls, l + 1, at, k - 1, inner);
    }
  }

  lemma {:induction false} EndingNeurons(c: LayerCells, k: nat)
    requires NeuronsLinked(c, true) && NeuronsEnd(c.layer.firstneuron, k, k)
    ensures CopyableNeurons(c.neurons)
  {
    if |c.neurons| == 1 {
      assert NextNeuron(c.neurons, 0, true);
      NeuronLoops(c.neurons[0].neuron, k, k);
    } else {
      forall i | 0 <= i < |c.neurons| ensures |c.neurons[i].weights| != 1 {
        EveryNeuronEnds(c, 0, i, k, k);
        var ws := c.neurons[i].weights;
        if |ws| == 1 {
          assert NextWeight(ws, 0, true);
          WeightLoops(ws[0], k);
        }
      }
    }
  }

  lemma {:induction false} EndingLayers(first: Layer?, ls: seq<LayerCells>, k: nat)
    requires LayersLinked(first, ls, true) && LayersEnd(first, k, k)
    ensures CopyableCells(ls)
  {
    hide NeuronsLinked, NeuronsEnd, CopyableNeurons;
    if |ls| == 1 {
      assert NextLayer(ls, 0, true);
      LayerLoops(ls[0].layer, k, k);
    } else {
      forall l | 0 <= l < |ls| ensures CopyableNeurons(ls[l].neurons) {
        EveryLayerEnds(first, ls, 0, l, k, k);
        EndingNeurons(ls[l], k);
      }
    }
  }

  /** A walk over a copied network ends if and only if no list in it has exactly one
      element; then the copy is linked like any other network. */
  lemma {:induction false} CopyEndsIff(c: NeuralNetwork)
    requires CopiedLayers(c, c.cells)
    ensures WalkEnds(c) <==> Copyable(Parameters(c.cells))
    ensures Walkable(c) <==> Copyable(Parameters(c.cells))
  {
    hide NeuronsLinked, NeuronsEnd, Separate, Parameters;
    CopyableIs(c.cells);
    if CopyableCells(c.cells) {
      var k := CellBound(c.cells);
      LayersDoEnd(c.firstlayer, c.cells, 0, k, k);
      LinkedAsUsual(c.firstlayer, c.cells);
    }
    if WalkEnds(c) {
      var k: nat :| LayersEnd(c.firstlayer, k, k);
      EndingLayers(c.firstlayer, c.cells, k);
    }
    if LayersLinked(c.firstlayer, c.cells, false) {
      UsualIsCopyable(c.firstlayer, c.cells);
    }
  }

  /** Backwards no walk over a copy ends: the first cell of every list is its own predecessor. */
  lemma {:induction false} CopyLinksBack(c: NeuralNetwork, l: nat)
    requires CopiedLayers(c, c.cells) && l < |c.cells|
    ensures c.cells[l].layer.previouslayer == c.cells[if l == 0 then 0 else l - 1].layer
    ensures var ns := c.cells[l].neurons;
            forall i :: 0 <= i < |ns| ==> ns[i].neuron.previousneuron == ns[if i == 0 then 0 else i - 1].neuron
    ensures forall i, j :: 0 <= i < |c.cells[l].neurons| && 0 <= j < |c.cells[l].neurons[i].weights| ==>
              var ws := c.cells[l].neurons[i].weights;
              ws[j].previousweight == ws[if j == 0 then 0 else j - 1]
  {
    hide Separate, LayersLinked;
    assert PreviousLayer(c.cells, l, true) && NeuronsLinkedBack(c.cells[l], true);
    var ns := c.cells[l].neurons;
    forall i | 0 <= i < |ns| ensures ns[i].neuron.previousneuron == ns[if i == 0 then 0 else i - 1].neuron {
      assert PreviousNeuron(ns, i, true);
    }
    forall i, j | 0 <= i < |ns| && 0 <= j < |ns[i].weights|
      ensures ns[i].weights[j].previousweight == ns[i].weights[if j == 0 then 0 else j - 1]
    {
      assert WeightsLinkedBack(ns[i].neuron, ns[i].weights, true) && PreviousWeight(ns[i].weights, j, true);
    }
  }

  lemma {:induction false} CopyableIs(ls: seq<LayerCells>)
    ensures Copyable(Parameters(ls)) <==> CopyableCells(ls)
  {
    hide Parameters, LayerParameters, WeightValues;
    ParametersAt(ls);
    forall l | 0 <= l < |ls|
      ensures |LayerParameters(ls[l].neurons)| == |ls[l].neurons|
      ensures forall i :: 0 <= i < |ls[l].neurons| ==>
                |LayerParameters(ls[l].neurons)[i].weights| == |ls[l].neurons[i].weights|
    {
      LayerParametersAt(ls[l].neurons);
      forall i | 0 <= i < |ls[l].neurons|
        ensures |LayerParameters(ls[l].neurons)[i].weights| == |ls[l].neurons[i].weights|
      {
        WeightValuesAt(ls[l].neurons[i].weights);
      }
    }
    assert forall l :: 0 <= l < |ls| ==> Parameters(ls)[l] == LayerParameters(ls[l].neurons);
  }

  lemma {:induction false} LinkedAsUsual(first: Layer?, ls: seq<LayerCells>)
    requires LayersLinked(first, ls, true) && CopyableCells(ls)
    ensures LayersLinked(first, ls, false)
  {
    forall l | 0 <= l < |ls| ensures NextLayer(ls, l, false) && NeuronsLinked(ls[l], false) {
      assert NextLayer(ls, l, true) && CopyableNeurons(ls[l].neurons);
      forall i | 0 <= i < |ls[l].neurons|
        ensures NextNeuron(ls[l].neurons, i, false)
        ensures WeightsLinked(ls[l].neurons[i].neuron, ls[l].neurons[i].weights, false)
      {
        assert NextNeuron(ls[l].neurons, i, true);
        var ws := ls[l].neurons[i].weights;
        forall j | 0 <= j < |ws| ensures NextWeight(ws, j, false) {
          assert NextWeight(ws, j, true);
        }
      }
    }
  }

  lemma {:induction false} NoSingleWeight(ws: seq<Weight>)
    requires |ws| == 1
    ensures !(NextWeight(ws, 0, true) && NextWeight(ws, 0, false))
  {
  }

  lemma {:induction false} NoSingleNeuron(ns: seq<NeuronCells>)
    requires |ns| == 1
    ensures !(NextNeuron(ns, 0, true) && NextNeuron(ns, 0, false))
  {
  }

  lemma {:induction false} NoSingleLayer(ls: seq<LayerCells>)
    requires |ls| == 1
    ensures !(NextLayer(ls, 0, true) && NextLayer(ls, 0, false))
  {
  }

  lemma {:induction false} UsualIsCopyable(first: Layer?, ls: seq<LayerCells>)
    requires LayersLinked(first, ls, true) && LayersLinked(first, ls, false)
    ensures CopyableCells(ls)
  {
    hide NextWeight, NextNeuron, NextLayer;
    if |ls| == 1 {
      NoSingleLayer(ls);
    }
    forall l | 0 <= l < |ls| ensures CopyableNeurons(ls[l].neurons) {
      var ns := ls[l].neurons;
      if |ns| == 1 {
        NoSingleNeuron(ns);
      }
      forall i | 0 <= i < |ns| ensures |ns[i].weights| != 1 {
        if |ns[i].weights| == 1 {
          NoSingleWeight(ns[i].weights);
        }
      }
    }
  }

  // ----- freeing

  /** The cells that are allocated and not freed yet. */
  datatype Live = Live(weights: set<Weight>, neurons: set<Neuron>, layers: set<Layer>)

  /** The loop over the weights of a neuron: each is still allocated when it is read and
      when it is freed. */
  method FreeWeights(n: Neuron, ghost ws: seq<Weight>, ghost live: set<Weight>) returns (ghost left: set<Weight>)
    requires WeightsLinked(n, ws, false) && DistinctWeights(ws) && forall w :: w in ws ==> w in live
    ensures left == live - set w | w in ws
  {
    left := live;
    var currentweight := n.firstweight;
    ghost var j := 0;
    while currentweight != null
      invariant j <= |ws| && currentweight == WeightAt(ws, j) && left == live - set w | w in ws[..j]
      decreases |ws| - j
    {
      assert NextWeight(ws, j, false) && ws[j] !in ws[..j];
      assert currentweight in left;
      var nextweight := currentweight.nextweight;
      left := left - {currentweight};
      currentweight := nextweight;
      assert ws[..j + 1] == ws[..j] + [ws[j]];
      j := j + 1;
    }
    assert ws[..j] == ws;
  }

  lemma {:induction false} CellsUpto(ns: seq<NeuronCells>, i: nat)
    requires i < |ns| && SeparateNeurons(ns)
    ensures Neurons(ns[..i + 1]) == Neurons(ns[..i]) + {ns[i].neuron} && ns[i].neuron !in Neurons(ns[..i])
    ensures Weights(ns[..i + 1]) == Weights(ns[..i]) + set w | w in ns[i].weights
    ensures forall w :: w in ns[i].weights ==> w !in Weights(ns[..i]) && w in Weights(ns)
    ensures ns[i].neuron in Neurons(ns)
  {
    assert ns[..i + 1] == ns[..i] + [ns[i]];
    CellsAppended(ns[..i], ns[i]);
    forall m | 0 <= m < i ensures ApartNeuron(ns[..i][m], ns[i]) {
    }
    forall w | w in ns[i].weights ensures w in Weights(ns) {
      InWeights(ns, i, w);
    }
  }

  /** The loop over the neurons of a layer. */
  method FreeNeurons(l: Layer, ghost c: LayerCells, ghost live: Live) returns (ghost left: Live)
    requires c.layer == l && NeuronsLinked(c, false) && SeparateNeurons(c.neurons)
    requires Neurons(c.neurons) <= live.neurons && Weights(c.neurons) <= live.weights
    ensures left == Live(live.weights - Weights(c.neurons), live.neurons - Neurons(c.neurons), live.layers)
  {
    hide NeuronsLinked, SeparateNeurons, WeightsLinked, DistinctWeights, Weights, Neurons;
    ghost var ns := c.neurons;
    left := live;
    NoNeuronCells();
    FirstNeuron(c);
    var currentneuron := l.firstneuron;
    ghost var i := 0;
    while currentneuron != null
      invariant i <= |ns| && currentneuron == NeuronAt(ns, i)
      invariant left == Live(live.weights - Weights(ns[..i]), live.neurons - Neurons(ns[..i]), live.layers)
      decreases |ns| - i
    {
      NeuronLinkedAt(c, i);
      SeparateAt(ns, i);
      CellsUpto(ns, i);
      assert currentneuron in left.neurons;
      ghost var weights := FreeWeights(currentneuron, ns[i].weights, left.weights);
      var nextneuron := currentneuron.nextneuron;
      left := Live(weights, left.neurons - {currentneuron}, left.layers);
      currentneuron := nextneuron;
      i := i + 1;
    }
    assert ns[..i] == ns;
  }

  lemma NoNeuronCells()
    ensures Neurons([]) == {} && Weights([]) == {}
  {
  }

  lemma {:induction false} AllCellsUpto(n: NeuralNetwork, l: nat)
    requires Walkable(n) && l < |n.cells|
    ensures var (before, c) := (n.cells[..l], n.cells[l]);
            && Layers(n.cells[..l + 1]) == Layers(before) + {c.layer} && c.layer !in Layers(before)
            && AllNeurons(n.cells[..l + 1]) == AllNeurons(before) + Neurons(c.neurons)
            && AllWeights(n.cells[..l + 1]) == AllWeights(before) + Weights(c.neurons)
            && Neurons(c.neurons) !! AllNeurons(before) && Weights(c.neurons) !! AllWeights(before)
            && c.layer in Layers(n.cells)
  {
    hide Neurons, Weights, LayersLinked, SeparateNeurons;
    var ls := n.cells;
    assert ls[..l + 1] == ls[..l] + [ls[l]];
    AllCellsAppended(ls[..l], ls[l]);
    forall m | 0 <= m < l ensures ApartLayer(ls[m].neurons, ls[l].neurons) {
      SeparateLayers(n, l, m);
    }
  }

  /** `freeNeuralNetwork`: frees every cell of the network once, and no other. */
  method FreeNeuralNetwork(n: NeuralNetwork, ghost live: Live) returns (ghost left: Live)
    requires Walkable(n)
    requires AllWeights(n.cells) <= live.weights && AllNeurons(n.cells) <= live.neurons
    requires Layers(n.cells) <= live.layers
    ensures left == Live(live.weights - AllWeights(n.cells), live.neurons - AllNeurons(n.cells),
                         live.layers - Layers(n.cells))
  {
    hide Walkable, NeuronsLinked, SeparateNeurons, Weights, Neurons, AllWeights, AllNeurons, Layers;
    ghost var ls := n.cells;
    left := live;
    NoLayers();
    FirstLayer(n);
    var currentlayer := n.firstlayer;
    ghost var l := 0;
    while currentlayer != null
      invariant l <= |ls| && currentlayer == LayerAt(ls, l)
      invariant left == Live(live.weights - AllWeights(ls[..l]), live.neurons - AllNeurons(ls[..l]),
                             live.layers - Layers(ls[..l]))
      decreases |ls| - l
    {
      LayerLinkedAt(n, l);
      SeparateLayer(n, l);
      CellsOfLayer(ls, l);
      AllCellsUpto(n, l);
      assert currentlayer in left.layers;
      ghost var inner := FreeNeurons(currentlayer, ls[l], left);
      var nextlayer := currentlayer.nextlayer;
      left := Live(inner.weights, inner.neurons, left.layers - {currentlayer});
      currentlayer := nextlayer;
      l := l + 1;
    }
    assert ls[..l] == ls;
  }
}
