/**
 The loops that turn linked networks into JSON items and build them again
 (FederatedLearningServer/src/JSONConverter.c:8-290,
 FederatedLearningESP32/components/cJSON/JSONConverter.c:6-259).
 */
module NetworkJson {
  import opened Converters
  import opened JsonAccess
  import opened JsonGrammar
  import opened JsonText
  import opened LinkedNetwork
  import opened NetworkCopy

  // ----- what a network holds, as a model with every field assigned

  function NeuronModelOf(n: NeuronContent): NeuronModel {
    NeuronModel(Some(n.neurontype), Some(n.weights), Some(n.bias), n.list)
  }

  function LayerModelOf(l: LayerContent): LayerModel {
    LayerModel(Some(l.activationfunctiontype), Some(l.neurons),
               seq(|l.list|, i requires 0 <= i < |l.list| => NeuronModelOf(l.list[i])))
  }

  function NetModelOf(n: NetContent): NetModel {
    NetModel(Some(n.epoch), Some(n.alpha), Some(n.regularization), Some(n.lambda), Some(n.percentualtraining),
             Some(n.lossfunctiontype), Some(n.layers),
             Some(seq(|n.list|, l requires 0 <= l < |n.list| => LayerModelOf(n.list[l]))))
  }

  // ----- writing

  method WriteWeights(c: Codec, n: Neuron, ghost ws: seq<Weight>) returns (items: seq<Json>)
    requires WeightsLinked(n, ws, false)
    ensures |items| == |ws| && forall j :: 0 <= j < |ws| ==> items[j] == c.write(old(ws[j].weight))
  {
    items := [];
    var currentweight := n.firstweight;
    while currentweight != null
      invariant |items| <= |ws| && currentweight == WeightAt(ws, |items|)
      invariant forall j :: 0 <= j < |items| ==> items[j] == c.write(ws[j].weight)
      decreases |ws| - |items|
    {
      assert NextWeight(ws, |items|, false);
      items := items + [c.write(currentweight.weight)];
      currentweight := currentweight.nextweight;
    }
  }

  method WriteNeuron(c: Codec, n: Neuron, ghost cells: NeuronCells, ghost content: NeuronContent) returns (j: Json)
    requires cells.neuron == n && WeightsLinked(n, cells.weights, false) && content == ContentOfNeuron(cells)
    requires CompleteNeuron(c, NeuronModelOf(content))
    ensures j == NeuronJson(c, NeuronModelOf(content))
  {
    hide WeightValues, WeightsLinked;
    WeightValuesAt(cells.weights);
    var weights := WriteWeights(c, n, cells.weights);
    j := Obj([
      Member(Name("neurontype"), Str(n.neurontype)),
      Member(Name("weights"), Int(n.weights)),
      Member(Name("bias"), c.write(n.bias)),
      Member(Name("weightsArray"), Arr(weights))]);
    assert weights == NeuronJson(c, NeuronModelOf(content)).members[3].value.items;
  }

  method WriteNeurons(c: Codec, l: Layer, ghost cells: LayerCells, ghost content: seq<NeuronContent>)
    returns (items: seq<Json>)
    requires cells.layer == l && NeuronsLinked(cells, false) && content == ContentOfNeurons(cells.neurons)
    requires forall i :: 0 <= i < |content| ==> CompleteNeuron(c, NeuronModelOf(content[i]))
    ensures |items| == |content|
    ensures forall i :: 0 <= i < |items| ==> items[i] == NeuronJson(c, NeuronModelOf(content[i]))
  {
    hide CompleteNeuron, NeuronJson, ContentOfNeuron, ContentOfNeurons, NeuronsLinked, WeightsLinked, NeuronModelOf;
    hide Neurons, Weights;
    assert allocated(Neurons(cells.neurons)) && allocated(Weights(cells.neurons));
    items := [];
    FirstNeuron(cells);
    ContentOfNone(cells.neurons);
    var currentneuron := l.firstneuron;
    while currentneuron != null
      invariant |items| <= |content| == |cells.neurons| && currentneuron == NeuronAt(cells.neurons, |items|)
      invariant NeuronsLinked(cells, false) && content == ContentOfNeurons(cells.neurons)
      invariant forall i :: 0 <= i < |items| ==> items[i] == NeuronJson(c, NeuronModelOf(content[i]))
      decreases |cells.neurons| - |items|
    {
      NeuronLinkedAt(cells, |items|);
      NeuronContentAt(cells.neurons, |items|);
      var item := WriteNeuron(c, currentneuron, cells.neurons[|items|], content[|items|]);
      NeuronLinkedAt(cells, |items|);
      currentneuron := currentneuron.nextneuron;
      items := items + [item];
    }
  }

  method WriteLayer(c: Codec, l: Layer, ghost cells: LayerCells, ghost content: LayerContent) returns (j: Json)
    requires cells.layer == l && NeuronsLinked(cells, false) && content == ContentOfLayer(cells)
    requires CompleteLayer(c, LayerModelOf(content))
    ensures j == LayerJson(c, LayerModelOf(content))
  {
    hide CompleteNeuron, NeuronJson, NeuronsLinked, NeuronModelOf, ContentOfNeurons, Neurons, Weights;
    ghost var model := LayerModelOf(content);
    assert forall i :: 0 <= i < |content.list| ==> model.list[i] == NeuronModelOf(content.list[i]);
    var neurons := WriteNeurons(c, l, cells, content.list);
    j := Obj([
      Member(Name("activationfunctiontype"), Int(l.activationfunctiontype)),
      Member(Name("neurons"), Int(l.neurons)),
      Member(Name("neuronsArray"), Arr(neurons))]);
    assert neurons == LayerJson(c, model).members[2].value.items;
  }

  method WriteLayers(c: Codec, n: NeuralNetwork, ghost content: seq<LayerContent>) returns (items: seq<Json>)
    requires Walkable(n) && content == ContentOfLayers(n.cells)
    requires forall l :: 0 <= l < |content| ==> CompleteLayer(c, LayerModelOf(content[l]))
    ensures |items| == |content|
    ensures forall l :: 0 <= l < |items| ==> items[l] == LayerJson(c, LayerModelOf(content[l]))
  {
    hide CompleteLayer, LayerJson, ContentOfLayer, ContentOfLayers, Walkable, NeuronsLinked, LayerModelOf;
    hide Layers, AllNeurons, AllWeights;
    ghost var cells := n.cells;
    assert allocated(Layers(cells)) && allocated(AllNeurons(cells)) && allocated(AllWeights(cells));
    items := [];
    FirstLayer(n);
    ContentLength(cells);
    var currentlayer := n.firstlayer;
    while currentlayer != null
      invariant |items| <= |content| == |cells| && currentlayer == LayerAt(cells, |items|)
      invariant Walkable(n) && content == ContentOfLayers(cells)
      invariant forall l :: 0 <= l < |items| ==> items[l] == LayerJson(c, LayerModelOf(content[l]))
      decreases |cells| - |items|
    {
      LayerLinkedAt(n, |items|);
      LayerContentAt(cells, |items|);
      var item := WriteLayer(c, currentlayer, cells[|items|], content[|items|]);
      LayerLinkedAt(n, |items|);
      currentlayer := currentlayer.nextlayer;
      items := items + [item];
    }
  }

  /** `FederatedLearningToJSON`, the same on both sides. */
  method FederatedLearningToJSON(c: Codec, status: int, counter: int, n: NeuralNetwork) returns (j: Json)
    requires Walkable(n) && CompleteModel(c, Model(status, counter, Some(NetModelOf(ContentOf(n)))))
    ensures j == old(ModelJson(c, Model(status, counter, Some(NetModelOf(ContentOf(n))))))
  {
    hide CompleteLayer, LayerJson, ContentOfLayers, Walkable, LayerModelOf, Layers, AllNeurons, AllWeights;
    ghost var content := ContentOf(n);
    ghost var net := NetModelOf(content);
    assert forall l :: 0 <= l < |content.list| ==> net.list.value[l] == LayerModelOf(content.list[l]);
    var layers := WriteLayers(c, n, content.list);
    var network := Obj([
      Member(Name("epoch"), Int(n.epoch)),
      Member(Name("alpha"), c.write(n.alpha)),
      Member(Name("regularization"), Int(n.regularization)),
      Member(Name("lambda"), c.write(n.lambda)),
      Member(Name("percentualtraining"), Int(n.percentualtraining)),
      Member(Name("lossfunctiontype"), Int(n.lossfunctiontype)),
      Member(Name("layers"), Int(n.layers)),
      Member(Name("layersArray"), Arr(layers))]);
    assert layers == NetJson(c, net).members[7].value.items;
    j := Obj([
      Member(Name("globalmodelstatus"), Int(status)),
      Member(Name("trainingscounter"), Int(counter)),
      Member(Name("neuralnetwork"), network)]);
  }

  // ----- reading: what was assigned agrees with the item, the rest is arbitrary

  predicate NeuronRead(n: NeuronContent, m: NeuronModel) {
    && (m.neurontype.Some? ==> n.neurontype == m.neurontype.value)
    && (m.weights.Some? ==> n.weights == m.weights.value)
    && (m.bias.Some? ==> n.bias == m.bias.value)
    && n.list == m.list
  }

  predicate LayerRead(l: LayerContent, m: LayerModel) {
    && (m.activationfunctiontype.Some? ==> l.activationfunctiontype == m.activationfunctiontype.value)
    && (m.neurons.Some? ==> l.neurons == m.neurons.value)
    && |l.list| == |m.list| && forall i :: 0 <= i < |l.list| ==> NeuronRead(l.list[i], m.list[i])
  }

  predicate LayersMatch(ls: seq<LayerContent>, ms: seq<LayerModel>) {
    |ls| == |ms| && forall l :: 0 <= l < |ls| ==> LayerRead(ls[l], ms[l])
  }

  predicate NetRead(n: NetContent, m: NetModel) {
    && (m.epoch.Some? ==> n.epoch == m.epoch.value)
    && (m.alpha.Some? ==> n.alpha == m.alpha.value)
    && (m.regularization.Some? ==> n.regularization == m.regularization.value)
    && (m.lambda.Some? ==> n.lambda == m.lambda.value)
    && (m.percentualtraining.Some? ==> n.percentualtraining == m.percentualtraining.value)
    && (m.lossfunctiontype.Some? ==> n.lossfunctiontype == m.lossfunctiontype.value)
    && (m.layers.Some? ==> n.layers == m.layers.value)
    && (m.list.Some? ==> LayersMatch(n.list, m.list.value))
  }

  // ----- one neuron and its weights

  /** The linking of one more weight, this time with the `else`. */
  method LinkWeight(n: Neuron, w: Weight, ghost ws: seq<Weight>)
    requires WeightsLinked(n, ws, false) && WeightsLinkedBack(n, ws, false) && DistinctWeights(ws) && w !in ws
    requires w.nextweight == null && w.previousweight == null
    modifies n`firstweight, n`lastweight, w`previousweight, ws`nextweight
    ensures WeightsLinked(n, ws + [w], false) && WeightsLinkedBack(n, ws + [w], false)
  {
    ghost var all := ws + [w];
    if n.lastweight == null {
      n.firstweight := w;
      n.lastweight := w;
    } else {
      n.lastweight.nextweight := w;
      w.previousweight := n.lastweight;
      n.lastweight := w;
    }
    forall j | 0 <= j < |all| ensures NextWeight(all, j, false) && PreviousWeight(all, j, false) {
      assert j < |ws| ==> old(NextWeight(ws, j, false)) && old(PreviousWeight(ws, j, false));
    }
  }

  method ReadWeights(c: Codec, n: Neuron, items: seq<Json>) returns (ghost ws: seq<Weight>)
    requires n.firstweight == null && n.lastweight == null
    modifies n`firstweight, n`lastweight
    ensures fresh(ws) && DistinctWeights(ws) && |ws| == |items|
    ensures WeightsLinked(n, ws, false) && WeightsLinkedBack(n, ws, false)
    ensures forall j :: 0 <= j < |ws| ==> ws[j].weight == c.read(items[j])
  {
    hide WeightsLinked, WeightsLinkedBack;
    ws := [];
    NoWeights(n);
    for k := 0 to |items|
      invariant |ws| == k && fresh(ws) && DistinctWeights(ws)
      invariant WeightsLinked(n, ws, false) && WeightsLinkedBack(n, ws, false)
      invariant forall j :: 0 <= j < |ws| ==> ws[j].weight == c.read(items[j])
    {
      var weight := new Weight.Malloc();
      weight.weight := c.read(items[k]);
      weight.previousweight := null;
      weight.nextweight := null;
      LinkWeight(n, weight, ws);
      ws := ws + [weight];
    }
  }

  method ReadNeuron(c: Codec, j: Json) returns (neuron: Neuron, ghost cells: NeuronCells)
    ensures cells.neuron == neuron && fresh(neuron) && fresh(cells.weights) && DistinctWeights(cells.weights)
    ensures neuron.nextneuron == null && neuron.previousneuron == null
    ensures WeightsLinked(neuron, cells.weights, false) && WeightsLinkedBack(neuron, cells.weights, false)
    ensures NeuronRead(ContentOfNeuron(cells), NeuronFrom(c, j))
  {
    hide WeightValues, WeightsLinked, WeightsLinkedBack, GetObjectItem, Lookup;
    neuron := new Neuron.Malloc();
    neuron.nextneuron := null;
    neuron.previousneuron := null;
    neuron.firstweight := null;
    neuron.lastweight := null;
    if TypeField(j).Some? {
      neuron.neurontype := TypeField(j).value;
    }
    if IntField(c, j, Name("weights")).Some? {
      neuron.weights := IntField(c, j, Name("weights")).value;
    }
    if FloatField(c, j, Name("bias")).Some? {
      neuron.bias := FloatField(c, j, Name("bias")).value;
    }
    ghost var ws := ReadWeights(c, neuron, ItemsOf(j, Name("weightsArray")));
    cells := NeuronCells(neuron, ws);
    WeightValuesAre(ws, NeuronFrom(c, j).list);
  }

  // ----- one layer and its neurons

  method LinkNeuron(l: Layer, n: Neuron, ghost ns: seq<NeuronCells>, ghost ws: seq<Weight>)
    requires NeuronsLinked(LayerCells(l, ns), false) && NeuronsLinkedBack(LayerCells(l, ns), false)
    requires n !in Neurons(ns) && WeightsLinked(n, ws, false) && WeightsLinkedBack(n, ws, false)
    requires n.nextneuron == null && n.previousneuron == null
    modifies l`firstneuron, l`lastneuron, n`previousneuron, Neurons(ns)`nextneuron
    ensures NeuronsLinked(LayerCells(l, ns + [NeuronCells(n, ws)]), false)
    ensures NeuronsLinkedBack(LayerCells(l, ns + [NeuronCells(n, ws)]), false)
  {
    hide WeightsLinked, WeightsLinkedBack;
    ghost var all := ns + [NeuronCells(n, ws)];
    assert ns != [] ==> NextNeuron(ns, |ns| - 1, false);
    assert forall i :: 0 <= i < |ns| ==> ns[i].neuron in Neurons(ns);
    if l.lastneuron == null {
      l.firstneuron := n;
      l.lastneuron := n;
    } else {
      l.lastneuron.nextneuron := n;
      n.previousneuron := l.lastneuron;
      l.lastneuron := n;
    }
    forall i | 0 <= i < |all| ensures NextNeuron(all, i, false) && PreviousNeuron(all, i, false) {
      assert i < |ns| ==> old(NextNeuron(ns, i, false)) && old(PreviousNeuron(ns, i, false));
    }
    forall i | 0 <= i < |all|
      ensures WeightsLinked(all[i].neuron, all[i].weights, false)
      ensures WeightsLinkedBack(all[i].neuron, all[i].weights, false)
    {
      assert i < |ns| ==> old(WeightsLinked(ns[i].neuron, ns[i].weights, false))
                          && old(WeightsLinkedBack(ns[i].neuron, ns[i].weights, false));
    }
  }

  /** Some neurons of a layer that is being built. */
  ghost predicate BuiltNeurons(l: Layer, ns: seq<NeuronCells>)
    reads l`firstneuron, l`lastneuron, Neurons(ns)`nextneuron, Neurons(ns)`firstweight
    reads Neurons(ns)`previousneuron, Neurons(ns)`lastweight, Weights(ns)`nextweight, Weights(ns)`previousweight
  {
    && SeparateNeurons(ns)
    && NeuronsLinked(LayerCells(l, ns), false) && NeuronsLinkedBack(LayerCells(l, ns), false)
  }

  /** One turn of the loop over the neurons. */
  method ReadNextNeuron(c: Codec, l: Layer, j: Json, ghost ns: seq<NeuronCells>)
    returns (ghost cells: NeuronCells, ghost content: NeuronContent)
    requires BuiltNeurons(l, ns)
    modifies l`firstneuron, l`lastneuron, Neurons(ns)`nextneuron
    ensures fresh(cells.neuron) && fresh(cells.weights) && BuiltNeurons(l, ns + [cells])
    ensures ContentOfNeurons(ns + [cells]) == old(ContentOfNeurons(ns)) + [content]
    ensures NeuronRead(content, NeuronFrom(c, j))
  {
    hide WeightsLinked, WeightsLinkedBack, NeuronsLinked, NeuronsLinkedBack, SeparateNeurons, Neurons, Weights;
    hide ContentOfNeuron, ContentOfNeurons, WeightValues, DistinctWeights, NeuronRead, NeuronFrom;
    assert allocated(Neurons(ns)) && allocated(Weights(ns));
    var neuron;
    neuron, cells := ReadNeuron(c, j);
    content := ContentOfNeuron(cells);
    NeuronAppended(ns, cells);
    LinkNeuron(l, neuron, ns, cells.weights);
    NeuronContentAppended(ns, cells);
  }

  method ReadNeurons(c: Codec, l: Layer, items: seq<Json>)
    returns (ghost ns: seq<NeuronCells>, ghost content: seq<NeuronContent>)
    requires l.firstneuron == null && l.lastneuron == null
    modifies l`firstneuron, l`lastneuron
    ensures fresh(Neurons(ns)) && fresh(Weights(ns)) && BuiltNeurons(l, ns)
    ensures content == ContentOfNeurons(ns) && |content| == |items|
    ensures forall i :: 0 <= i < |items| ==> NeuronRead(content[i], NeuronFrom(c, items[i]))
  {
    hide BuiltNeurons, Neurons, Weights, ContentOfNeuron, ContentOfNeurons, NeuronRead, NeuronFrom;
    ns := [];
    content := [];
    NothingBuilt(l);
    for k := 0 to |items|
      invariant fresh(Neurons(ns)) && fresh(Weights(ns)) && BuiltNeurons(l, ns)
      invariant content == ContentOfNeurons(ns) && |content| == k
      invariant forall i :: 0 <= i < k ==> NeuronRead(content[i], NeuronFrom(c, items[i]))
    {
      ghost var cells, more;
      cells, more := ReadNextNeuron(c, l, items[k], ns);
      CellsAppended(ns, cells);
      ns := ns + [cells];
      content := content + [more];
    }
  }

  lemma NothingBuilt(l: Layer)
    requires l.firstneuron == null && l.lastneuron == null
    ensures BuiltNeurons(l, []) && Neurons([]) == {} && Weights([]) == {} && ContentOfNeurons([]) == []
  {
    NoNeurons(l);
  }

  method ReadLayer(c: Codec, j: Json, esp: bool) returns (layer: Layer, ghost cells: LayerCells)
    ensures cells.layer == layer && fresh(layer) && fresh(Neurons(cells.neurons)) && fresh(Weights(cells.neurons))
    ensures layer.nextlayer == null && layer.previouslayer == null && BuiltNeurons(layer, cells.neurons)
    ensures LayerRead(ContentOfLayer(cells), LayerFrom(c, j, esp))
  {
    hide BuiltNeurons, Neurons, Weights, ContentOfNeuron, ContentOfNeurons, NeuronRead, NeuronFrom, Lookup;
    layer := new Layer.Malloc();
    layer.firstneuron := null;
    layer.lastneuron := null;
    layer.nextlayer := null;
    layer.previouslayer := null;
    if IntField(c, j, Name("neurons")).Some? {
      layer.neurons := IntField(c, j, Name("neurons")).value;
    }
    if esp && IntField(c, j, Name("activationfunctiontype")).Some? {
      layer.activationfunctiontype := IntField(c, j, Name("activationfunctiontype")).value;
    }
    ghost var ns, content;
    ns, content := ReadNeurons(c, layer, ItemsOf(j, Name("neuronsArray")));
    cells := LayerCells(layer, ns);
  }

  // ----- the network and its layers

  method LinkLayer(n: NeuralNetwork, l: Layer, ghost ls: seq<LayerCells>, ghost c: LayerCells)
    requires LayersLinked(n.firstlayer, ls, false) && LayersLinkedBack(n.lastlayer, ls, false)
    requires c.layer == l && l !in Layers(ls) && NeuronsLinked(c, false) && NeuronsLinkedBack(c, false)
    requires l.nextlayer == null && l.previouslayer == null
    modifies n`firstlayer, n`lastlayer, l`previouslayer, Layers(ls)`nextlayer
    ensures LayersLinked(n.firstlayer, ls + [c], false) && LayersLinkedBack(n.lastlayer, ls + [c], false)
  {
    hide NeuronsLinked, NeuronsLinkedBack;
    ghost var all := ls + [c];
    assert ls != [] ==> NextLayer(ls, |ls| - 1, false);
    assert forall i :: 0 <= i < |ls| ==> ls[i].layer in Layers(ls);
    assert forall i :: 0 <= i < |all| ==> allocated(Neurons(all[i].neurons)) && allocated(Weights(all[i].neurons));
    if n.lastlayer == null {
      n.firstlayer := l;
      n.lastlayer := l;
    } else {
      n.lastlayer.nextlayer := l;
      l.previouslayer := n.lastlayer;
      n.lastlayer := l;
    }
    forall i | 0 <= i < |all| ensures NextLayer(all, i, false) && PreviousLayer(all, i, false) {
      assert i < |ls| ==> old(NextLayer(ls, i, false)) && old(PreviousLayer(ls, i, false));
    }
    forall i | 0 <= i < |all| ensures NeuronsLinked(all[i], false) && NeuronsLinkedBack(all[i], false) {
      assert i < |ls| ==> old(NeuronsLinked(ls[i], false)) && old(NeuronsLinkedBack(ls[i], false));
    }
  }

  /** Some layers of a network that is being built. */
  ghost predicate BuiltLayers(n: NeuralNetwork, ls: seq<LayerCells>)
    reads n`firstlayer, n`lastlayer
    reads Layers(ls)`nextlayer, Layers(ls)`firstneuron, Layers(ls)`previouslayer, Layers(ls)`lastneuron
    reads AllNeurons(ls)`nextneuron, AllNeurons(ls)`firstweight, AllNeurons(ls)`previousneuron
    reads AllNeurons(ls)`lastweight, AllWeights(ls)`nextweight, AllWeights(ls)`previousweight
  {
    Separate(ls) && LayersLinked(n.firstlayer, ls, false) && LayersLinkedBack(n.lastlayer, ls, false)
  }

  /** One turn of the loop over the layers. */
  method ReadNextLayer(c: Codec, n: NeuralNetwork, j: Json, esp: bool, ghost ls: seq<LayerCells>)
    returns (ghost cells: LayerCells, ghost content: LayerContent)
    requires BuiltLayers(n, ls)
    modifies n`firstlayer, n`lastlayer, Layers(ls)`nextlayer
    ensures fresh(cells.layer) && fresh(Neurons(cells.neurons)) && fresh(Weights(cells.neurons))
    ensures BuiltLayers(n, ls + [cells]) && LayerRead(content, LayerFrom(c, j, esp))
    ensures ContentOfLayers(ls + [cells]) == old(ContentOfLayers(ls)) + [content]
  {
    hide LayersLinked, LayersLinkedBack, NeuronsLinked, NeuronsLinkedBack, SeparateNeurons, Separate;
    hide Neurons, Weights, Layers, AllNeurons, AllWeights, ContentOfLayer, ContentOfLayers, LayerRead, LayerFrom;
    assert allocated(Layers(ls)) && allocated(AllNeurons(ls)) && allocated(AllWeights(ls));
    var layer;
    layer, cells := ReadLayer(c, j, esp);
    content := ContentOfLayer(cells);
    LayerAppended(ls, cells);
    assert allocated(Neurons(cells.neurons)) && allocated(Weights(cells.neurons));
    LinkLayer(n, layer, ls, cells);
    LayerContentAppended(ls, cells);
  }

  method ReadLayers(c: Codec, n: NeuralNetwork, items: seq<Json>, esp: bool)
    returns (ghost ls: seq<LayerCells>, ghost content: seq<LayerContent>)
    requires n.firstlayer == null && n.lastlayer == null
    modifies n`firstlayer, n`lastlayer
    ensures fresh(Layers(ls)) && fresh(AllNeurons(ls)) && fresh(AllWeights(ls)) && BuiltLayers(n, ls)
    ensures content == ContentOfLayers(ls) && |content| == |items|
    ensures forall l :: 0 <= l < |items| ==> LayerRead(content[l], LayerFrom(c, items[l], esp))
  {
    hide BuiltLayers, Neurons, Weights, Layers, AllNeurons, AllWeights, ContentOfLayers, LayerRead, LayerFrom;
    ls := [];
    content := [];
    NoLayersBuilt(n);
    for k := 0 to |items|
      invariant fresh(Layers(ls)) && fresh(AllNeurons(ls)) && fresh(AllWeights(ls)) && BuiltLayers(n, ls)
      invariant content == ContentOfLayers(ls) && |content| == k
      invariant forall l :: 0 <= l < k ==> LayerRead(content[l], LayerFrom(c, items[l], esp))
    {
      ghost var cells, more;
      cells, more := ReadNextLayer(c, n, items[k], esp, ls);
      AllCellsAppended(ls, cells);
      ls := ls + [cells];
      content := content + [more];
    }
  }

  lemma NoLayersBuilt(n: NeuralNetwork)
    requires n.firstlayer == null && n.lastlayer == null
    ensures BuiltLayers(n, []) && ContentOfLayers([]) == []
    ensures Layers([]) == {} && AllNeurons([]) == {} && AllWeights([]) == {}
  {
    NoLayers();
  }

  method ReadMoreSettings(c: Codec, j: Json, n: NeuralNetwork)
    modifies n`percentualtraining, n`lossfunctiontype, n`layers
    ensures var m := NetFrom(c, j, false);
            && (m.percentualtraining.Some? ==> n.percentualtraining == m.percentualtraining.value)
            && (m.lossfunctiontype.Some? ==> n.lossfunctiontype == m.lossfunctiontype.value)
            && (m.layers.Some? ==> n.layers == m.layers.value)
  {
    hide IntField, FloatField, LayersFrom;
    var training := IntField(c, j, Name("percentualtraining"));
    if training.Some? {
      n.percentualtraining := training.value;
    }
    var (loss, layers) := (IntField(c, j, Name("lossfunctiontype")), IntField(c, j, Name("layers")));
    if loss.Some? {
      n.lossfunctiontype := loss.value;
    }
    if layers.Some? {
      n.layers := layers.value;
    }
  }

  /** The fields of the network itself. */
  method ReadSettings(c: Codec, j: Json) returns (n: NeuralNetwork)
    ensures fresh(n) && NetRead(SettingsOf(n), NetFrom(c, j, false).(list := None))
  {
    hide IntField, FloatField, LayersFrom;
    n := new NeuralNetwork.Malloc();
    var (epoch, alpha) := (IntField(c, j, Name("epoch")), FloatField(c, j, Name("alpha")));
    if epoch.Some? {
      n.epoch := epoch.value;
    }
    if alpha.Some? {
      n.alpha := alpha.value;
    }
    var (regularization, lambda) := (IntField(c, j, Name("regularization")), FloatField(c, j, Name("lambda")));
    if regularization.Some? {
      n.regularization := regularization.value;
    }
    if lambda.Some? {
      n.lambda := lambda.value;
    }
    ReadMoreSettings(c, j, n);
  }

  /** The list of layers, which replaces what the pointers held. */
  method ReadLayersOf(c: Codec, n: NeuralNetwork, items: seq<Json>, esp: bool)
    modifies n`firstlayer, n`lastlayer, n`cells
    ensures SettingsOf(n) == old(SettingsOf(n))
    ensures LayersMatch(ContentOfLayers(n.cells),
                        seq(|items|, k requires 0 <= k < |items| => LayerFrom(c, items[k], esp)))
    ensures Walkable(n) && LayersLinkedBack(n.lastlayer, n.cells, false)
    ensures fresh(Layers(n.cells)) && fresh(AllNeurons(n.cells)) && fresh(AllWeights(n.cells))
  {
    hide ContentOfLayers, LayerRead, LayerFrom, LayersLinked, LayersLinkedBack, Separate;
    hide Layers, AllNeurons, AllWeights;
    n.firstlayer := null;
    n.lastlayer := null;
    ghost var ls, content;
    ls, content := ReadLayers(c, n, items, esp);
    n.cells := ls;
  }

  /** The network of a message; its layers are fresh and linked properly, both ways, if
      there is an array of them. */
  method ReadNetwork(c: Codec, j: Json, esp: bool) returns (n: NeuralNetwork)
    ensures fresh(n) && NetRead(ContentOf(n), NetFrom(c, j, esp))
    ensures LayersFrom(c, j, esp).Some? ==>
              && Walkable(n) && LayersLinkedBack(n.lastlayer, n.cells, false)
              && fresh(Layers(n.cells)) && fresh(AllNeurons(n.cells)) && fresh(AllWeights(n.cells))
  {
    hide IntField, ArrayField, LayerFrom, NetFrom, NetRead, LayersMatch, LayersLinked, LayersLinkedBack, Separate;
    hide ContentOfLayers, SettingsOf, ContentOf, Layers, AllNeurons, AllWeights;
    n := ReadSettings(c, j);
    if IntField(c, j, Name("layers")).Some? && ArrayField(j, Name("layersArray")).Some? {
      ReadLayersOf(c, n, ArrayField(j, Name("layersArray")).value, esp);
    }
    SettingsAndLayers(c, j, esp, n);
  }

  lemma {:induction false} SettingsAndLayers(c: Codec, j: Json, esp: bool, n: NeuralNetwork)
    requires NetRead(SettingsOf(n), NetFrom(c, j, false).(list := None))
    requires LayersFrom(c, j, esp).Some? ==> LayersMatch(ContentOfLayers(n.cells), LayersFrom(c, j, esp).value)
    ensures NetRead(ContentOf(n), NetFrom(c, j, esp))
  {
    hide IntField, FloatField, LayersFrom, LayersMatch, ContentOfLayers;
  }

  /** What a received message becomes; without a network in it the pointer is arbitrary. */
  class ReceivedModel {
    var globalmodelstatus: int
    var trainingscounter: int
    var neuralnetwork: NeuralNetwork?

    constructor Malloc() {
    }
  }

  /** `JSONToFederatedLearning`, with what only the ESP32's version reads. */
  method JSONToFederatedLearning(c: Codec, j: Json, esp: bool) returns (r: ReceivedModel?)
    ensures r == null <==> ModelFrom(c, j, esp) == None
    ensures r != null ==>
              var m := ModelFrom(c, j, esp).value;
              && fresh(r) && r.globalmodelstatus == m.globalmodelstatus && r.trainingscounter == m.trainingscounter
              && (m.neuralnetwork.Some? ==>
                    && r.neuralnetwork != null && fresh(r.neuralnetwork)
                    && NetRead(ContentOf(r.neuralnetwork), m.neuralnetwork.value)
                    && (m.neuralnetwork.value.list.Some? ==>
                          && ProperlyBuilt(r.neuralnetwork)
                          && fresh(Layers(r.neuralnetwork.cells)) && fresh(AllNeurons(r.neuralnetwork.cells))
                          && fresh(AllWeights(r.neuralnetwork.cells))))
  {
    hide GetObjectItem, Lookup, NetRead, LayersFrom, Walkable, LayersLinkedBack, ContentOfLayers;
    hide Layers, AllNeurons, AllWeights;
    if !j.Obj? {
      return null;
    }
    r := new ReceivedModel.Malloc();
    r.globalmodelstatus := OrZero(IntField(c, j, Name("globalmodelstatus")));
    r.trainingscounter := OrZero(IntField(c, j, Name("trainingscounter")));
    var item := GetObjectItem(j, Name("neuralnetwork"));
    if item.Some? && item.value.Obj? {
      r.neuralnetwork := ReadNetwork(c, item.value, esp);
    }
  }

  /** Linked properly in both directions, with no cell twice. */
  ghost predicate ProperlyBuilt(n: NeuralNetwork)
    reads n`firstlayer, n`lastlayer, n`cells
    reads Layers(n.cells)`nextlayer, Layers(n.cells)`firstneuron
    reads Layers(n.cells)`previouslayer, Layers(n.cells)`lastneuron
    reads AllNeurons(n.cells)`nextneuron, AllNeurons(n.cells)`firstweight, AllNeurons(n.cells)`previousneuron
    reads AllNeurons(n.cells)`lastweight, AllWeights(n.cells)`nextweight, AllWeights(n.cells)`previousweight
  {
    Walkable(n) && LayersLinkedBack(n.lastlayer, n.cells, false)
  }

  /** What that means for each list: it begins and ends where its owner points, nothing comes
      before the one or after the other, and `next` and `previous` undo each other. */
  lemma LayersAreInOrder(n: NeuralNetwork)
    requires ProperlyBuilt(n)
    ensures n.cells == [] ==> n.firstlayer == null && n.lastlayer == null
    ensures n.cells != [] ==>
              var (first, last) := (n.cells[0].layer, n.cells[|n.cells| - 1].layer);
              && n.firstlayer == first && first.previouslayer == null
              && n.lastlayer == last && last.nextlayer == null
    ensures forall l :: 1 <= l < |n.cells| ==>
              && n.cells[l - 1].layer.nextlayer == n.cells[l].layer
              && n.cells[l].layer.previouslayer == n.cells[l - 1].layer
    ensures forall l :: 0 <= l < |n.cells| ==> NeuronsLinked(n.cells[l], false) && NeuronsLinkedBack(n.cells[l], false)
  {
    hide NeuronsLinked, NeuronsLinkedBack, Separate;
    assert n.cells != [] ==> PreviousLayer(n.cells, 0, false) && NextLayer(n.cells, |n.cells| - 1, false);
    forall l | 1 <= l < |n.cells|
      ensures n.cells[l - 1].layer.nextlayer == n.cells[l].layer
      ensures n.cells[l].layer.previouslayer == n.cells[l - 1].layer
    {
      assert NextLayer(n.cells, l - 1, false) && PreviousLayer(n.cells, l, false);
    }
  }

  lemma NeuronsAreInOrder(c: LayerCells)
    requires NeuronsLinked(c, false) && NeuronsLinkedBack(c, false)
    ensures c.neurons == [] ==> c.layer.firstneuron == null && c.layer.lastneuron == null
    ensures c.neurons != [] ==>
              var (first, last) := (c.neurons[0].neuron, c.neurons[|c.neurons| - 1].neuron);
              && c.layer.firstneuron == first && first.previousneuron == null
              && c.layer.lastneuron == last && last.nextneuron == null
    ensures forall i :: 1 <= i < |c.neurons| ==>
              && c.neurons[i - 1].neuron.nextneuron == c.neurons[i].neuron
              && c.neurons[i].neuron.previousneuron == c.neurons[i - 1].neuron
    ensures forall i :: 0 <= i < |c.neurons| ==>
              var x := c.neurons[i];
              WeightsLinked(x.neuron, x.weights, false) && WeightsLinkedBack(x.neuron, x.weights, false)
  {
    hide WeightsLinked, WeightsLinkedBack;
    var ns := c.neurons;
    assert ns != [] ==> PreviousNeuron(ns, 0, false) && NextNeuron(ns, |ns| - 1, false);
    forall i | 1 <= i < |ns|
      ensures ns[i - 1].neuron.nextneuron == ns[i].neuron && ns[i].neuron.previousneuron == ns[i - 1].neuron
    {
      assert NextNeuron(ns, i - 1, false) && PreviousNeuron(ns, i, false);
    }
  }

  lemma WeightsAreInOrder(n: Neuron, ws: seq<Weight>)
    requires WeightsLinked(n, ws, false) && WeightsLinkedBack(n, ws, false)
    ensures ws == [] ==> n.firstweight == null && n.lastweight == null
    ensures ws != [] ==>
              && n.firstweight == ws[0] && ws[0].previousweight == null
              && n.lastweight == ws[|ws| - 1] && ws[|ws| - 1].nextweight == null
    ensures forall j :: 1 <= j < |ws| ==> ws[j - 1].nextweight == ws[j] && ws[j].previousweight == ws[j - 1]
  {
    assert ws != [] ==> PreviousWeight(ws, 0, false) && NextWeight(ws, |ws| - 1, false);
    forall j | 1 <= j < |ws| ensures ws[j - 1].nextweight == ws[j] && ws[j].previousweight == ws[j - 1] {
      assert NextWeight(ws, j - 1, false) && PreviousWeight(ws, j, false);
    }
  }
}
