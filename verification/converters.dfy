/**
 The conversion of models to JSON items and back, on the server and on the ESP32
 (FederatedLearningServer/src/JSONConverter.c:8-290,
 FederatedLearningESP32/components/cJSON/JSONConverter.c:6-259).
 */
module Converters {
  import opened Bytes
  import opened JsonText
  import opened JsonGrammar
  import opened JsonAccess

  /** What `cJSON_CreateNumber` makes of a float, and what `valuedouble` and `valueint`
      are for a number item: conversions of the C library, taken as given. */
  datatype Codec = Codec(write: real -> Json, read: Json -> real, readInt: Json -> int)

  predicate IsNumber(j: Json) {
    j.Int? || j.Float?
  }

  ghost predicate ExactInts(c: Codec) {
    forall n :: c.readInt(Int(n)) == n
  }

  /** A float that survives printing and reading. */
  ghost predicate Survives(c: Codec, w: real) {
    IsNumber(c.write(w)) && Printable(c.write(w)) && c.read(c.write(w)) == w
  }

  // ----- models; a field that was never assigned is `None`

  datatype NeuronModel = NeuronModel(
    neurontype: Option<bytes>,
    weights: Option<int>,
    bias: Option<real>,
    list: seq<real>)

  datatype LayerModel = LayerModel(activationfunctiontype: Option<int>, neurons: Option<int>, list: seq<NeuronModel>)

  datatype NetModel = NetModel(
    epoch: Option<int>,
    alpha: Option<real>,
    regularization: Option<int>,
    lambda: Option<real>,
    percentualtraining: Option<int>,
    lossfunctiontype: Option<int>,
    layers: Option<int>,
    list: Option<seq<LayerModel>>)

  datatype Model = Model(globalmodelstatus: int, trainingscounter: int, neuralnetwork: Option<NetModel>)

  // ----- names

  function Name(s: string): (t: bytes)
    ensures |t| == |s|
  {
    seq(|s|, i requires 0 <= i < |s| => s[i] as int % 256)
  }

  function IntField(c: Codec, j: Json, name: bytes): Option<int> {
    match GetObjectItem(j, name)
    case Some(item) => if IsNumber(item) then Some(c.readInt(item)) else None
    case None => None
  }

  function FloatField(c: Codec, j: Json, name: bytes): Option<real> {
    match GetObjectItem(j, name)
    case Some(item) => if IsNumber(item) then Some(c.read(item)) else None
    case None => None
  }

  /** The items of an array field; `None` when there is no such array. */
  function ArrayField(j: Json, name: bytes): (items: Option<seq<Json>>)
    ensures items.Some? ==> GetObjectItem(j, name) == Some(Arr(items.value))
  {
    match GetObjectItem(j, name)
    case Some(item) => if item.Arr? then Some(item.items) else None
    case None => None
  }

  // ----- writing

  const NEURON_TYPE_SIZE: nat := 20

  predicate Fits(n: int) {
    INT_MIN <= n <= INT_MAX
  }

  ghost predicate CompleteNeuron(c: Codec, n: NeuronModel) {
    && n.neurontype.Some? && |n.neurontype.value| < NEURON_TYPE_SIZE && NoNul(n.neurontype.value)
    && n.weights.Some? && Fits(n.weights.value)
    && n.bias.Some? && Survives(c, n.bias.value)
    && forall k :: 0 <= k < |n.list| ==> Survives(c, n.list[k])
  }

  ghost predicate CompleteLayer(c: Codec, l: LayerModel) {
    && l.activationfunctiontype.Some? && Fits(l.activationfunctiontype.value)
    && l.neurons.Some? && Fits(l.neurons.value)
    && forall k :: 0 <= k < |l.list| ==> CompleteNeuron(c, l.list[k])
  }

  ghost predicate CompleteNet(c: Codec, n: NetModel) {
    && n.epoch.Some? && Fits(n.epoch.value)
    && n.alpha.Some? && Survives(c, n.alpha.value)
    && n.regularization.Some? && Fits(n.regularization.value)
    && n.lambda.Some? && Survives(c, n.lambda.value)
    && n.percentualtraining.Some? && Fits(n.percentualtraining.value)
    && n.lossfunctiontype.Some? && Fits(n.lossfunctiontype.value)
    && n.layers.Some? && Fits(n.layers.value)
    && n.list.Some? && forall k :: 0 <= k < |n.list.value| ==> CompleteLayer(c, n.list.value[k])
  }

  ghost predicate CompleteModel(c: Codec, m: Model) {
    && Fits(m.globalmodelstatus) && Fits(m.trainingscounter)
    && m.neuralnetwork.Some? && CompleteNet(c, m.neuralnetwork.value)
  }

  function NeuronJson(c: Codec, n: NeuronModel): Json
    requires CompleteNeuron(c, n)
  {
    Obj([
      Member(Name("neurontype"), Str(n.neurontype.value)),
      Member(Name("weights"), Int(n.weights.value)),
      Member(Name("bias"), c.write(n.bias.value)),
      Member(Name("weightsArray"), Arr(seq(|n.list|, k requires 0 <= k < |n.list| => c.write(n.list[k]))))])
  }

  function LayerJson(c: Codec, l: LayerModel): Json
    requires CompleteLayer(c, l)
  {
    Obj([
      Member(Name("activationfunctiontype"), Int(l.activationfunctiontype.value)),
      Member(Name("neurons"), Int(l.neurons.value)),
      Member(Name("neuronsArray"), Arr(seq(|l.list|, k requires 0 <= k < |l.list| => NeuronJson(c, l.list[k]))))])
  }

  function NetJson(c: Codec, n: NetModel): Json
    requires CompleteNet(c, n)
  {
    Obj([
      Member(Name("epoch"), Int(n.epoch.value)),
      Member(Name("alpha"), c.write(n.alpha.value)),
      Member(Name("regularization"), Int(n.regularization.value)),
      Member(Name("lambda"), c.write(n.lambda.value)),
      Member(Name("percentualtraining"), Int(n.percentualtraining.value)),
      Member(Name("lossfunctiontype"), Int(n.lossfunctiontype.value)),
      Member(Name("layers"), Int(n.layers.value)),
      Member(Name("layersArray"),
             Arr(seq(|n.list.value|, k requires 0 <= k < |n.list.value| => LayerJson(c, n.list.value[k]))))])
  }

  /** Both sides write the same items. */
  function ModelJson(c: Codec, m: Model): Json
    requires CompleteModel(c, m)
  {
    Obj([
      Member(Name("globalmodelstatus"), Int(m.globalmodelstatus)),
      Member(Name("trainingscounter"), Int(m.trainingscounter)),
      Member(Name("neuralnetwork"), NetJson(c, m.neuralnetwork.value))])
  }

  // ----- reading

  /** `strncpy` into the neuron's type. */
  function TypeField(j: Json): Option<bytes> {
    match GetObjectItem(j, Name("neurontype"))
    case Some(item) =>
      if !item.Str? then None
      else Some(if |item.s| <= NEURON_TYPE_SIZE then item.s else item.s[..NEURON_TYPE_SIZE])
    case None => None
  }

  function ItemsOf(j: Json, name: bytes): seq<Json> {
    if ArrayField(j, name).Some? then ArrayField(j, name).value else []
  }

  function NeuronFrom(c: Codec, j: Json): NeuronModel {
    var items := ItemsOf(j, Name("weightsArray"));
    NeuronModel(TypeField(j), IntField(c, j, Name("weights")), FloatField(c, j, Name("bias")),
                seq(|items|, k requires 0 <= k < |items| => c.read(items[k])))
  }

  /** Only the ESP32 reads the activation function of a layer. */
  function LayerFrom(c: Codec, j: Json, esp: bool): LayerModel {
    var items := ItemsOf(j, Name("neuronsArray"));
    LayerModel(if esp then IntField(c, j, Name("activationfunctiontype")) else None, IntField(c, j, Name("neurons")),
               seq(|items|, k requires 0 <= k < |items| => NeuronFrom(c, items[k])))
  }

  function LayersFrom(c: Codec, j: Json, esp: bool): Option<seq<LayerModel>> {
    if IntField(c, j, Name("layers")) == None then None
    else
      match ArrayField(j, Name("layersArray"))
      case Some(items) => Some(seq(|items|, k requires 0 <= k < |items| => LayerFrom(c, items[k], esp)))
      case None => None
  }

  function NetFrom(c: Codec, j: Json, esp: bool): NetModel {
    NetModel(IntField(c, j, Name("epoch")), FloatField(c, j, Name("alpha")), IntField(c, j, Name("regularization")),
             FloatField(c, j, Name("lambda")), IntField(c, j, Name("percentualtraining")),
             IntField(c, j, Name("lossfunctiontype")), IntField(c, j, Name("layers")), LayersFrom(c, j, esp))
  }

  function OrZero(n: Option<int>): int {
    if n.Some? then n.value else 0
  }

  function ModelFrom(c: Codec, j: Json, esp: bool): Option<Model> {
    if !j.Obj? then None
    else
      var net := GetObjectItem(j, Name("neuralnetwork"));
      Some(Model(OrZero(IntField(c, j, Name("globalmodelstatus"))), OrZero(IntField(c, j, Name("trainingscounter"))),
                 if net.Some? && net.value.Obj? then Some(NetFrom(c, net.value, esp)) else None))
  }

  // ----- reading what was written

  function LayersRead(layers: seq<LayerModel>, esp: bool): seq<LayerModel> {
    seq(|layers|, k requires 0 <= k < |layers| => if esp then layers[k] else layers[k].(activationfunctiontype := None))
  }

  /** What the server does not read. */
  function Forgotten(m: Model): Model
    requires m.neuralnetwork.Some? && m.neuralnetwork.value.list.Some?
  {
    var net := m.neuralnetwork.value;
    m.(neuralnetwork := Some(net.(list := Some(LayersRead(net.list.value, false)))))
  }

  lemma NeuronReadsBack(c: Codec, n: NeuronModel)
    requires ExactInts(c) && CompleteNeuron(c, n)
    ensures NeuronFrom(c, NeuronJson(c, n)) == n
  {
    var ms := NeuronJson(c, n).members;
    FoundAt(ms, 0, Name("neurontype"), false);
    FoundAt(ms, 1, Name("weights"), false);
    FoundAt(ms, 2, Name("bias"), false);
    FoundAt(ms, 3, Name("weightsArray"), false);
    assert NeuronFrom(c, NeuronJson(c, n)).list == n.list;
  }

  lemma LayerReadsBack(c: Codec, l: LayerModel, esp: bool)
    requires ExactInts(c) && CompleteLayer(c, l)
    ensures LayerFrom(c, LayerJson(c, l), esp) == if esp then l else l.(activationfunctiontype := None)
  {
    hide CompleteNeuron, NeuronJson, NeuronFrom;
    var ms := LayerJson(c, l).members;
    FoundAt(ms, 0, Name("activationfunctiontype"), false);
    FoundAt(ms, 1, Name("neurons"), false);
    FoundAt(ms, 2, Name("neuronsArray"), false);
    forall k | 0 <= k < |l.list| ensures NeuronFrom(c, NeuronJson(c, l.list[k])) == l.list[k] {
      NeuronReadsBack(c, l.list[k]);
    }
    assert LayerFrom(c, LayerJson(c, l), esp).list == l.list;
  }

  lemma DifferentNames()
    ensures !SameName(Name("alpha"), Name("epoch"), false) && !SameName(Name("layers"), Name("lambda"), false)
  {
    assert Folded(Name("alpha"), false)[0] == 97 && Folded(Name("epoch"), false)[0] == 101;
    assert Folded(Name("layers"), false)[2] == 121 && Folded(Name("lambda"), false)[2] == 109;
  }

  lemma TrainingFields(c: Codec, n: NetModel)
    requires CompleteNet(c, n)
    ensures var j := NetJson(c, n);
            && Lookup(j.members, Name("epoch"), false) == Some(Int(n.epoch.value))
            && Lookup(j.members, Name("alpha"), false) == Some(c.write(n.alpha.value))
            && Lookup(j.members, Name("regularization"), false) == Some(Int(n.regularization.value))
            && Lookup(j.members, Name("lambda"), false) == Some(c.write(n.lambda.value))
  {
    hide Lookup, LayerJson, CompleteLayer;
    var ms := NetJson(c, n).members;
    DifferentNames();
    FoundAt(ms, 0, Name("epoch"), false);
    FoundAt(ms, 1, Name("alpha"), false);
    FoundAt(ms, 2, Name("regularization"), false);
    FoundAt(ms, 3, Name("lambda"), false);
  }

  lemma LayerFields(c: Codec, n: NetModel)
    requires CompleteNet(c, n)
    ensures var j := NetJson(c, n);
            && Lookup(j.members, Name("percentualtraining"), false) == Some(Int(n.percentualtraining.value))
            && Lookup(j.members, Name("lossfunctiontype"), false) == Some(Int(n.lossfunctiontype.value))
            && Lookup(j.members, Name("layers"), false) == Some(Int(n.layers.value))
            && Lookup(j.members, Name("layersArray"), false) == Some(j.members[7].value)
  {
    hide Lookup, LayerJson, CompleteLayer;
    var ms := NetJson(c, n).members;
    DifferentNames();
    FoundAt(ms, 4, Name("percentualtraining"), false);
    FoundAt(ms, 5, Name("lossfunctiontype"), false);
    FoundAt(ms, 6, Name("layers"), false);
    FoundAt(ms, 7, Name("layersArray"), false);
  }

  lemma NetReadsBack(c: Codec, n: NetModel, esp: bool)
    requires ExactInts(c) && CompleteNet(c, n)
    ensures NetFrom(c, NetJson(c, n), esp) == n.(list := Some(LayersRead(n.list.value, esp)))
  {
    hide Lookup, LayerJson, CompleteLayer, LayerFrom;
    TrainingFields(c, n);
    LayerFields(c, n);
    forall k | 0 <= k < |n.list.value|
      ensures LayerFrom(c, LayerJson(c, n.list.value[k]), esp) == LayersRead(n.list.value, esp)[k]
    {
      LayerReadsBack(c, n.list.value[k], esp);
    }
    assert LayersFrom(c, NetJson(c, n), esp).value == LayersRead(n.list.value, esp);
  }

  /** What the ESP32 reads is the model that was written; the server loses exactly the
      activation functions of the layers. */
  lemma ModelReadsBack(c: Codec, m: Model)
    requires ExactInts(c) && CompleteModel(c, m)
    ensures ModelFrom(c, ModelJson(c, m), true) == Some(m)
    ensures m.neuralnetwork.value.list.Some?
    ensures ModelFrom(c, ModelJson(c, m), false) == Some(Forgotten(m))
  {
    hide Lookup, NetJson, NetFrom, CompleteNet;
    var net := m.neuralnetwork.value;
    var ms := ModelJson(c, m).members;
    FoundAt(ms, 0, Name("globalmodelstatus"), false);
    FoundAt(ms, 1, Name("trainingscounter"), false);
    FoundAt(ms, 2, Name("neuralnetwork"), false);
    ListIsSet(c, net);
    NetReadsBack(c, net, true);
    NetReadsBack(c, net, false);
    assert LayersRead(net.list.value, true) == net.list.value;
  }

  lemma ListIsSet(c: Codec, n: NetModel)
    requires CompleteNet(c, n)
    ensures n.list.Some? && NetJson(c, n).Obj?
  {
  }
}
