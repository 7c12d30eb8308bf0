/**
 A submission from end to end: the client's model becomes items, text and frames, and the
 server's handler finds the same parameters in what it parses
 (FederatedLearningESP32/components/websocket/websocketclient.c:30-50,
 FederatedLearningServer/src/websockethandlers.c:8-38).
 */
module Submission {
  import opened Bytes
  import opened JsonText
  import opened JsonGrammar
  import opened Converters
  import opened Frames
  import opened MessageQueues
  import opened Reassembly
  import opened Delivery
  import N = Network

  // ----- the items of a model can be printed, parsed and told apart by their braces

  ghost predicate Travels(j: Json, depth: nat) {
    Printable(j) && BraceFree(j) && Depth(j) <= depth
  }

  lemma {:induction false} ItemsDepth(items: seq<Json>, d: nat)
    requires forall k :: 0 <= k < |items| ==> Depth(items[k]) <= d
    ensures DepthOfItems(items) <= d
  {
    if items != [] {
      ItemsDepth(items[1..], d);
    }
  }

  lemma {:induction false} MembersDepth(members: seq<Member>, d: nat)
    requires forall k :: 0 <= k < |members| ==> Depth(members[k].value) <= d
    ensures DepthOfMembers(members) <= d
  {
    if members != [] {
      MembersDepth(members[1..], d);
    }
  }

  lemma ArrayTravels(items: seq<Json>, d: nat)
    requires forall k :: 0 <= k < |items| ==> Travels(items[k], d)
    ensures Travels(Arr(items), d + 1)
  {
    ItemsDepth(items, d);
  }

  ghost predicate MemberTravels(m: Member, d: nat) {
    NoNul(m.key) && Unbraced(m.key) && Travels(m.value, d)
  }

  lemma ObjectTravels(members: seq<Member>, d: nat)
    requires forall k :: 0 <= k < |members| ==> MemberTravels(members[k], d)
    ensures Travels(Obj(members), d + 1)
  {
    forall k | 0 <= k < |members|
      ensures NoNul(members[k].key) && Unbraced(members[k].key) && Travels(members[k].value, d)
    {
      assert MemberTravels(members[k], d);
    }
    MembersDepth(members, d);
  }

  lemma LeafTravels(j: Json)
    requires (IsNumber(j) && Printable(j)) || (j.Str? && NoNul(j.s) && Unbraced(j.s))
    ensures Travels(j, 0)
  {
  }

  /** Names of the fields contain letters only. */
  predicate Letters(s: string) {
    forall i :: 0 <= i < |s| ==> 'A' <= s[i] <= 'z'
  }

  lemma FieldTravels(s: string, value: Json, d: nat, e: nat)
    requires Letters(s) && Travels(value, d) && d <= e
    ensures MemberTravels(Member(Name(s), value), e)
  {
    hide Printable, BraceFree, Depth;
  }

  predicate TypesUnbraced(m: Model)
    requires m.neuralnetwork.Some? && m.neuralnetwork.value.list.Some?
  {
    var layers := m.neuralnetwork.value.list.value;
    forall l, i :: 0 <= l < |layers| && 0 <= i < |layers[l].list| ==> TypeUnbraced(layers[l].list[i])
  }

  predicate TypeUnbraced(n: NeuronModel) {
    n.neurontype.Some? ==> Unbraced(n.neurontype.value)
  }

  lemma NeuronTravels(c: Codec, n: NeuronModel)
    requires CompleteNeuron(c, n) && TypeUnbraced(n)
    ensures Travels(NeuronJson(c, n), 2)
  {
    hide Travels, MemberTravels, FloatLiteral, Name, Unbraced, NoNul;
    var ms := NeuronJson(c, n).members;
    var weights := ms[3].value.items;
    LeafTravels(Str(n.neurontype.value));
    LeafTravels(Int(n.weights.value));
    LeafTravels(c.write(n.bias.value));
    forall k | 0 <= k < |weights| ensures Travels(weights[k], 0) {
      LeafTravels(weights[k]);
    }
    ArrayTravels(weights, 0);
    FieldTravels("neurontype", ms[0].value, 0, 1);
    FieldTravels("weights", ms[1].value, 0, 1);
    FieldTravels("bias", ms[2].value, 0, 1);
    FieldTravels("weightsArray", ms[3].value, 1, 1);
    ObjectTravels(ms, 1);
  }

  lemma LayerTravels(c: Codec, l: LayerModel)
    requires CompleteLayer(c, l) && forall i :: 0 <= i < |l.list| ==> TypeUnbraced(l.list[i])
    ensures Travels(LayerJson(c, l), 4)
  {
    hide Travels, MemberTravels, CompleteNeuron, NeuronJson;
    var ms := LayerJson(c, l).members;
    var neurons := ms[2].value.items;
    LeafTravels(Int(l.activationfunctiontype.value));
    LeafTravels(Int(l.neurons.value));
    forall k | 0 <= k < |neurons| ensures Travels(neurons[k], 2) {
      NeuronTravels(c, l.list[k]);
    }
    ArrayTravels(neurons, 2);
    FieldTravels("activationfunctiontype", ms[0].value, 0, 3);
    FieldTravels("neurons", ms[1].value, 0, 3);
    FieldTravels("neuronsArray", ms[2].value, 3, 3);
    ObjectTravels(ms, 3);
  }

  lemma NetTravels(c: Codec, n: NetModel)
    requires CompleteNet(c, n)
    requires forall l, i :: 0 <= l < |n.list.value| && 0 <= i < |n.list.value[l].list| ==>
               TypeUnbraced(n.list.value[l].list[i])
    ensures Travels(NetJson(c, n), 6)
  {
    hide Travels, MemberTravels, CompleteLayer, LayerJson;
    var ms := NetJson(c, n).members;
    var layers := ms[7].value.items;
    forall k | 0 <= k < |layers| ensures Travels(layers[k], 4) {
      LayerTravels(c, n.list.value[k]);
    }
    ArrayTravels(layers, 4);
    forall k | 0 <= k < 7 ensures Travels(ms[k].value, 0) {
      LeafTravels(ms[k].value);
    }
    FieldTravels("epoch", ms[0].value, 0, 5);
    FieldTravels("alpha", ms[1].value, 0, 5);
    FieldTravels("regularization", ms[2].value, 0, 5);
    FieldTravels("lambda", ms[3].value, 0, 5);
    FieldTravels("percentualtraining", ms[4].value, 0, 5);
    FieldTravels("lossfunctiontype", ms[5].value, 0, 5);
    FieldTravels("layers", ms[6].value, 0, 5);
    FieldTravels("layersArray", ms[7].value, 5, 5);
    ObjectTravels(ms, 5);
  }

  lemma ModelTravelsAsItems(c: Codec, m: Model)
    requires CompleteModel(c, m) && m.neuralnetwork.value.list.Some? && TypesUnbraced(m)
    ensures Travels(ModelJson(c, m), 7)
  {
    hide Travels, MemberTravels, CompleteNet, NetJson;
    var ms := ModelJson(c, m).members;
    LeafTravels(Int(m.globalmodelstatus));
    LeafTravels(Int(m.trainingscounter));
    NetTravels(c, m.neuralnetwork.value);
    FieldTravels("globalmodelstatus", ms[0].value, 0, 6);
    FieldTravels("trainingscounter", ms[1].value, 0, 6);
    FieldTravels("neuralnetwork", ms[2].value, 6, 6);
    ObjectTravels(ms, 6);
  }

  // ----- what aggregation uses of a model

  function NeuronParameters(n: NeuronModel): N.NeuronValue {
    N.NeuronValue(if n.bias.Some? then n.bias.value else 0.0, n.list)
  }

  function LayerParameters(l: LayerModel): N.LayerValue {
    seq(|l.list|, i requires 0 <= i < |l.list| => NeuronParameters(l.list[i]))
  }

  function Parameters(m: Model): N.NetValue
    requires m.neuralnetwork.Some? && m.neuralnetwork.value.list.Some?
  {
    var layers := m.neuralnetwork.value.list.value;
    seq(|layers|, l requires 0 <= l < |layers| => LayerParameters(layers[l]))
  }

  /** Losing the activation functions loses no parameter. */
  lemma ForgottenKeepsParameters(m: Model)
    requires m.neuralnetwork.Some? && m.neuralnetwork.value.list.Some?
    ensures Parameters(Forgotten(m)) == Parameters(m) && Forgotten(m).trainingscounter == m.trainingscounter
  {
    var layers := m.neuralnetwork.value.list.value;
    assert forall l :: 0 <= l < |layers| ==>
             LayerParameters(LayersRead(layers, false)[l]) == LayerParameters(layers[l]);
  }

  /** The client's model, printed, cut into frames and received in any pieces, is queued
      once; the handler's parser and reader find its training count and every weight and
      bias in it. */
  lemma SubmissionArrives(c: Codec, m: Model, fmt: bool, op: Opcode, size: nat, answers: seq<int>,
                          chunks: seq<bytes>, q: seq<Message>, ip: string)
    requires ExactInts(c) && CompleteModel(c, m) && m.neuralnetwork.value.list.Some? && TypesUnbraced(m)
    requires var t := Text(ModelJson(c, m), fmt, 0);
             && |t| <= MAX_JSON_SIZE && size > 0 && Serves(|t|, op, size, answers, 0)
             && Concat(chunks) == Payload(Sent(t, 0, op, op.fin, size, answers, 0).0)
    ensures var t := Text(ModelJson(c, m), fmt, 0);
            var sent := Message(t, |t|, ip);
            && ReceiveAll(Received([], q), chunks, ip) == (Received([], q + [sent]), true)
            && Parse(sent.text[..sent.length]).Ok?
            && var got := ModelFrom(c, Parse(sent.text[..sent.length]).value, false);
               && got.Some? && got.value.neuralnetwork.Some? && got.value.neuralnetwork.value.list.Some?
               && got.value.trainingscounter == m.trainingscounter && Parameters(got.value) == Parameters(m)
  {
    hide Text, ModelFrom, CompleteNet, Sent, Parse, ReceiveAll, Printable, BraceFree, Depth, Parameters, Serves;
    ModelTravelsAsItems(c, m);
    ModelTravels(ModelJson(c, m), fmt, op, size, answers, chunks, q, ip);
    ModelReadsBack(c, m);
    ForgottenKeepsParameters(m);
  }
}
