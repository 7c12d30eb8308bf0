/**
 The server's handler for a client's message, from its bytes to the aggregated network
 (FederatedLearningServer/src/websockethandlers.c:8-38), and what a network that was
 written by one side is for the other.
 */
module Handlers {
  import opened Bytes
  import opened Converters
  import opened JsonGrammar
  import opened LinkedNetwork
  import N = Network
  import opened NetworkJson
  import opened Rounds
  import Submission

  /** The network that is built from the items of another one equals it, weights in order
      and every field that is sent; on the server the activation functions are left out. */
  lemma RebuiltEqualsSent(c: Codec, sent: NetContent, rebuilt: NetContent, esp: bool)
    requires ExactInts(c) && CompleteNet(c, NetModelOf(sent))
    requires NetRead(rebuilt, NetFrom(c, NetJson(c, NetModelOf(sent)), esp))
    ensures ParametersIn(rebuilt.list) == ParametersIn(sent.list)
    ensures esp ==> NetModelOf(rebuilt) == NetModelOf(sent)
  {
    hide NetFrom, NetJson, CompleteNet;
    var m := NetModelOf(sent);
    NetReadsBack(c, m, esp);
    var read := Converters.LayersRead(m.list.value, esp);
    assert NetFrom(c, NetJson(c, m), esp).list == Some(read);
    forall l | 0 <= l < |sent.list|
      ensures ParametersOfLayer(rebuilt.list[l]) == ParametersOfLayer(sent.list[l])
      ensures esp ==> LayerModelOf(rebuilt.list[l]) == LayerModelOf(sent.list[l])
    {
      assert LayerRead(rebuilt.list[l], read[l]);
      LayerRebuilt(sent.list[l], rebuilt.list[l], read[l], esp);
    }
    assert esp ==> NetModelOf(rebuilt).list.value == m.list.value;
  }

  lemma LayerRebuilt(sent: LayerContent, rebuilt: LayerContent, read: LayerModel, esp: bool)
    requires LayerRead(rebuilt, read)
    requires read == if esp then LayerModelOf(sent) else LayerModelOf(sent).(activationfunctiontype := None)
    ensures ParametersOfLayer(rebuilt) == ParametersOfLayer(sent)
    ensures esp ==> LayerModelOf(rebuilt) == LayerModelOf(sent)
  {
    forall i | 0 <= i < |sent.list| ensures NeuronModelOf(rebuilt.list[i]) == NeuronModelOf(sent.list[i]) {
      assert NeuronRead(rebuilt.list[i], read.list[i]);
    }
    assert LayerModelOf(rebuilt).list == LayerModelOf(sent).list;
    forall i | 0 <= i < |sent.list| ensures ParametersOfLayer(rebuilt)[i] == ParametersOfLayer(sent)[i] {
    }
  }

  // ----- the handler

  predicate HasBiases(ls: seq<LayerModel>) {
    forall l, i :: 0 <= l < |ls| && 0 <= i < |ls[l].list| ==> ls[l].list[i].bias.Some?
  }

  /** A model that the handler can aggregate: a network of the server's shape in it. */
  predicate Usable(m: Model, s: Server) {
    && m.neuralnetwork.Some? && m.neuralnetwork.value.list.Some? && HasBiases(m.neuralnetwork.value.list.value)
    && N.SameShape(s.sum, Submission.Parameters(m)) && s.counter + m.trainingscounter != 0
  }

  function Received(c: Codec, text: bytes): Option<Model> {
    if Parse(text).Ok? then ModelFrom(c, Parse(text).value, false) else None
  }

  lemma ReadParameters(content: seq<LayerContent>, m: Model)
    requires m.neuralnetwork.Some? && m.neuralnetwork.value.list.Some? && HasBiases(m.neuralnetwork.value.list.value)
    requires LayersMatch(content, m.neuralnetwork.value.list.value)
    ensures ParametersIn(content) == Submission.Parameters(m)
  {
    var ls := m.neuralnetwork.value.list.value;
    forall l | 0 <= l < |ls| ensures ParametersOfLayer(content[l]) == Submission.LayerParameters(ls[l]) {
      assert LayerRead(content[l], ls[l]);
      forall i | 0 <= i < |ls[l].list|
        ensures ParametersOfLayer(content[l])[i] == Submission.LayerParameters(ls[l])[i]
      {
        assert NeuronRead(content[l].list[i], ls[l].list[i]);
      }
    }
  }

  /** `handle_clint_model_message`: what cannot be parsed is dropped, and a usable model of
      a registered client is aggregated with the parameters and the count it holds. */
  method HandleClientModelMessage(server: FederatedLearning, c: Codec, message: bytes, ip: string)
    requires server.Valid()
    requires Received(c, message).Some? ==>
               Knows(server.State(), ip) && Usable(Received(c, message).value, server.State())
    modifies server, AllNeurons(server.nodecontrolnetwork.cells)`bias
    modifies AllWeights(server.nodecontrolnetwork.cells)`weight
    ensures server.Valid()
    ensures server.State() ==
            match Received(c, message)
            case None => old(server.State())
            case Some(m) => Submit(old(server.State()), ip, Submission.Parameters(m), m.trainingscounter)
  {
    hide Parse, ModelFrom, Networks, Walkable, N.SameShape, Submit, NetRead, Parameters;
    hide Layers, AllNeurons, AllWeights, ContentOfLayers;
    assert allocated(Layers(server.nodecontrolnetwork.cells));
    assert allocated(AllNeurons(server.nodecontrolnetwork.cells));
    assert allocated(AllWeights(server.nodecontrolnetwork.cells));
    assert allocated(Layers(server.neuralnetwork.cells)) && allocated(AllNeurons(server.neuralnetwork.cells));
    assert allocated(AllWeights(server.neuralnetwork.cells));
    var json := Parse(message);
    if json.Ok? {
      var clientmodel := JSONToFederatedLearning(c, json.value, false);
      if clientmodel != null {
        var network := clientmodel.neuralnetwork;
        ListRead(ContentOf(network), ModelFrom(c, json.value, false).value);
        ContentHasParameters(network.cells);
        server.HandleModelMessage(ip, network, clientmodel.trainingscounter);
      }
    }
  }

  lemma ListRead(content: NetContent, m: Model)
    requires m.neuralnetwork.Some? && m.neuralnetwork.value.list.Some? && HasBiases(m.neuralnetwork.value.list.value)
    requires NetRead(content, m.neuralnetwork.value)
    ensures ParametersIn(content.list) == Submission.Parameters(m)
  {
    ReadParameters(content.list, m);
  }
}
