/**
 The server's side of a federated round: registration, status checks and aggregation
 (FederatedLearningServer/src/httphandlers.c:95-226,
 FederatedLearningServer/src/websockethandlers.c:8-38,
 FederatedLearningServer/src/federatedlearning.c:588-605, 724-773).
 */
module Rounds {
  import opened Averaging
  import opened LinkedNetwork
  import opened Network
  import opened NetworkCopy

  datatype Client = Client(ip: string, interaction: nat)

  datatype Reply = LimitReached | Added | AlreadyRegistered

  /** The shared instance and its node control, as a value. */
  datatype Server = Server(
    status: bool,
    counter: int,
    published: NetValue,
    current: nat,
    cycle: nat,
    limit: nat,
    registered: nat,
    sum: NetValue,
    clients: seq<Client>)

  /** Index of the first client with this address, or the length of the list. */
  function Find(clients: seq<Client>, ip: string): (i: nat)
    ensures i <= |clients|
    ensures i < |clients| ==> clients[i].ip == ip
    ensures forall k :: 0 <= k < i ==> clients[k].ip != ip
  {
    if clients == [] || clients[0].ip == ip then 0 else 1 + Find(clients[1..], ip)
  }

  predicate Knows(s: Server, ip: string) {
    Find(s.clients, ip) < |s.clients|
  }

  function Register(s: Server, ip: string): (Server, Reply) {
    var (t, reply) :=
      if s.registered == s.limit then (s, LimitReached)
      else if Knows(s, ip) then (s, AlreadyRegistered)
      else (s.(clients := s.clients + [Client(ip, 0)], registered := s.registered + 1), Added);
    (t.(status := t.status || t.registered == t.limit), reply)
  }

  predicate CheckStatus(s: Server, ip: string) {
    && s.registered == s.limit
    && Knows(s, ip)
    && s.clients[Find(s.clients, ip)].interaction == s.current
    && s.status
  }

  /** Someone has not submitted in the current round. */
  predicate Waiting(clients: seq<Client>, current: nat) {
    exists i :: 0 <= i < |clients| && clients[i].interaction == current
  }

  function Counted(clients: seq<Client>, ip: string): (c: seq<Client>)
    requires Find(clients, ip) < |clients|
    ensures |c| == |clients|
  {
    var i := Find(clients, ip);
    clients[i := Client(ip, clients[i].interaction + 1)]
  }

  /** `AggregationModel`, the sender being counted already. */
  function Aggregate(s: Server, model: NetValue, n: int): Server
    requires SameShape(s.sum, model) && s.counter + n != 0
  {
    if s.current >= s.cycle then s.(status := false)
    else
      var t := s.(status := false, sum := AddScaledNet(s.sum, model, n), counter := s.counter + n);
      if Waiting(s.clients, s.current) then t.(status := true) else Closed(t)
  }

  /** The end of a round. */
  function Closed(s: Server): Server
    requires s.counter != 0
  {
    var average := DividedNet(s.sum, s.counter);
    s.(sum := ResetNet(average), counter := 0, published := average, current := s.current + 1, status := true)
  }

  /** A registered client's model arrives. */
  function Submit(s: Server, ip: string, model: NetValue, n: int): Server
    requires Knows(s, ip) && SameShape(s.sum, model) && s.counter + n != 0
  {
    Aggregate(s.(clients := Counted(s.clients, ip)), model, n)
  }

  // ----- the two networks of the server

  ghost predicate NoEmptyLayer(n: NeuralNetwork)
    reads n`cells
  {
    forall l :: 0 <= l < |n.cells| ==> n.cells[l].neurons != []
  }

  ghost predicate IsLive(n: NeuralNetwork, live: Live)
    reads n`cells
  {
    && AllWeights(n.cells) <= live.weights && AllNeurons(n.cells) <= live.neurons
    && Layers(n.cells) <= live.layers
  }

  /** The published network and the one that is accumulated, with these parameters: linked
      properly, sharing nothing, and made of cells that were not freed. */
  ghost predicate Networks(published: NeuralNetwork, p: NetValue, control: NeuralNetwork, s: NetValue, live: Live)
    reads published`firstlayer, published`cells, control`firstlayer, control`cells
    reads Layers(published.cells)`nextlayer, Layers(published.cells)`firstneuron
    reads AllNeurons(published.cells)`nextneuron, AllNeurons(published.cells)`firstweight
    reads AllWeights(published.cells)`nextweight
    reads Layers(control.cells)`nextlayer, Layers(control.cells)`firstneuron
    reads AllNeurons(control.cells)`nextneuron, AllNeurons(control.cells)`firstweight
    reads AllWeights(control.cells)`nextweight
    reads AllNeurons(published.cells)`bias, AllWeights(published.cells)`weight
    reads AllNeurons(control.cells)`bias, AllWeights(control.cells)`weight
  {
    && Walkable(published) && Walkable(control) && Apart(published.cells, control.cells)
    && IsLive(published, live) && IsLive(control, live)
    && p == Parameters(published.cells) && s == Parameters(control.cells)
    && SameShape(p, s) && Copyable(s) && NoEmptyLayer(control)
  }

  lemma NetworksHave(published: NeuralNetwork, p: NetValue, control: NeuralNetwork, s: NetValue, live: Live)
    requires Networks(published, p, control, s, live)
    ensures Walkable(published) && Walkable(control) && Apart(published.cells, control.cells)
    ensures IsLive(published, live) && IsLive(control, live) && NoEmptyLayer(control)
    ensures p == Parameters(published.cells) && s == Parameters(control.cells) && SameShape(p, s) && Copyable(s)
    ensures forall n :: n in AllNeurons(published.cells) ==> n !in AllNeurons(control.cells)
    ensures forall w :: w in AllWeights(published.cells) ==> w !in AllWeights(control.cells)
  {
    hide AllNeurons, AllWeights, Layers, Walkable, Parameters, Copyable, SameShape;
  }

  /** New parameters of the same shape in the network that is accumulated. */
  lemma NetworksKept(published: NeuralNetwork, p: NetValue, control: NeuralNetwork, s: NetValue, live: Live,
                     before: NetValue)
    requires Walkable(published) && Walkable(control) && Apart(published.cells, control.cells)
    requires IsLive(published, live) && IsLive(control, live) && NoEmptyLayer(control)
    requires p == Parameters(published.cells) && s == Parameters(control.cells)
    requires SameShape(p, before) && Copyable(before) && SameShape(s, before)
    ensures Networks(published, p, control, s, live)
  {
    hide AllNeurons, AllWeights, Layers, Walkable, Parameters, Copyable, SameShape, Apart, IsLive, NoEmptyLayer;
    ShapeIsKept(s, before, before);
    ShapeIsKept(before, s, before);
    ShapeIsKept(p, before, s);
  }

  lemma SumHasShape(a: NetValue, b: NetValue, n: int)
    requires SameShape(a, b)
    ensures SameShape(AddScaledNet(a, b, n), a)
  {
  }

  lemma AverageHasShape(a: NetValue, k: int)
    requires k != 0
    ensures SameShape(DividedNet(a, k), a)
  {
  }

  lemma ResetHasShape(a: NetValue)
    ensures SameShape(ResetNet(a), a) && SameShape(a, a)
  {
  }

  /** `FederatedAveragingSum` on the network that is accumulated. */
  method Accumulate(published: NeuralNetwork, control: NeuralNetwork, model: NeuralNetwork, n: int, ghost live: Live,
                    ghost p: NetValue, ghost s: NetValue)
    requires Networks(published, p, control, s, live)
    requires Walkable(model) && Apart(control.cells, model.cells) && SameShape(s, Parameters(model.cells))
    modifies AllNeurons(control.cells)`bias, AllWeights(control.cells)`weight
    ensures Networks(published, p, control, AddScaledNet(s, old(Parameters(model.cells)), n), live)
  {
    hide Networks, Walkable, Apart, IsLive, SameShape, Copyable, NoEmptyLayer, Parameters, AddScaledNet;
    hide AllNeurons, AllWeights, Layers;
    NetworksHave(published, p, control, s, live);
    assert allocated(Layers(published.cells)) && allocated(AllNeurons(published.cells));
    assert allocated(AllWeights(published.cells));
    SumHasShape(s, Parameters(model.cells), n);
    FederatedAveragingSum(control, model, n);
    NetworksKept(published, p, control, Parameters(control.cells), live, s);
  }

  /** `FederatedAveraging` on the network that is accumulated. */
  method Average(published: NeuralNetwork, control: NeuralNetwork, k: int, ghost live: Live,
                 ghost p: NetValue, ghost s: NetValue)
    requires Networks(published, p, control, s, live) && k != 0
    modifies AllNeurons(control.cells)`bias, AllWeights(control.cells)`weight
    ensures Networks(published, p, control, DividedNet(s, k), live)
  {
    hide Networks, Walkable, Apart, IsLive, SameShape, Copyable, NoEmptyLayer, Parameters, DividedNet;
    hide AllNeurons, AllWeights, Layers;
    NetworksHave(published, p, control, s, live);
    assert allocated(Layers(published.cells)) && allocated(AllNeurons(published.cells));
    assert allocated(AllWeights(published.cells));
    AverageHasShape(s, k);
    FederatedAveraging(control, k);
    NetworksKept(published, p, control, Parameters(control.cells), live, s);
  }

  /** `SetNeuralNetworkZeroWeightValue` on the network that is accumulated. */
  method Clear(published: NeuralNetwork, control: NeuralNetwork, ghost live: Live, ghost p: NetValue, ghost s: NetValue)
    requires Networks(published, p, control, s, live)
    modifies AllNeurons(control.cells)`bias, AllWeights(control.cells)`weight
    ensures Networks(published, p, control, ResetNet(s), live)
  {
    hide Networks, Walkable, Apart, IsLive, SameShape, Copyable, Parameters, ResetNet;
    hide AllNeurons, AllWeights, Layers;
    NetworksHave(published, p, control, s, live);
    assert allocated(Layers(published.cells)) && allocated(AllNeurons(published.cells));
    assert allocated(AllWeights(published.cells));
    ResetHasShape(s);
    SetNeuralNetworkZeroWeightValue(control);
    NetworksKept(published, p, control, Parameters(control.cells), live, s);
  }

  /** The published network is freed, and the averaged one copied in its place. */
  method Publish(published: NeuralNetwork, control: NeuralNetwork, ghost live: Live,
                 ghost p: NetValue, ghost s: NetValue)
    returns (copy: NeuralNetwork, ghost now: Live)
    requires Networks(published, p, control, s, live)
    ensures Networks(copy, s, control, s, now)
  {
    hide Networks, Walkable, SameShape, Copyable, NoEmptyLayer, Parameters, AllNeurons, AllWeights, Layers;
    hide CopiedLayers, ContentOfLayers;
    NetworksHave(published, p, control, s, live);
    assert allocated(Layers(control.cells)) && allocated(AllNeurons(control.cells));
    assert allocated(AllWeights(control.cells));
    ghost var left := FreeNeuralNetwork(published, live);
    copy := CopyNeuralNetwork(control);
    now := Live(left.weights + AllWeights(copy.cells), left.neurons + AllNeurons(copy.cells),
                left.layers + Layers(copy.cells));
    ContentHasParameters(copy.cells);
    ContentHasParameters(control.cells);
    CopyEndsIff(copy);
    ResetHasShape(s);
    NetworksKept(copy, s, control, s, now, s);
  }

  /** Both: the published network is replaced, and the accumulated one cleared. */
  method Replace(published: NeuralNetwork, control: NeuralNetwork, ghost live: Live,
                 ghost p: NetValue, ghost s: NetValue)
    returns (copy: NeuralNetwork, ghost now: Live)
    requires Networks(published, p, control, s, live)
    modifies AllNeurons(control.cells)`bias, AllWeights(control.cells)`weight
    ensures Networks(copy, s, control, ResetNet(s), now)
  {
    hide Networks, Layers, AllNeurons, AllWeights, ResetNet;
    copy, now := Publish(published, control, live, p, s);
    Clear(copy, control, now, s, s);
  }

  class FederatedLearning {
    var globalmodelstatus: bool
    var trainingscounter: int
    var neuralnetwork: NeuralNetwork
    var currentinteraction: nat
    const interactioncycle: nat
    const clientnodes: nat
    var clientnodesregistered: nat
    var nodecontrolnetwork: NeuralNetwork
    var clientlist: seq<Client>
    ghost var published: NetValue
    ghost var sum: NetValue
    ghost var live: Live

    /** The instance after `setFederatedLearningGlobalModel`: two networks of one shape. */
    constructor (global: NeuralNetwork, zero: NeuralNetwork, clients: nat, cycle: nat, ghost live: Live)
      requires Networks(global, Parameters(global.cells), zero, Parameters(zero.cells), live)
      ensures Valid()
      ensures State() == Server(false, 0, Parameters(global.cells), 0, cycle, clients, 0, Parameters(zero.cells), [])
    {
      hide Networks, Parameters;
      globalmodelstatus := false;
      trainingscounter := 0;
      neuralnetwork := global;
      currentinteraction := 0;
      interactioncycle := cycle;
      clientnodes := clients;
      clientnodesregistered := 0;
      nodecontrolnetwork := zero;
      clientlist := [];
      published := Parameters(global.cells);
      sum := Parameters(zero.cells);
      this.live := live;
    }

    ghost predicate Valid()
      reads this, neuralnetwork`firstlayer, neuralnetwork`cells, nodecontrolnetwork`firstlayer, nodecontrolnetwork`cells
      reads Layers(neuralnetwork.cells)`nextlayer, Layers(neuralnetwork.cells)`firstneuron
      reads AllNeurons(neuralnetwork.cells)`nextneuron, AllNeurons(neuralnetwork.cells)`firstweight
      reads AllWeights(neuralnetwork.cells)`nextweight
      reads Layers(nodecontrolnetwork.cells)`nextlayer, Layers(nodecontrolnetwork.cells)`firstneuron
      reads AllNeurons(nodecontrolnetwork.cells)`nextneuron, AllNeurons(nodecontrolnetwork.cells)`firstweight
      reads AllWeights(nodecontrolnetwork.cells)`nextweight
      reads AllNeurons(neuralnetwork.cells)`bias, AllWeights(neuralnetwork.cells)`weight
      reads AllNeurons(nodecontrolnetwork.cells)`bias, AllWeights(nodecontrolnetwork.cells)`weight
    {
      Networks(neuralnetwork, published, nodecontrolnetwork, sum, live)
    }

    ghost function State(): Server
      reads this
    {
      Server(globalmodelstatus, trainingscounter, published, currentinteraction, interactioncycle,
             clientnodes, clientnodesregistered, sum, clientlist)
    }

    /** The search loop that every handler runs over the client list. */
    method FindClient(ip: string) returns (i: nat)
      ensures i == Find(clientlist, ip)
    {
      i := 0;
      while i < |clientlist| && clientlist[i].ip != ip
        invariant 0 <= i <= |clientlist|
        invariant Find(clientlist, ip) == i + Find(clientlist[i..], ip)
      {
        assert clientlist[i..][1..] == clientlist[i + 1..];
        i := i + 1;
      }
    }

    /** `handle_get_noderegister`. */
    method HandleNodeRegister(ip: string) returns (reply: Reply)
      requires Valid()
      modifies this`clientlist, this`clientnodesregistered, this`globalmodelstatus
      ensures Valid() && (State(), reply) == Register(old(State()), ip)
    {
      hide Networks, Layers, AllNeurons, AllWeights;
      assert allocated(Layers(neuralnetwork.cells)) && allocated(Layers(nodecontrolnetwork.cells));
      assert allocated(AllNeurons(neuralnetwork.cells)) && allocated(AllNeurons(nodecontrolnetwork.cells));
      assert allocated(AllWeights(neuralnetwork.cells)) && allocated(AllWeights(nodecontrolnetwork.cells));
      if clientnodesregistered == clientnodes {
        reply := LimitReached;
      } else if clientlist == [] {
        clientlist := [Client(ip, 0)];
        assert clientlist == old(clientlist) + [Client(ip, 0)];
        clientnodesregistered := clientnodesregistered + 1;
        reply := Added;
      } else {
        var i := FindClient(ip);
        if i < |clientlist| {
          reply := AlreadyRegistered;
        } else {
          clientlist := clientlist + [Client(ip, 0)];
          clientnodesregistered := clientnodesregistered + 1;
          reply := Added;
        }
      }
      if clientnodesregistered == clientnodes {
        globalmodelstatus := true;
      }
    }

    /** `handle_get_checkmodelstatus`. */
    method HandleCheckModelStatus(ip: string) returns (status: bool)
      ensures status == CheckStatus(State(), ip)
    {
      status := false;
      var i := FindClient(ip);
      if clientnodesregistered == clientnodes && i < |clientlist| {
        if clientlist[i].interaction == currentinteraction && globalmodelstatus {
          status := true;
        }
      }
    }

    /** `handle_clint_model_message` for a registered sender and a model of the server's shape. */
    method HandleModelMessage(ip: string, model: NeuralNetwork, n: int)
      requires Valid() && Knows(State(), ip) && trainingscounter + n != 0
      requires Walkable(model) && Apart(nodecontrolnetwork.cells, model.cells)
      requires SameShape(sum, Parameters(model.cells))
      modifies this, AllNeurons(nodecontrolnetwork.cells)`bias, AllWeights(nodecontrolnetwork.cells)`weight
      ensures Valid() && State() == Submit(old(State()), ip, old(Parameters(model.cells)), n)
    {
      hide Networks, Walkable, Apart, SameShape, Parameters, Aggregate, Layers, AllNeurons, AllWeights;
      assert allocated(Layers(neuralnetwork.cells)) && allocated(Layers(nodecontrolnetwork.cells));
      assert allocated(AllNeurons(neuralnetwork.cells)) && allocated(AllNeurons(nodecontrolnetwork.cells));
      assert allocated(AllWeights(neuralnetwork.cells)) && allocated(AllWeights(nodecontrolnetwork.cells));
      assert allocated(Layers(model.cells)) && allocated(AllNeurons(model.cells)) && allocated(AllWeights(model.cells));
      var i := FindClient(ip);
      clientlist := clientlist[i := Client(ip, clientlist[i].interaction + 1)];
      AggregationModel(model, n);
    }

    /** `AggregationModel`. */
    method AggregationModel(model: NeuralNetwork, n: int)
      requires Valid() && trainingscounter + n != 0
      requires Walkable(model) && Apart(nodecontrolnetwork.cells, model.cells)
      requires SameShape(sum, Parameters(model.cells))
      modifies this, AllNeurons(nodecontrolnetwork.cells)`bias, AllWeights(nodecontrolnetwork.cells)`weight
      ensures Valid() && State() == Aggregate(old(State()), old(Parameters(model.cells)), n)
    {
      hide Networks, Walkable, Apart, SameShape, Parameters, AddScaledNet, Closed, AllNeurons, AllWeights, Layers;
      globalmodelstatus := false;
      if currentinteraction >= interactioncycle {
        return;
      }
      ghost var added := Parameters(model.cells);
      Accumulate(neuralnetwork, nodecontrolnetwork, model, n, live, published, sum);
      trainingscounter := trainingscounter + n;
      sum := AddScaledNet(sum, added, n);
      var i := 0;
      while i < |clientlist| && currentinteraction != clientlist[i].interaction
        invariant 0 <= i <= |clientlist|
        invariant forall k :: 0 <= k < i ==> clientlist[k].interaction != currentinteraction
        modifies {}
      {
        i := i + 1;
      }
      if i < |clientlist| {
        globalmodelstatus := true;
        return;
      }
      assert !Waiting(clientlist, currentinteraction);
      CloseRound();
    }

    /** The part of `AggregationModel` after the last client of a round. */
    method CloseRound()
      requires Valid() && trainingscounter != 0
      modifies this, AllNeurons(nodecontrolnetwork.cells)`bias, AllWeights(nodecontrolnetwork.cells)`weight
      ensures Valid() && State() == Closed(old(State()))
    {
      hide Networks, DividedNet, ResetNet, AllNeurons, AllWeights, Layers;
      var (network, control, counter) := (neuralnetwork, nodecontrolnetwork, trainingscounter);
      ghost var (p, average) := (published, DividedNet(sum, counter));
      globalmodelstatus := false;
      Average(network, control, counter, live, p, sum);
      trainingscounter := 0;
      var copy;
      ghost var now;
      copy, now := Replace(network, control, live, p, average);
      NextRound(copy, average, now);
    }

    method NextRound(copy: NeuralNetwork, ghost average: NetValue, ghost now: Live)
      requires Networks(copy, average, nodecontrolnetwork, ResetNet(average), now)
      modifies this`neuralnetwork, this`published, this`sum, this`live, this`currentinteraction, this`globalmodelstatus
      ensures Valid()
      ensures State() == old(State()).(sum := ResetNet(average), published := average, status := true,
                                       current := old(currentinteraction) + 1)
    {
      hide Networks, ResetNet, AllNeurons, AllWeights, Layers;
      neuralnetwork := copy;
      published, sum, live := average, ResetNet(average), now;
      currentinteraction := currentinteraction + 1;
      globalmodelstatus := true;
    }
  }
}
