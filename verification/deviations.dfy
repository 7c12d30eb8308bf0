/**
 Two concrete runs on which the federation does less than it promises: a client that
 checks again while its model is still queued
 (FederatedLearningServer/src/httphandlers.c:119-130,
 FederatedLearningServer/src/websocketserver.c:47-108), and a bias that is never reset
 (FederatedLearningServer/src/federatedlearning.c:707-722).
 */
module Deviations {
  import opened Network
  import opened Rounds
  import opened Protocol
  import opened Recheck

  lemma {:induction false} AfterBoth(s: System, a: seq<Step>, b: seq<Step>)
    requires Possible(s, a) && Possible(After(s, a), b)
    ensures Possible(s, a + b) && After(s, a + b) == After(After(s, a), b)
    decreases |a|
  {
    hide Next, Enabled;
    if a == [] {
      assert a + b == b;
    } else {
      AfterBoth(Next(s, a[0]), a[1..], b);
      assert (a + b)[0] == a[0] && (a + b)[1..] == a[1..] + b;
    }
  }

  /** Two layers of two neurons, the second one fully connected to the first. */
  function Layered(x: real, y: real, w: real): NetValue {
    [[NeuronValue(x, []), NeuronValue(y, [])], [NeuronValue(x, [w, w]), NeuronValue(y, [w, w])]]
  }

  /** Such a network survives the copying at the end of a round, and has no empty layer. */
  lemma LayeredIsCopyable(x: real, y: real, w: real)
    ensures Copyable(Layered(x, y, w)) && forall l :: 0 <= l < 2 ==> Layered(x, y, w)[l] != []
  {
  }

  lemma LayersAre(n: NetValue, x: real, y: real, w: real)
    requires |n| == 2 && n[0] == Layered(x, y, w)[0] && n[1] == Layered(x, y, w)[1]
    ensures n == Layered(x, y, w)
  {
  }

  lemma LayerIs(l: LayerValue, m: LayerValue)
    requires |l| == |m| == 2 && l[0] == m[0] && l[1] == m[1]
    ensures l == m
  {
  }

  lemma NoWeights(n: NeuronValue, bias: real)
    requires n.bias == bias && |n.weights| == 0
    ensures n == NeuronValue(bias, [])
  {
  }

  lemma TwoWeights(n: NeuronValue, bias: real, w: real)
    requires n.bias == bias && |n.weights| == 2 && n.weights[0] == w && n.weights[1] == w
    ensures n == NeuronValue(bias, [w, w])
  {
  }

  lemma LayeredSum(a: real, b: real, u: real, x: real, y: real, w: real)
    ensures SameShape(Layered(a, b, u), Layered(x, y, w))
    ensures AddScaledNet(Layered(a, b, u), Layered(x, y, w), 1) == Layered(a + x, b + y, u + w)
  {
    var (m, n) := (Layered(a, b, u), Layered(x, y, w));
    var sum := AddScaledNet(m, n, 1);
    NoWeights(sum[0][0], a + x);
    NoWeights(sum[0][1], b + y);
    TwoWeights(sum[1][0], a + x, u + w);
    TwoWeights(sum[1][1], b + y, u + w);
    LayerIs(sum[0], Layered(a + x, b + y, u + w)[0]);
    LayerIs(sum[1], Layered(a + x, b + y, u + w)[1]);
    LayersAre(sum, a + x, b + y, u + w);
  }

  lemma LayeredAverage(x: real, y: real, w: real)
    ensures DividedNet(Layered(x, y, w), 1) == Layered(x, y, w)
  {
    var average := DividedNet(Layered(x, y, w), 1);
    NoWeights(average[0][0], x);
    NoWeights(average[0][1], y);
    TwoWeights(average[1][0], x, w);
    TwoWeights(average[1][1], y, w);
    LayerIs(average[0], Layered(x, y, w)[0]);
    LayerIs(average[1], Layered(x, y, w)[1]);
    LayersAre(average, x, y, w);
  }

  lemma LayeredReset(x: real, y: real, w: real)
    ensures ResetNet(Layered(x, y, w)) == Layered(0.0, y, 0.0)
  {
    var reset := ResetNet(Layered(x, y, w));
    NoWeights(reset[0][0], 0.0);
    NoWeights(reset[0][1], y);
    TwoWeights(reset[1][0], 0.0, 0.0);
    TwoWeights(reset[1][1], y, 0.0);
    LayerIs(reset[0], Layered(0.0, y, 0.0)[0]);
    LayerIs(reset[1], Layered(0.0, y, 0.0)[1]);
    LayersAre(reset, 0.0, y, 0.0);
  }

  const NOTHING: NetValue := Layered(0.0, 0.0, 0.0)

  function Start(limit: nat, cycle: nat, zero: NetValue): System {
    System(Server(false, 0, zero, 0, cycle, limit, 0, zero, []), map[], [], [], zero)
  }

  /** A whole turn of a client: a positive check, the model, training, submission. */
  function Turn(ip: string, model: NetValue): seq<Step> {
    [DoCheck(ip), DoGetModel(ip), DoSend(ip, model, 1)]
  }

  lemma TurnDone(s: System, ip: string, model: NetValue)
    requires PhaseOf(s, ip) == Idle && CheckStatus(s.server, ip) && SameShape(s.server.sum, model)
    ensures Possible(s, Turn(ip, model))
    ensures var t := After(s, Turn(ip, model));
            && t.server == s.server && t.round == s.round && t.carried == s.carried && PhaseOf(t, ip) == Idle
            && t.queue == s.queue + [Message(ip, model, 1, s.server.published, s.server.current)]
  {
    var steps := Turn(ip, model);
    var t1 := Next(s, steps[0]);
    var t2 := Next(t1, steps[1]);
    var t3 := Next(t2, steps[2]);
    assert steps[3..] == [] && steps[2..] == [steps[2]] && steps[1..] == [steps[1], steps[2]];
    assert steps[1..][1..] == steps[2..] && steps[2..][1..] == steps[3..];
    assert Possible(t3, steps[3..]) && Possible(t2, steps[2..]) && Possible(t1, steps[1..]);
    assert After(t2, steps[2..]) == After(t3, steps[3..]) == t3;
    assert After(t1, steps[1..]) == t3;
  }

  lemma ProcessDone(s: System)
    requires Enabled(s, DoProcess)
    ensures Possible(s, [DoProcess]) && After(s, [DoProcess]) == Next(s, DoProcess)
  {
    var steps := [DoProcess];
    assert steps[1..] == [];
    assert Possible(Next(s, DoProcess), steps[1..]);
  }

  function Both(i: nat, j: nat): seq<Client> {
    [Client("a", i), Client("b", j)]
  }

  function OneOwed(i: nat): Server {
    Server(true, i, NOTHING, 0, 1, 2, 2, NOTHING, Both(i, 0))
  }

  function Joined(): System {
    Start(2, 1, NOTHING).(server := OneOwed(0))
  }

  lemma FirstJoins()
    ensures var t := Next(Start(2, 1, NOTHING), DoRegister("a"));
            t == Start(2, 1, NOTHING).(server := Server(false, 0, NOTHING, 0, 1, 2, 1, NOTHING, [Client("a", 0)]))
  {
  }

  lemma SecondJoins()
    ensures var s := Start(2, 1, NOTHING).(server := Server(false, 0, NOTHING, 0, 1, 2, 1, NOTHING, [Client("a", 0)]));
            Next(s, DoRegister("b")) == Joined()
  {
    assert [Client("a", 0)][1..] == [] && "a"[0] != "b"[0];
    assert [Client("a", 0)] + [Client("b", 0)] == Both(0, 0);
  }

  lemma StartIsInitial(limit: nat, cycle: nat)
    ensures Init(Start(limit, cycle, NOTHING))
  {
  }

  lemma JoinedIsReached()
    ensures Possible(Start(2, 1, NOTHING), [DoRegister("a"), DoRegister("b")])
    ensures After(Start(2, 1, NOTHING), [DoRegister("a"), DoRegister("b")]) == Joined()
  {
    hide Next;
    var s := Start(2, 1, NOTHING);
    var steps := [DoRegister("a"), DoRegister("b")];
    FirstJoins();
    SecondJoins();
    var t := Next(s, steps[0]);
    assert steps[1..] == [steps[1]] && steps[1..][1..] == [];
    assert Possible(Joined(), []) && Possible(t, steps[1..]);
    assert After(t, steps[1..]) == Joined();
  }

  /** What processing a message of client "a" does while "b" is owed. */
  lemma OneMoreFromA(s: System, i: nat)
    requires s.server == OneOwed(i)
    requires s.queue != [] && s.queue[0].ip == "a" && s.queue[0].model == NOTHING && s.queue[0].count == 1
    ensures Enabled(s, DoProcess)
    ensures Next(s, DoProcess) == s.(server := OneOwed(i + 1), queue := s.queue[1..], round := s.round + [s.queue[0]])
  {
    hide AddScaledNet, SameShape;
    LayeredSum(0.0, 0.0, 0.0, 0.0, 0.0, 0.0);
    var counted := Counted(s.server.clients, "a");
    assert counted == Both(i + 1, 0);
    assert counted[1].interaction == 0;
  }

  function Twice(): seq<Step> {
    [DoRegister("a"), DoRegister("b")] + (Turn("a", NOTHING) + (Turn("a", NOTHING) + ([DoProcess] + [DoProcess])))
  }

  /** A client that does not wait for its own submission is aggregated twice in one round
      while the other client is still owed: it is then ahead of every later round. */
  lemma RecheckIsCountedTwice()
    ensures var s := Start(2, 1, NOTHING);
            && Copyable(NOTHING) && Init(s) && Possible(s, Twice())
            && var t := After(s, Twice());
            && t.server.current == 0 && t.server.clients == Both(2, 0)
            && |t.round| == 2 && t.round[0].ip == t.round[1].ip == "a"
            && !Inv(t)
  {
    hide Possible, After, Turn, Enabled, Next, Clients, Messages, Submitted, Partial, Carried, SameShape;
    hide Copyable, Init;
    StartIsInitial(2, 1);
    LayeredIsCopyable(0.0, 0.0, 0.0);
    JoinedIsReached();
    LayeredSum(0.0, 0.0, 0.0, 0.0, 0.0, 0.0);
    var s0 := Joined();
    TurnDone(s0, "a", NOTHING);
    var s1 := After(s0, Turn("a", NOTHING));
    TurnDone(s1, "a", NOTHING);
    var s2 := After(s1, Turn("a", NOTHING));
    OneMoreFromA(s2, 0);
    ProcessDone(s2);
    var s3 := After(s2, [DoProcess]);
    OneMoreFromA(s3, 1);
    ProcessDone(s3);
    var s4 := After(s3, [DoProcess]);
    AfterBoth(s2, [DoProcess], [DoProcess]);
    AfterBoth(s1, Turn("a", NOTHING), [DoProcess] + [DoProcess]);
    AfterBoth(s0, Turn("a", NOTHING), Turn("a", NOTHING) + ([DoProcess] + [DoProcess]));
    AfterBoth(Start(2, 1, NOTHING), [DoRegister("a"), DoRegister("b")],
              Turn("a", NOTHING) + (Turn("a", NOTHING) + ([DoProcess] + [DoProcess])));
    assert s4.server.clients[0].interaction == 2;
    assert !Roster(s4.server);
  }

  // ----- a bias that is never reset

  function Alone(current: nat, sum: NetValue, published: NetValue): Server {
    Server(true, 0, published, current, 2, 1, 1, sum, [Client("a", current)])
  }

  lemma AloneIsReached()
    ensures Possible(Start(1, 2, NOTHING), [DoRegister("a")])
    ensures After(Start(1, 2, NOTHING), [DoRegister("a")])
         == Start(1, 2, NOTHING).(server := Alone(0, NOTHING, NOTHING))
  {
    var s := Start(1, 2, NOTHING);
    var steps := [DoRegister("a")];
    var t := Next(s, steps[0]);
    assert steps[1..] == [] && Possible(t, steps[1..]);
  }

  /** A round of one client whose model is `Layered(x, y, w)`. */
  lemma RoundAlone(s: System, left: real, x: real, y: real, w: real)
    requires s.server == Alone(s.server.current, Layered(0.0, left, 0.0), s.server.published) && s.server.current < 2
    requires |s.queue| == 1 && s.queue[0].ip == "a" && s.queue[0].model == Layered(x, y, w) && s.queue[0].count == 1
    ensures Enabled(s, DoProcess)
    ensures Next(s, DoProcess).server
         == Alone(s.server.current + 1, Layered(0.0, left + y, 0.0), Layered(x, left + y, w))
    ensures Next(s, DoProcess).queue == [] && Next(s, DoProcess).phases == s.phases
  {
    hide AddScaledNet, DividedNet, ResetNet, SameShape, Layered;
    var counted := Counted(s.server.clients, "a");
    assert counted == [Client("a", s.server.current + 1)];
    LayeredSum(0.0, left, 0.0, x, y, w);
    LayeredAverage(x, left + y, w);
    LayeredReset(x, left + y, w);
  }

  function TwoRounds(): seq<Step> {
    var round := Turn("a", Layered(1.0, 1.0, 1.0)) + [DoProcess];
    [DoRegister("a")] + (round + round)
  }

  /** Both rounds aggregate the one model whose parameters are 1, yet the second round
      publishes 2 as the bias of every layer's second neuron: no mean of the round's models. */
  lemma SecondBiasDrifts()
    ensures var s := Start(1, 2, NOTHING);
            && Copyable(NOTHING) && Init(s) && Possible(s, TwoRounds())
            && After(s, TwoRounds()).server.current == 2
            && After(s, TwoRounds()).server.published == Layered(1.0, 2.0, 1.0)
  {
    hide Possible, After, Turn, Enabled, Next, SameShape, Layered, Copyable, Init;
    var model := Layered(1.0, 1.0, 1.0);
    var round := Turn("a", model) + [DoProcess];
    StartIsInitial(1, 2);
    LayeredIsCopyable(0.0, 0.0, 0.0);
    AloneIsReached();
    LayeredSum(0.0, 0.0, 0.0, 1.0, 1.0, 1.0);
    LayeredSum(0.0, 1.0, 0.0, 1.0, 1.0, 1.0);
    var s0 := Start(1, 2, NOTHING).(server := Alone(0, NOTHING, NOTHING));
    TurnDone(s0, "a", model);
    var s1 := After(s0, Turn("a", model));
    RoundAlone(s1, 0.0, 1.0, 1.0, 1.0);
    ProcessDone(s1);
    var s2 := After(s1, [DoProcess]);
    TurnDone(s2, "a", model);
    var s3 := After(s2, Turn("a", model));
    RoundAlone(s3, 1.0, 1.0, 1.0, 1.0);
    ProcessDone(s3);
    AfterBoth(s0, Turn("a", model), [DoProcess]);
    AfterBoth(s2, Turn("a", model), [DoProcess]);
    AfterBoth(s0, round, round);
    AfterBoth(Start(1, 2, NOTHING), [DoRegister("a")], round + round);
  }
}
