/**
 Why clients must wait for their own submissions: what a status check leads to while the
 client's model is still queued (FederatedLearningServer/src/httphandlers.c:119-130,
 FederatedLearningServer/src/websocketserver.c:47-108).
 */
module Recheck {
  import opened Network
  import opened Rounds
  import opened Protocol
  import opened Federation

  /** The steps can be taken from this state, one after the other. */
  predicate Possible(s: System, steps: seq<Step>)
    decreases |steps|
  {
    steps == [] || (Enabled(s, steps[0]) && Possible(Next(s, steps[0]), steps[1..]))
  }

  function After(s: System, steps: seq<Step>): System
    requires Possible(s, steps)
    decreases |steps|
  {
    if steps == [] then s else After(Next(s, steps[0]), steps[1..])
  }

  /** Every client waits for its own submission while these steps are taken. */
  predicate Waits(s: System, steps: seq<Step>)
    requires Possible(s, steps)
    decreases |steps|
  {
    steps == [] || (Disciplined(s, steps[0]) && Waits(Next(s, steps[0]), steps[1..]))
  }

  /** The server is about to take a second message of a client in one round, or one that
      was admitted to an earlier round. */
  predicate Wrong(s: System) {
    Enabled(s, DoProcess) && (SentBy(s.round, s.queue[0].ip) || s.queue[0].at != s.server.current)
  }

  ghost predicate GoesWrong(s: System) {
    exists steps :: Possible(s, steps) && Waits(s, steps) && Wrong(After(s, steps))
  }

  lemma InvIsRight(s: System)
    requires Inv(s)
    ensures !Wrong(s)
  {
    hide Partial, Carried;
    if s.queue != [] {
      assert WellSent(s.server, s.queue[0]) && Owes(s.server, s.queue[0].ip);
      if s.server.current < s.server.cycle {
        NotYetSubmitted(s, s.queue[0].ip);
      }
    }
  }

  lemma {:induction false} StaysRight(s: System, steps: seq<Step>)
    requires Inv(s) && Possible(s, steps) && Waits(s, steps)
    ensures !Wrong(After(s, steps))
    decreases |steps|
  {
    hide Inv, Next, Enabled, Disciplined, Wrong;
    if steps == [] {
      InvIsRight(s);
    } else {
      StepKeeps(s, steps[0]);
      StaysRight(Next(s, steps[0]), steps[1..]);
    }
  }

  // ----- processing what is queued, with one more message behind it

  function Behind(s: System, m: Message, phases: map<string, Phase>): System {
    s.(queue := s.queue + [m], phases := phases)
  }

  lemma ProcessBehind(s: System, m: Message, phases: map<string, Phase>)
    requires Enabled(s, DoProcess)
    ensures Enabled(Behind(s, m, phases), DoProcess)
    ensures Next(Behind(s, m, phases), DoProcess) == Behind(Next(s, DoProcess), m, phases)
  {
    hide Submit, SameShape;
    assert (s.queue + [m])[1..] == s.queue[1..] + [m];
  }

  lemma CanProcess(s: System)
    requires Inv(s) && s.queue != []
    ensures Enabled(s, DoProcess)
  {
    hide Roster, Clients, Submitted, Partial, Carried;
    assert Owes(s.server, s.queue[0].ip) && WellSent(s.server, s.queue[0]);
    CounterIsNat(s);
  }

  lemma CounterIsNat(s: System)
    requires Inv(s)
    ensures s.server.counter >= 0
  {
    assert forall k :: 0 <= k < |s.round| ==> WellSent(s.server, s.round[k]);
    TotalIsNat(s.round);
  }

  /** The client has a message under way or in the round, or its round is over. */
  predicate Spent(s: System, ip: string, at: nat) {
    Queued(s, ip) || SentBy(s.round, ip) || s.server.current > at
  }

  lemma StillSpent(s: System, ip: string, at: nat)
    requires Inv(s) && Enabled(s, DoProcess) && at <= s.server.current && at < s.server.cycle
    requires Spent(s, ip, at) && Knows(s.server, ip)
    ensures var t := Next(s, DoProcess);
            Spent(t, ip, at) && Knows(t.server, ip) && at <= t.server.current && t.server.cycle == s.server.cycle
  {
    hide Partial, Carried, Clients, AddScaledNet, DividedNet, ResetNet, SameShape;
    var (m, t) := (s.queue[0], Next(s, DoProcess));
    assert Owes(s.server, m.ip);
    CountedRoster(s.server, m.ip, s.server.(clients := Counted(s.server.clients, m.ip)));
    if t.server.current == at {
      if Queued(s, ip) {
        var k :| 0 <= k < |s.queue| && s.queue[k].ip == ip;
        if k == 0 {
          assert t.round[|s.round|].ip == ip;
        } else {
          assert t.queue[k - 1].ip == ip;
        }
      } else if SentBy(s.round, ip) {
        var k :| 0 <= k < |s.round| && s.round[k].ip == ip;
        assert t.round[k].ip == ip;
      }
    }
  }

  lemma ShapeStays(s: System, model: NetValue)
    requires Inv(s) && Enabled(s, DoProcess) && SameShape(s.server.sum, model)
    ensures SameShape(Next(s, DoProcess).server.sum, model)
  {
    hide Roster, Clients, Messages, Submitted, Partial, Carried, SameShape, Waiting;
    var m := s.queue[0];
    var sum := AddScaledNet(s.server.sum, m.model, m.count);
    ShapeIsKept(sum, s.server.sum, model);
    if s.server.current < s.server.cycle && !Waiting(Counted(s.server.clients, m.ip), s.server.current) {
      var average := DividedNet(sum, s.server.counter + m.count);
      ShapeIsKept(average, sum, model);
      ShapeIsKept(ResetNet(average), average, model);
    }
  }

  /** Once the queue before it is processed, the message behind it is a wrong one. */
  lemma {:induction false} BehindGoesWrong(s: System, m: Message, phases: map<string, Phase>)
    returns (steps: seq<Step>)
    requires Inv(s) && m.at <= s.server.current && m.at < s.server.cycle && Spent(s, m.ip, m.at)
    requires Knows(s.server, m.ip) && m.count > 0 && SameShape(s.server.sum, m.model)
    ensures Possible(Behind(s, m, phases), steps) && Waits(Behind(s, m, phases), steps)
    ensures Wrong(After(Behind(s, m, phases), steps))
    decreases |s.queue|
  {
    hide Inv, Next, Knows, SameShape;
    if s.queue == [] {
      CounterIsNat(s);
      assert Behind(s, m, phases).queue == [m];
      steps := [];
    } else {
      CanProcess(s);
      StepKeeps(s, DoProcess);
      StillSpent(s, m.ip, m.at);
      ShapeStays(s, m.model);
      ProcessBehind(s, m, phases);
      OneLess(s);
      var rest := BehindGoesWrong(Next(s, DoProcess), m, phases);
      steps := [DoProcess] + rest;
      assert steps[1..] == rest;
    }
  }

  lemma OneLess(s: System)
    requires Enabled(s, DoProcess)
    ensures Next(s, DoProcess).queue == s.queue[1..]
  {
  }

  /** After a positive check, clients that wait from then on can still be led to a wrong
      message if and only if the client that checked had one of its own in the queue. */
  lemma {:induction false} RecheckGoesWrongIff(s: System, ip: string)
    requires Inv(s) && s.server.current < s.server.cycle
    requires Enabled(s, DoCheck(ip)) && CheckStatus(s.server, ip)
    ensures GoesWrong(Next(s, DoCheck(ip))) <==> Queued(s, ip)
  {
    var t := Next(s, DoCheck(ip));
    if Queued(s, ip) {
      RecheckGoesWrong(s, ip);
    } else {
      CheckKeeps(s, ip);
      forall steps | Possible(t, steps) && Waits(t, steps) ensures !Wrong(After(t, steps)) {
        StaysRight(t, steps);
      }
    }
  }

  lemma {:induction false} RecheckGoesWrong(s: System, ip: string)
    requires Inv(s) && s.server.current < s.server.cycle && Queued(s, ip)
    requires Enabled(s, DoCheck(ip)) && CheckStatus(s.server, ip)
    ensures GoesWrong(Next(s, DoCheck(ip)))
  {
    hide Inv, Wrong;
    var t := Next(s, DoCheck(ip));
    var model := s.server.sum;
    SameAsItself(model);
    var turn := [DoGetModel(ip), DoSend(ip, model, 1)];
    var t1 := Next(t, turn[0]);
    var t2 := Next(t1, turn[1]);
    var m := Message(ip, model, 1, s.server.published, s.server.current);
    assert t2 == Behind(s, m, t2.phases);
    var rest := BehindGoesWrong(s, m, t2.phases);
    var steps := turn + rest;
    assert steps[1..] == [turn[1]] + rest && steps[1..][1..] == rest;
    assert Possible(t1, steps[1..]) && Waits(t1, steps[1..]) && After(t1, steps[1..]) == After(t2, rest);
    assert Possible(t, steps) && Waits(t, steps) && After(t, steps) == After(t2, rest);
  }

  lemma SameAsItself(n: NetValue)
    ensures SameShape(n, n)
  {
  }
}
