/**
 When the last round can still end, once clients may leave their loops for good
 (FederatedLearningESP32/main/main.c:73-87, FederatedLearningServer/src/federatedlearning.c:730-773).
 */
module Finishing {
  import opened Network
  import opened Rounds
  import opened Protocol
  import opened Departures
  import Deviations
  import Federation
  import Recheck

  /** The fleet can take these steps, one after the other. */
  predicate Takes(f: Fleet, steps: seq<Step>)
    decreases |steps|
  {
    steps == [] || (Able(f, steps[0]) && Takes(Move(f, steps[0]), steps[1..]))
  }

  function Reached(f: Fleet, steps: seq<Step>): Fleet
    requires Takes(f, steps)
    decreases |steps|
  {
    if steps == [] then f else Reached(Move(f, steps[0]), steps[1..])
  }

  predicate Finished(s: System) {
    s.server.current == s.server.cycle
  }

  ghost predicate CanFinish(f: Fleet) {
    exists steps :: Takes(f, steps) && Finished(Reached(f, steps).system)
  }

  /** Every registered client that has left had been counted in the last round. */
  predicate NobodyMissing(f: Fleet) {
    forall ip :: ip in f.gone && Knows(f.system.server, ip) ==>
      Interaction(f.system.server, ip) == f.system.server.cycle
  }

  /** The server expects clients, and waits for one of them while rounds remain. */
  predicate Open(s: Server) {
    s.limit > 0 && (s.registered == s.limit && s.current < s.cycle ==> Waiting(s.clients, s.current))
  }

  /** What holds of every fleet on its way, if the server expects any clients. */
  ghost predicate Afloat(f: Fleet) {
    Inv(f.system) && Quiet(f) && Open(f.system.server)
  }

  // ----- what every step keeps

  lemma OpenStays(s: System, step: Step)
    requires Inv(s) && Enabled(s, step) && Open(s.server)
    ensures Open(Next(s, step).server)
  {
    hide Clients, Messages, Submitted, Partial, Carried, AddScaledNet, DividedNet, ResetNet, SameShape;
    var t := Next(s, step);
    if step.DoRegister? {
      if s.server.registered < s.server.limit && t.server.registered == t.server.limit {
        assert t.server.clients[0].interaction == t.server.current;
      }
    } else if step.DoProcess? {
      ProcessLeavesOpen(s);
    }
  }

  lemma ProcessLeavesOpen(s: System)
    requires Inv(s) && Enabled(s, DoProcess) && Open(s.server)
    ensures Open(Next(s, DoProcess).server)
  {
    hide Clients, Messages, Submitted, Partial, Carried, AddScaledNet, DividedNet, ResetNet, SameShape;
    var (m, t) := (s.queue[0], Next(s, DoProcess));
    Federation.FirstOwes(s);
    var counted := s.server.(clients := Counted(s.server.clients, m.ip));
    CountedRoster(s.server, m.ip, counted);
    if t.server.current != s.server.current {
      assert !Waiting(counted.clients, s.server.current);
      assert counted.clients[0].interaction != s.server.current;
      assert t.server.clients[0].interaction == t.server.current;
    }
  }

  lemma AfloatStays(f: Fleet, step: Step)
    requires Afloat(f) && Able(f, step)
    ensures Afloat(Move(f, step))
  {
    hide Inv, Quiet, Open, Next, Enabled, Disciplined;
    StepKeeps(f.system, step);
    QuietStays(f, step);
    OpenStays(f.system, step);
  }

  /** A client that has left stays as it is. */
  lemma LeftStays(f: Fleet, step: Step, ip: string)
    requires Afloat(f) && Able(f, step) && ip in f.gone && Knows(f.system.server, ip)
    ensures ip in Move(f, step).gone && Knows(Move(f, step).system.server, ip)
    ensures Interaction(Move(f, step).system.server, ip) == Interaction(f.system.server, ip)
    ensures Move(f, step).system.server.cycle == f.system.server.cycle
  {
    hide Inv, Next, Enabled, Disciplined;
    InteractionStays(f.system, step, ip);
    StepKeepsCycle(f.system, step);
  }

  // ----- only if

  lemma {:induction false} MissingBlocks(f: Fleet, steps: seq<Step>, ip: string)
    requires Afloat(f) && Takes(f, steps) && ip in f.gone && Knows(f.system.server, ip)
    requires Interaction(f.system.server, ip) < f.system.server.cycle
    ensures !Finished(Reached(f, steps).system)
    decreases |steps|
  {
    hide Inv, Quiet, Open, Able, Move;
    if steps == [] {
      NotBehind(f.system, ip);
    } else {
      AfloatStays(f, steps[0]);
      LeftStays(f, steps[0], ip);
      MissingBlocks(Move(f, steps[0]), steps[1..], ip);
    }
  }

  // ----- if: one step after the other

  lemma {:induction false} OneStep(f: Fleet, step: Step)
    requires Able(f, step) && CanFinish(Move(f, step))
    ensures CanFinish(f)
  {
    hide Able, Move;
    var rest :| Takes(Move(f, step), rest) && Finished(Reached(Move(f, step), rest).system);
    var steps := [step] + rest;
    assert steps[1..] == rest;
    assert Takes(f, steps) && Reached(f, steps) == Reached(Move(f, step), rest);
  }

  lemma NobodyGetsMissing(f: Fleet, step: Step)
    requires Afloat(f) && Able(f, step) && NobodyMissing(f) && !Refused(f.system, step)
    ensures NobodyMissing(Move(f, step))
  {
    hide Afloat;
    var g := Move(f, step);
    forall ip | ip in g.gone && Knows(g.system.server, ip)
      ensures Interaction(g.system.server, ip) == g.system.server.cycle
    {
      WasKnown(f, step, ip);
      LeftStays(f, step, ip);
    }
  }

  lemma WasKnown(f: Fleet, step: Step, ip: string)
    requires Afloat(f) && Able(f, step) && ip in f.gone && Knows(Move(f, step).system.server, ip)
    ensures Knows(f.system.server, ip)
  {
    hide Clients, Submitted, Partial, Carried, AddScaledNet, DividedNet, ResetNet, SameShape;
    var s := f.system;
    if step.DoRegister? {
      FindExtended(s.server.clients, Client(step.ip, 0), ip);
    } else if step.DoProcess? {
      Federation.FirstOwes(s);
      CountedRoster(s.server, s.queue[0].ip, s.server.(clients := Counted(s.server.clients, s.queue[0].ip)));
    }
  }

  // ----- an address that nobody has

  lemma {:induction false} LongerThanAll(used: set<string>) returns (n: nat)
    ensures forall a :: a in used ==> |a| < n
    decreases |used|
  {
    n := 0;
    if used != {} {
      var a :| a in used;
      var m := LongerThanAll(used - {a});
      n := m + |a| + 1;
    }
  }

  lemma NewAddress(f: Fleet) returns (ip: string)
    ensures ip !in f.gone && !Knows(f.system.server, ip)
  {
    var clients := f.system.server.clients;
    var n := LongerThanAll(f.gone + set i | 0 <= i < |clients| :: clients[i].ip);
    ip := seq(n, _ => 'a');
  }

  // ----- how many clients still owe

  function Owing(clients: seq<Client>, current: nat): nat {
    if clients == [] then 0
    else (if clients[0].interaction == current then 1 else 0) + Owing(clients[1..], current)
  }

  lemma {:induction false} OneOwesLess(clients: seq<Client>, i: nat, c: Client, current: nat)
    requires i < |clients| && clients[i].interaction == current && c.interaction != current
    ensures Owing(clients[i := c], current) < Owing(clients, current)
  {
    if i == 0 {
      assert clients[0 := c][1..] == clients[1..];
    } else {
      assert clients[i := c][1..] == clients[1..][i - 1 := c];
      OneOwesLess(clients[1..], i - 1, c, current);
    }
  }

  /** How far a fleet is from its end: rounds, registrations, submissions. */
  function RoundsLeft(f: Fleet): nat {
    if f.system.server.current < f.system.server.cycle then f.system.server.cycle - f.system.server.current else 0
  }

  function Vacancies(f: Fleet): nat {
    if f.system.server.registered < f.system.server.limit then f.system.server.limit - f.system.server.registered
    else 0
  }

  function Debts(f: Fleet): nat {
    Owing(f.system.server.clients, f.system.server.current)
  }

  function Unsent(f: Fleet): nat {
    if f.system.queue == [] then 1 else 0
  }

  lemma ProcessIsCloser(f: Fleet)
    requires Afloat(f) && Enabled(f.system, DoProcess) && f.system.server.current < f.system.server.cycle
    ensures var g := Move(f, DoProcess);
            || RoundsLeft(g) < RoundsLeft(f)
            || (RoundsLeft(g) == RoundsLeft(f) && Vacancies(g) == Vacancies(f) && Debts(g) < Debts(f))
  {
    hide Clients, Messages, Submitted, Partial, Carried, AddScaledNet, DividedNet, ResetNet, SameShape, Quiet;
    var s := f.system;
    var i := Find(s.server.clients, s.queue[0].ip);
    Federation.FirstOwes(s);
    OneOwesLess(s.server.clients, i, Client(s.queue[0].ip, s.server.clients[i].interaction + 1), s.server.current);
  }

  /** A client that owes while no message is queued. */
  predicate OwesFirst(f: Fleet, ip: string) {
    && Owes(f.system.server, ip) && ip !in f.gone && f.system.queue == []
    && f.system.server.current < f.system.server.cycle
  }

  lemma SomeoneOwes(f: Fleet) returns (ip: string)
    requires Afloat(f) && NobodyMissing(f) && f.system.server.current < f.system.server.cycle
    requires f.system.server.registered == f.system.server.limit && f.system.queue == []
    ensures OwesFirst(f, ip)
  {
    hide Clients, Messages, Submitted, Partial, Carried;
    var s := f.system.server;
    var i :| 0 <= i < |s.clients| && s.clients[i].interaction == s.current;
    ip := s.clients[i].ip;
    var j := Find(s.clients, ip);
    assert j <= i && s.clients[j].ip == s.clients[i].ip;
  }

  lemma {:induction false} Finishes(f: Fleet)
    requires Afloat(f) && (Finished(f.system) || NobodyMissing(f))
    ensures CanFinish(f)
    decreases RoundsLeft(f), Vacancies(f), Debts(f), Unsent(f), 4
  {
    hide Inv, Quiet, Able, Move, NobodyMissing, Debts;
    InRange(f.system);
    if Finished(f.system) {
      assert Takes(f, []) && Reached(f, []) == f;
    } else if f.system.server.registered < f.system.server.limit {
      FinishesByRegistering(f);
    } else if f.system.queue != [] {
      FinishesByProcessing(f);
    } else {
      var ip := SomeoneOwes(f);
      FinishesBySending(f, ip);
    }
  }

  lemma InRange(s: System)
    requires Inv(s)
    ensures s.server.current <= s.server.cycle && s.server.registered <= s.server.limit
  {
  }

  lemma {:induction false} FinishesByRegistering(f: Fleet)
    requires Afloat(f) && NobodyMissing(f) && f.system.server.registered < f.system.server.limit
    ensures CanFinish(f)
    decreases RoundsLeft(f), Vacancies(f), Debts(f), Unsent(f), 3
  {
    hide Inv, Quiet, NobodyMissing, Debts;
    var ip := NewAddress(f);
    var step := DoRegister(ip);
    AfloatStays(f, step);
    NobodyGetsMissing(f, step);
    Finishes(Move(f, step));
    OneStep(f, step);
  }

  lemma {:induction false} FinishesByProcessing(f: Fleet)
    requires Afloat(f) && NobodyMissing(f) && f.system.queue != []
    requires f.system.server.current < f.system.server.cycle
    ensures CanFinish(f)
    decreases RoundsLeft(f), Vacancies(f), Debts(f), Unsent(f), 3
  {
    hide Inv, Quiet, Open, NobodyMissing, RoundsLeft, Vacancies, Debts, Next, Enabled;
    Recheck.CanProcess(f.system);
    AfloatStays(f, DoProcess);
    NobodyGetsMissing(f, DoProcess);
    ProcessIsCloser(f);
    Finishes(Move(f, DoProcess));
    OneStep(f, DoProcess);
  }

  /** The part of a client's turn that is left. */
  function TurnLeft(f: Fleet, ip: string): nat {
    match PhaseOf(f.system, ip)
    case Idle => 3
    case Granted(_) => 2
    case Holding(_, _) => 1
  }

  function TurnStep(f: Fleet, ip: string): Step {
    match PhaseOf(f.system, ip)
    case Idle => DoCheck(ip)
    case Granted(_) => DoGetModel(ip)
    case Holding(_, _) => DoSend(ip, f.system.server.sum, 1)
  }

  lemma TurnIsTaken(f: Fleet, ip: string)
    requires Afloat(f) && OwesFirst(f, ip)
    ensures Able(f, TurnStep(f, ip)) && !Refused(f.system, TurnStep(f, ip))
    ensures var g := Move(f, TurnStep(f, ip));
            && g.system.server == f.system.server && g.gone == f.gone
            && if TurnStep(f, ip).DoSend? then g.system.queue != []
               else g.system.queue == [] && TurnLeft(g, ip) < TurnLeft(f, ip)
  {
    hide Clients, Messages, Submitted, Partial, Carried;
    Recheck.SameAsItself(f.system.server.sum);
    assert f.system.server.status;
  }

  lemma {:induction false} FinishesBySending(f: Fleet, ip: string)
    requires Afloat(f) && NobodyMissing(f) && OwesFirst(f, ip)
    ensures CanFinish(f)
    decreases RoundsLeft(f), Vacancies(f), Debts(f), Unsent(f), TurnLeft(f, ip)
  {
    hide Inv, Quiet, Open, NobodyMissing, Able, Move, TurnLeft, TurnStep, Owes;
    var step := TurnStep(f, ip);
    TurnIsTaken(f, ip);
    AfloatStays(f, step);
    NobodyGetsMissing(f, step);
    if Move(f, step).system.queue != [] {
      Finishes(Move(f, step));
    } else {
      FinishesBySending(Move(f, step), ip);
    }
    OneStep(f, step);
  }

  // ----- exactly when

  /** The last round can still end if and only if it has ended, or every registered client
      that has left had been counted in it. */
  lemma FinishesIff(f: Fleet)
    requires Afloat(f)
    ensures CanFinish(f) <==> Finished(f.system) || NobodyMissing(f)
  {
    hide Inv, Quiet, Open;
    if Finished(f.system) || NobodyMissing(f) {
      Finishes(f);
    } else {
      var ip :| ip in f.gone && Knows(f.system.server, ip)
                && Interaction(f.system.server, ip) != f.system.server.cycle;
      NotBehind(f.system, ip);
      InRange(f.system);
      forall steps | Takes(f, steps) ensures !Finished(Reached(f, steps).system) {
        MissingBlocks(f, steps, ip);
      }
    }
  }

  lemma {:induction false} SailIsAfloat(run: seq<Fleet>, steps: seq<Step>, i: nat)
    requires Sail(run, steps) && i < |run| && run[0].system.server.limit > 0
    ensures Afloat(run[i])
  {
    hide Inv, Quiet, Open, Enabled, Disciplined, Next;
    if i == 0 {
      SailKeeps(run, steps, 0);
      OpenAtFirst(run[0].system);
    } else {
      SailIsAfloat(run, steps, i - 1);
      assert Able(run[i - 1], steps[i - 1]);
      AfloatStays(run[i - 1], steps[i - 1]);
    }
  }

  lemma OpenAtFirst(s: System)
    requires Init(s) && s.server.limit > 0
    ensures Open(s.server)
  {
  }

  /** The same at every moment of every run. */
  lemma SailFinishesIff(run: seq<Fleet>, steps: seq<Step>, i: nat)
    requires Sail(run, steps) && i < |run| && run[0].system.server.limit > 0
    ensures CanFinish(run[i]) <==> Finished(run[i].system) || NobodyMissing(run[i])
  {
    hide Sail, Inv, Quiet, Open;
    SailIsAfloat(run, steps, i);
    FinishesIff(run[i]);
  }

  // ----- the first client asks too early

  function Early(): Fleet {
    Fleet(Deviations.Start(2, 2, Deviations.NOTHING), {})
  }

  /** Of two clients the first one registers and checks before the second one has
      registered: it is refused, leaves, and the federation cannot finish any more. */
  lemma EarlyCheckBlocks()
    ensures var steps := [DoRegister("a"), DoCheck("a")];
            && Init(Early().system) && Takes(Early(), steps)
            && Reached(Early(), steps).gone == {"a"} && !CanFinish(Reached(Early(), steps))
  {
    hide CanFinish, Inv, Quiet, Init;
    var f := Early();
    var (first, second) := (DoRegister("a"), DoCheck("a"));
    Deviations.StartIsInitial(2, 2);
    InitHolds(f.system);
    OpenAtFirst(f.system);
    NobodyGone(f);
    AfloatStays(f, first);
    var g := Move(f, first);
    AfloatStays(g, second);
    var h := Move(g, second);
    assert h.gone == {"a"};
    assert Knows(h.system.server, "a") && Interaction(h.system.server, "a") == 0;
    FinishesIff(h);
    var steps := [first, second];
    assert steps[1..] == [second] && steps[1..][1..] == [];
    assert Takes(g, [second]) && Reached(g, [second]) == h by {
      assert [second][1..] == [];
      assert Takes(h, []) && Reached(h, []) == h;
    }
  }
}
