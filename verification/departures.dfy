/**
 Clients that leave: a client whose status check is refused breaks out of its loop and
 never comes back (FederatedLearningESP32/main/main.c:73-87), while the server goes on
 waiting for it (FederatedLearningServer/src/federatedlearning.c:741-753).
 */
module Departures {
  import opened Network
  import opened Rounds
  import opened Protocol

  /** The federation and the clients that have left their loops. */
  datatype Fleet = Fleet(system: System, gone: set<string>)

  predicate Refused(s: System, step: Step) {
    step.DoCheck? && !CheckStatus(s.server, step.ip)
  }

  /** Whoever has left neither registers nor checks again. */
  predicate Able(f: Fleet, step: Step) {
    && Enabled(f.system, step) && Disciplined(f.system, step)
    && (step.DoCheck? || step.DoRegister? ==> step.ip !in f.gone)
  }

  function Move(f: Fleet, step: Step): Fleet
    requires Able(f, step)
  {
    Fleet(Next(f.system, step), if Refused(f.system, step) then f.gone + {step.ip} else f.gone)
  }

  ghost predicate Sail(run: seq<Fleet>, steps: seq<Step>) {
    && |run| == |steps| + 1
    && Init(run[0].system) && run[0].gone == {}
    && forall i :: 0 <= i < |steps| ==> Able(run[i], steps[i]) && run[i + 1] == Move(run[i], steps[i])
  }

  /** Nothing is under way from a client that has left. */
  predicate Quiet(f: Fleet) {
    forall ip :: ip in f.gone ==> !Pending(f.system, ip)
  }

  lemma QuietStays(f: Fleet, step: Step)
    requires Quiet(f) && Able(f, step)
    ensures Quiet(Move(f, step))
  {
    hide CheckStatus, Submit, Register;
    var (s, t) := (f.system, Move(f, step).system);
    forall ip | ip in Move(f, step).gone ensures !Pending(t, ip) {
      assert !Pending(s, ip);
      forall k | 0 <= k < |t.queue| ensures t.queue[k].ip != ip {
        if step.DoSend? {
          assert k < |s.queue| ==> t.queue[k] == s.queue[k];
        } else if step.DoProcess? {
          assert t.queue[k] == s.queue[k + 1];
        }
      }
    }
  }

  lemma {:induction false} SailKeeps(run: seq<Fleet>, steps: seq<Step>, i: nat)
    requires Sail(run, steps) && i < |run|
    ensures Inv(run[i].system) && Quiet(run[i])
  {
    hide Inv, Quiet, Next, Enabled, Disciplined;
    if i == 0 {
      InitHolds(run[0].system);
      NobodyGone(run[0]);
    } else {
      SailKeeps(run, steps, i - 1);
      assert Able(run[i - 1], steps[i - 1]);
      StepKeeps(run[i - 1].system, steps[i - 1]);
      QuietStays(run[i - 1], steps[i - 1]);
    }
  }

  lemma NobodyGone(f: Fleet)
    requires f.gone == {}
    ensures Quiet(f)
  {
  }

  /** A step that does not process a client's message leaves its interaction alone. */
  lemma InteractionStays(s: System, step: Step, ip: string)
    requires Inv(s) && Enabled(s, step) && Knows(s.server, ip) && !Queued(s, ip)
    ensures Knows(Next(s, step).server, ip)
    ensures Interaction(Next(s, step).server, ip) == Interaction(s.server, ip)
  {
    hide Partial, Carried, Submitted, Clients;
    if step.DoRegister? {
      FindExtended(s.server.clients, Client(step.ip, 0), ip);
    } else if step.DoProcess? {
      assert s.queue[0].ip != ip;
      assert Owes(s.server, s.queue[0].ip);
      CountedRoster(s.server, s.queue[0].ip, s.server.(clients := Counted(s.server.clients, s.queue[0].ip)));
    }
  }

  /** Once a registered client has left, its interaction stays, and the round counter
      never gets past it. */
  lemma {:induction false} DepartedBoundsRounds(run: seq<Fleet>, steps: seq<Step>, i: nat, j: nat, ip: string)
    requires Sail(run, steps) && i <= j < |run|
    requires ip in run[i].gone && Knows(run[i].system.server, ip)
    ensures ip in run[j].gone && Knows(run[j].system.server, ip)
    ensures Interaction(run[j].system.server, ip) == Interaction(run[i].system.server, ip)
    ensures run[j].system.server.current <= Interaction(run[i].system.server, ip)
    decreases j
  {
    hide Next, Enabled, Disciplined, Inv, Init;
    SailKeeps(run, steps, j);
    if i < j {
      DepartedBoundsRounds(run, steps, i, j - 1, ip);
      SailKeeps(run, steps, j - 1);
      assert Able(run[j - 1], steps[j - 1]);
      InteractionStays(run[j - 1].system, steps[j - 1], ip);
    }
    NotBehind(run[j].system, ip);
  }

  lemma NotBehind(s: System, ip: string)
    requires Inv(s) && Knows(s.server, ip)
    ensures s.server.current <= Interaction(s.server, ip) <= s.server.current + 1
  {
  }

  /** The last round ends only in runs in which every registered client that left had
      made its submission of the last round before it was refused. */
  lemma {:induction false} FinishingNeedsEveryone(run: seq<Fleet>, steps: seq<Step>, k: nat, j: nat)
    requires Sail(run, steps) && k < j < |run| && Refused(run[k].system, steps[k])
    requires Knows(run[k].system.server, steps[k].ip)
    requires run[j].system.server.current == run[j].system.server.cycle
    ensures var s := run[k].system;
            || s.server.current == s.server.cycle
            || (s.server.current == s.server.cycle - 1 && SentBy(s.round, steps[k].ip))
  {
    hide Next, Enabled, Disciplined, Partial, Carried, Clients, Messages;
    var (s, ip) := (run[k].system, steps[k].ip);
    SailKeeps(run, steps, k);
    assert Able(run[k], steps[k]) && run[k + 1].system == s by {
      RefusalChangesNothing(s, steps[k]);
    }
    DepartedBoundsRounds(run, steps, k + 1, j, ip);
    CycleStays(run, steps, k, j);
    NotBehind(s, ip);
    assert s.server.clients[Find(s.server.clients, ip)].ip == ip;
  }

  lemma RefusalChangesNothing(s: System, step: Step)
    requires Enabled(s, step) && Refused(s, step)
    ensures Next(s, step) == s
  {
  }

  lemma {:induction false} CycleStays(run: seq<Fleet>, steps: seq<Step>, i: nat, j: nat)
    requires Sail(run, steps) && i <= j < |run|
    ensures run[j].system.server.cycle == run[i].system.server.cycle
    decreases j
  {
    hide Init, Next, Enabled, Disciplined;
    if i < j {
      CycleStays(run, steps, i, j - 1);
      assert Able(run[j - 1], steps[j - 1]);
      StepKeepsCycle(run[j - 1].system, steps[j - 1]);
    }
  }

  lemma StepKeepsCycle(s: System, step: Step)
    requires Enabled(s, step)
    ensures Next(s, step).server.cycle == s.server.cycle
  {
    hide AddScaledNet, DividedNet, ResetNet, SameShape, Waiting, Counted;
  }

  /** In particular, a client that is refused before everyone has registered, or in any
      round but the last one, keeps the federation from ever finishing. */
  lemma EarlyRefusalBlocks(run: seq<Fleet>, steps: seq<Step>, k: nat, j: nat)
    requires Sail(run, steps) && k < j < |run| && Refused(run[k].system, steps[k])
    requires Knows(run[k].system.server, steps[k].ip)
    requires run[k].system.server.current < run[k].system.server.cycle
    requires run[k].system.server.current < run[k].system.server.cycle - 1 || !SentBy(run[k].system.round, steps[k].ip)
    ensures run[j].system.server.current < run[j].system.server.cycle
  {
    hide Sail;
    SailKeeps(run, steps, j);
    if run[j].system.server.current == run[j].system.server.cycle {
      FinishingNeedsEveryone(run, steps, k, j);
    }
  }
}
