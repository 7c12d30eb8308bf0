/**
 Where a submission comes from, over every run, also one in which clients do not wait: the
 check that admitted it, the download it was trained from, and its sending, in the loop of
 FederatedLearningESP32/main/main.c:73-87.
 */
module Histories {
  import opened Network
  import opened Rounds
  import opened Protocol

  /** Any run from registration on. */
  ghost predicate Trace(run: seq<System>, steps: seq<Step>) {
    && |run| == |steps| + 1
    && Init(run[0])
    && forall i :: 0 <= i < |steps| ==> Enabled(run[i], steps[i]) && run[i + 1] == Next(run[i], steps[i])
  }

  /** A step of the client's loop. */
  predicate By(step: Step, ip: string) {
    !step.DoRegister? && !step.DoProcess? && step.ip == ip
  }

  /** Between these two moments the client takes no step of its loop. */
  ghost predicate Rests(steps: seq<Step>, a: nat, j: nat, ip: string) {
    forall m :: a < m < j && m < |steps| ==> !By(steps[m], ip)
  }

  /** With step `a` the client is admitted to round `at`. */
  ghost predicate Admits(run: seq<System>, steps: seq<Step>, a: nat, ip: string, at: nat) {
    && a < |steps| && a < |run|
    && steps[a] == DoCheck(ip) && CheckStatus(run[a].server, ip) && run[a].server.current == at
  }

  /** The next step of the admitted client is `g`, with which it downloads `base`. */
  ghost predicate Downloads(run: seq<System>, steps: seq<Step>, a: nat, g: nat, ip: string, at: nat, base: NetValue) {
    && Admits(run, steps, a, ip, at) && a < g < |steps| && g < |run|
    && steps[g] == DoGetModel(ip) && run[g].server.published == base && Rests(steps, a, g, ip)
  }

  /** And the next one is `k`, with which it sends the message. */
  ghost predicate Sends(run: seq<System>, steps: seq<Step>, a: nat, g: nat, k: nat, m: Message) {
    && Downloads(run, steps, a, g, m.ip, m.at, m.base)
    && g < k < |steps| && steps[k] == DoSend(m.ip, m.model, m.count) && Rests(steps, g, k, m.ip)
  }

  ghost predicate Sent(run: seq<System>, steps: seq<Step>, j: nat, m: Message) {
    exists a, g, k :: 0 <= a < g < k < j && Sends(run, steps, a, g, k, m)
  }

  /** How far a client has come tells which steps it took last. */
  ghost predicate PhaseTells(run: seq<System>, steps: seq<Step>, j: nat, ip: string, phase: Phase) {
    match phase
    case Idle => true
    case Granted(at) => exists a :: 0 <= a < j && Admits(run, steps, a, ip, at) && Rests(steps, a, j, ip)
    case Holding(at, base) =>
      exists a, g :: 0 <= a < g < j && Downloads(run, steps, a, g, ip, at, base) && Rests(steps, g, j, ip)
  }

  lemma NobodyHasStarted(s: System)
    requires Init(s)
    ensures s.queue == [] && s.phases == map[]
  {
  }

  lemma {:induction false} PhaseIsTold(run: seq<System>, steps: seq<Step>, j: nat, ip: string)
    requires Trace(run, steps) && j < |run|
    ensures PhaseTells(run, steps, j, ip, PhaseOf(run[j], ip))
  {
    hide Init, CheckStatus, Register, Submit;
    NobodyHasStarted(run[0]);
    if j > 0 {
      PhaseIsTold(run, steps, j - 1, ip);
      assert Enabled(run[j - 1], steps[j - 1]) && run[j] == Next(run[j - 1], steps[j - 1]);
      if By(steps[j - 1], ip) {
        StepTells(run, steps, j, ip);
      } else {
        StillTells(run, steps, j, ip, PhaseOf(run[j], ip));
      }
    }
  }

  lemma {:induction false} StillTells(run: seq<System>, steps: seq<Step>, j: nat, ip: string, phase: Phase)
    requires 0 < j <= |steps| && !By(steps[j - 1], ip) && PhaseTells(run, steps, j - 1, ip, phase)
    ensures PhaseTells(run, steps, j, ip, phase)
  {
    hide Admits, Downloads;
    match phase
    case Idle =>
    case Granted(at) =>
      var a :| 0 <= a < j - 1 && Admits(run, steps, a, ip, at) && Rests(steps, a, j - 1, ip);
      assert Rests(steps, a, j, ip);
    case Holding(at, base) =>
      var a, g :| 0 <= a < g < j - 1 && Downloads(run, steps, a, g, ip, at, base) && Rests(steps, g, j - 1, ip);
      assert Rests(steps, g, j, ip);
  }

  lemma {:induction false} StepTells(run: seq<System>, steps: seq<Step>, j: nat, ip: string)
    requires Trace(run, steps) && 0 < j < |run| && By(steps[j - 1], ip)
    requires PhaseTells(run, steps, j - 1, ip, PhaseOf(run[j - 1], ip))
    ensures PhaseTells(run, steps, j, ip, PhaseOf(run[j], ip))
  {
    hide Init, CheckStatus, Register, Submit;
    var (s, step) := (run[j - 1], steps[j - 1]);
    assert Enabled(s, step) && run[j] == Next(s, step);
    if step.DoCheck? {
      assert CheckStatus(s.server, ip) ==> Admits(run, steps, j - 1, ip, s.server.current);
      assert Rests(steps, j - 1, j, ip);
    } else if step.DoGetModel? {
      var at := PhaseOf(s, ip).at;
      var a :| 0 <= a < j - 1 && Admits(run, steps, a, ip, at) && Rests(steps, a, j - 1, ip);
      assert Downloads(run, steps, a, j - 1, ip, at, s.server.published);
      assert Rests(steps, j - 1, j, ip);
    }
  }

  /** Every message in the queue was sent by a client that had downloaded the model it was
      trained from, and had been admitted to its round, in its last steps before. */
  lemma {:induction false} MessageIsTold(run: seq<System>, steps: seq<Step>, j: nat, i: nat)
    requires Trace(run, steps) && j < |run| && i < |run[j].queue|
    ensures Sent(run, steps, j, run[j].queue[i])
  {
    hide Init, CheckStatus, Register, Submit, Sends;
    NobodyHasStarted(run[0]);
    var (s, step) := (run[j - 1], steps[j - 1]);
    assert Enabled(s, step) && run[j] == Next(s, step);
    if step.DoSend? && i == |s.queue| {
      SentNow(run, steps, j);
    } else {
      MessageIsTold(run, steps, j - 1, if step.DoProcess? then i + 1 else i);
      assert Sent(run, steps, j - 1, run[j].queue[i]);
    }
  }

  lemma {:induction false} SentNow(run: seq<System>, steps: seq<Step>, j: nat)
    requires Trace(run, steps) && 0 < j < |run| && steps[j - 1].DoSend?
    ensures |run[j].queue| == |run[j - 1].queue| + 1
    ensures Sent(run, steps, j, run[j].queue[|run[j - 1].queue|])
  {
    hide Init, CheckStatus, Register, Submit, Downloads;
    var (s, step) := (run[j - 1], steps[j - 1]);
    assert Enabled(s, step) && run[j] == Next(s, step);
    PhaseIsTold(run, steps, j - 1, step.ip);
    var p := PhaseOf(s, step.ip);
    var a, g :| 0 <= a < g < j - 1 && Downloads(run, steps, a, g, step.ip, p.at, p.base)
                && Rests(steps, g, j - 1, step.ip);
    assert Sends(run, steps, a, g, j - 1, run[j].queue[|s.queue|]);
  }
}
