/**
 What holds over every run of the federation
 (FederatedLearningServer/src/federatedlearning.c:655-773,
 FederatedLearningServer/src/httphandlers.c:95-226,
 FederatedLearningServer/src/websockethandlers.c:17-33, FederatedLearningESP32/main/main.c:73-87).
 */
module Federation {
  import opened Network
  import opened Rounds
  import opened Protocol
  import opened Sums

  /** A run from registration on in which clients wait for their own submissions. */
  ghost predicate Run(run: seq<System>, steps: seq<Step>) {
    && |run| == |steps| + 1
    && Init(run[0])
    && forall i :: 0 <= i < |steps| ==>
         Enabled(run[i], steps[i]) && Disciplined(run[i], steps[i]) && run[i + 1] == Next(run[i], steps[i])
  }

  lemma {:induction false} RunKeeps(run: seq<System>, steps: seq<Step>, i: nat)
    requires Run(run, steps) && i < |run|
    ensures Inv(run[i])
  {
    if i == 0 {
      InitHolds(run[0]);
    } else {
      RunKeeps(run, steps, i - 1);
      StepKeeps(run[i - 1], steps[i - 1]);
    }
  }

  // ----- one model per round

  predicate Processes(s: System, step: Step, ip: string) {
    step.DoProcess? && s.queue != [] && s.queue[0].ip == ip
  }

  lemma PendingOwes(s: System, ip: string)
    requires Inv(s) && Pending(s, ip)
    ensures Owes(s.server, ip)
  {
  }

  /** While a client owes its submission, no step but the processing of it closes the round. */
  lemma OwingKeepsModel(s: System, step: Step, ip: string)
    requires Inv(s) && Enabled(s, step) && Disciplined(s, step)
    requires Owes(s.server, ip) && !Processes(s, step, ip)
    ensures Next(s, step).server.published == s.server.published
    ensures Next(s, step).server.current == s.server.current
    ensures Owes(Next(s, step).server, ip)
  {
    hide Partial, Carried, Submitted, Messages, Clients, AddScaledNet, DividedNet, ResetNet, SameShape;
    if step.DoProcess? {
      var m := s.queue[0];
      var counted := s.server.(clients := Counted(s.server.clients, m.ip));
      FirstOwes(s);
      CountedRoster(s.server, m.ip, counted);
      OwingWaits(counted, ip);
    }
  }

  /** Only its own dropping or the processing of its message ends what a client has under way. */
  lemma PendingStays(s: System, step: Step, ip: string)
    requires Enabled(s, step) && Pending(s, ip) && !Processes(s, step, ip) && step != DoDrop(ip)
    ensures Pending(Next(s, step), ip)
  {
    hide CheckStatus, Register, Submit, SameShape;
    var t := Next(s, step);
    if step.DoSend? && step.ip == ip {
      assert t.queue[|s.queue|].ip == ip;
    } else if Queued(s, ip) {
      var k :| 0 <= k < |s.queue| && s.queue[k].ip == ip;
      if step.DoProcess? {
        assert t.queue[k - 1].ip == ip;
      } else {
        assert t.queue[k].ip == ip;
      }
    }
  }

  /** From a client's positive status check to the processing of its submission, however
      often it drops its model and checks again, the global model does not change; it is
      the model the submission was trained from, and the round it was admitted to is the
      one it is aggregated in. */
  lemma {:induction false} OneModelPerRound(run: seq<System>, steps: seq<Step>, i: nat, j: nat, ip: string)
    requires Run(run, steps) && i <= j < |run|
    requires Owes(run[i].server, ip)
    requires forall k :: i <= k < j ==> !Processes(run[k], steps[k], ip)
    ensures run[j].server.published == run[i].server.published
    ensures run[j].server.current == run[i].server.current
    ensures Owes(run[j].server, ip)
    ensures Pending(run[i], ip) && (forall k :: i <= k < j ==> steps[k] != DoDrop(ip)) ==> Pending(run[j], ip)
    ensures j < |steps| && Processes(run[j], steps[j], ip) ==>
              run[j].queue[0].base == run[i].server.published && run[j].queue[0].at == run[i].server.current
    decreases j
  {
    hide Inv, Init, Next, Enabled, Disciplined, Pending, Owes;
    RunKeeps(run, steps, j);
    if i < j {
      OneModelPerRound(run, steps, i, j - 1, ip);
      RunKeeps(run, steps, j - 1);
      OwingKeepsModel(run[j - 1], steps[j - 1], ip);
      if Pending(run[j - 1], ip) && steps[j - 1] != DoDrop(ip) {
        PendingStays(run[j - 1], steps[j - 1], ip);
      }
    }
    FirstIsFresh(run[j]);
  }

  lemma FirstIsFresh(s: System)
    requires Inv(s)
    ensures s.queue != [] ==> s.queue[0].base == s.server.published && s.queue[0].at == s.server.current
  {
    assert s.queue != [] ==> WellSent(s.server, s.queue[0]);
  }

  /** Every model aggregated in a round was trained from the model published for it. */
  lemma RoundHasOneBase(run: seq<System>, steps: seq<Step>, i: nat, k: nat)
    requires Run(run, steps) && i < |run| && k < |run[i].round|
    ensures run[i].round[k].base == run[i].server.published && run[i].round[k].at == run[i].server.current
  {
    RunKeeps(run, steps, i);
    assert WellSent(run[i].server, run[i].round[k]);
  }

  /** Inside a round the counter and every parameter of the accumulator are the partial
      sums over the messages aggregated so far. */
  lemma PartialSumsHold(run: seq<System>, steps: seq<Step>, i: nat, p: Place)
    requires Run(run, steps) && i < |run| && Has(run[i].carried, p)
    ensures var s := run[i];
            && s.server.counter == TotalCount(s.round)
            && Has(s.server.sum, p) && Has(s.server.published, p) && Carries(s.round, p)
            && At(s.server.sum, p)
               == WeightedSum(s.round, p)
                  + if p.WeightOf? || p.i == 0 || s.server.current == 0 then 0.0 else At(s.server.published, p)
  {
    RunKeeps(run, steps, i);
  }

  // ----- how a round closes

  /** The messages of the round, the one that closes it included. */
  function RoundLog(s: System): seq<Message>
    requires s.queue != []
  {
    s.round + [s.queue[0]]
  }

  predicate Closes(s: System, step: Step)
    requires Enabled(s, step)
  {
    step.DoProcess? && Next(s, step).server.current != s.server.current
  }

  lemma {:induction false} TotalIsPositive(log: seq<Message>)
    requires log != [] && forall k :: 0 <= k < |log| ==> log[k].count > 0
    ensures TotalCount(log) > 0
  {
    if |log| == 1 {
      assert TotalCount(log[..0]) == 0;
    } else {
      TotalIsPositive(log[..|log| - 1]);
    }
  }

  lemma {:induction false} TotalIsNat(log: seq<Message>)
    requires forall k :: 0 <= k < |log| ==> log[k].count > 0
    ensures TotalCount(log) >= 0
  {
    if log != [] {
      TotalIsNat(log[..|log| - 1]);
    }
  }

  /** Whatever is queued can be processed: its sender is registered, its model has the
      server's shape and the divisor is not zero. */
  lemma QueuedIsProcessed(run: seq<System>, steps: seq<Step>, i: nat)
    requires Run(run, steps) && i < |run| && run[i].queue != []
    ensures Enabled(run[i], DoProcess)
  {
    var s := run[i];
    RunKeeps(run, steps, i);
    assert Owes(s.server, s.queue[0].ip) && WellSent(s.server, s.queue[0]);
    TotalIsNat(s.round);
  }

  /** At every close, each published parameter times the number of trainings is the
      weighted sum of the round's models plus what the sum carried into the round. */
  lemma RoundCloses(s: System, p: Place)
    requires Inv(s) && Enabled(s, DoProcess) && Closes(s, DoProcess) && Has(s.carried, p)
    ensures var log := RoundLog(s);
            && TotalCount(log) > 0 && Carries(log, p) && Has(Next(s, DoProcess).server.published, p)
            && At(Next(s, DoProcess).server.published, p)
               == (At(s.carried, p) + WeightedSum(log, p)) / TotalCount(log) as real
  {
    hide SameShape, AddScaledNet, DividedNet, Has, At, WeightedSum, TotalCount, Carries, Roster, Clients, Carried;
    var m := s.queue[0];
    assert Owes(s.server, m.ip) && WellSent(s.server, m);
    var sum := AddScaledNet(s.server.sum, m.model, m.count);
    OneMore(s, m, sum);
    Appended(s.round, m);
    TotalIsPositive(RoundLog(s));
    AtDivided(sum, s.server.counter + m.count, p);
  }

  /** Every registered client is in the round exactly once, and nobody else is. */
  lemma EveryoneOnce(s: System)
    requires Inv(s) && Enabled(s, DoProcess) && Closes(s, DoProcess)
    ensures DistinctSenders(RoundLog(s))
    ensures forall ip :: SentBy(RoundLog(s), ip) <==> Knows(s.server, ip)
  {
    hide Partial, Carried, Clients, Messages, Roster, SameShape, AddScaledNet, DividedNet, ResetNet, Owes, SentBy;
    var m := s.queue[0];
    FirstOwes(s);
    NotYetSubmitted(s, m.ip);
    LogSenders(s);
    DistinctLog(s);
    forall ip | Knows(s.server, ip) && ip != m.ip ensures SentBy(s.round, ip) {
      OthersSubmitted(s, ip);
    }
    forall ip | SentBy(s.round, ip) ensures Knows(s.server, ip) {
      SenderIsKnown(s, ip);
    }
    OwingIsKnown(s.server, m.ip);
  }

  lemma FirstOwes(s: System)
    requires Inv(s) && s.queue != []
    ensures Owes(s.server, s.queue[0].ip) && WellSent(s.server, s.queue[0])
  {
  }

  lemma OwingIsKnown(s: Server, ip: string)
    requires Owes(s, ip)
    ensures Knows(s, ip)
  {
  }

  lemma SenderIsKnown(s: System, ip: string)
    requires Inv(s) && SentBy(s.round, ip)
    ensures Knows(s.server, ip)
  {
    hide Roster, Clients, Messages, Partial, Carried;
  }

  lemma DistinctLog(s: System)
    requires Inv(s) && s.queue != [] && !SentBy(s.round, s.queue[0].ip)
    ensures DistinctSenders(RoundLog(s))
  {
    hide Roster, Clients, Messages, Partial, Carried;
  }

  /** When a round closes, everyone but the last sender is in its log already. */
  lemma OthersSubmitted(s: System, ip: string)
    requires Inv(s) && Enabled(s, DoProcess) && Closes(s, DoProcess) && Knows(s.server, ip) && ip != s.queue[0].ip
    ensures SentBy(s.round, ip)
  {
    hide Partial, Carried, Clients, Messages, SameShape, AddScaledNet, DividedNet, ResetNet;
    var m := s.queue[0];
    var counted := s.server.(clients := Counted(s.server.clients, m.ip));
    FirstOwes(s);
    CountedRoster(s.server, m.ip, counted);
    var i := Find(s.server.clients, ip);
    assert counted.clients[i].interaction != s.server.current;
    assert SentBy(s.round, s.server.clients[i].ip);
  }

  lemma LogSenders(s: System)
    requires s.queue != []
    ensures forall ip :: SentBy(RoundLog(s), ip) <==> SentBy(s.round, ip) || ip == s.queue[0].ip
  {
    var log := RoundLog(s);
    assert log[|s.round|] == s.queue[0] && forall k :: 0 <= k < |s.round| ==> log[k] == s.round[k];
  }

  /** FedAvg: every weight, and the bias of the first neuron of every layer, is the mean
      of the clients' values weighted by their numbers of trainings. */
  lemma FedAvgIsExact(run: seq<System>, steps: seq<Step>, i: nat, p: Place)
    requires Run(run, steps) && i < |steps| && Closes(run[i], steps[i])
    requires Has(run[i].carried, p) && (p.WeightOf? || p.i == 0 || run[i].server.current == 0)
    ensures var log := RoundLog(run[i]);
            && TotalCount(log) > 0 && Carries(log, p) && Has(run[i + 1].server.published, p)
            && At(run[i + 1].server.published, p) == WeightedSum(log, p) / TotalCount(log) as real
  {
    RunKeeps(run, steps, i);
    RoundCloses(run[i], p);
  }

  /** The other biases are never reset: from the second round on, the value published
      last is added to the weighted sum. */
  lemma UnresetBiasRecurrence(run: seq<System>, steps: seq<Step>, i: nat, p: Place)
    requires Run(run, steps) && i < |steps| && Closes(run[i], steps[i])
    requires Has(run[i].carried, p) && p.BiasOf? && p.i > 0 && run[i].server.current > 0
    ensures var log := RoundLog(run[i]);
            && TotalCount(log) > 0 && Carries(log, p)
            && Has(run[i].server.published, p) && Has(run[i + 1].server.published, p)
            && At(run[i + 1].server.published, p)
               == (At(run[i].server.published, p) + WeightedSum(log, p)) / TotalCount(log) as real
  {
    RunKeeps(run, steps, i);
    RoundCloses(run[i], p);
  }

  /** Hence a round yields the weighted mean at a place if and only if the place is one
      that is reset, or it is the first round, or the value published last was zero. */
  lemma WeightedMeanIff(run: seq<System>, steps: seq<Step>, i: nat, p: Place)
    requires Run(run, steps) && i < |steps| && Closes(run[i], steps[i]) && Has(run[i].carried, p)
    ensures var log := RoundLog(run[i]);
            && TotalCount(log) > 0 && Carries(log, p)
            && Has(run[i].server.published, p) && Has(run[i + 1].server.published, p)
            && (At(run[i + 1].server.published, p) == WeightedSum(log, p) / TotalCount(log) as real
                <==> p.WeightOf? || p.i == 0 || run[i].server.current == 0 || At(run[i].server.published, p) == 0.0)
  {
    hide Disciplined, Init, Inv, Next, TotalCount, WeightedSum, Carries;
    RunKeeps(run, steps, i);
    RoundCloses(run[i], p);
    CarriedIs(run[i], p);
    SameQuotient(At(run[i].carried, p), WeightedSum(RoundLog(run[i]), p), TotalCount(RoundLog(run[i])) as real);
  }

  lemma CarriedIs(s: System, p: Place)
    requires Inv(s) && Has(s.carried, p)
    ensures Has(s.server.published, p)
    ensures At(s.carried, p) == if Cleared(p) || s.server.current == 0 then 0.0 else At(s.server.published, p)
  {
    hide Roster, Clients, Messages, Submitted, Partial;
  }

  lemma SameQuotient(c: real, w: real, n: real)
    requires n > 0.0
    ensures (c + w) / n == w / n <==> c == 0.0
  {
    assert (c + w) / n * n == c + w && w / n * n == w;
  }

  // ----- the weighted mean

  predicate Between(log: seq<Message>, p: Place, lo: real, hi: real)
    requires Carries(log, p)
  {
    forall k :: 0 <= k < |log| ==> lo <= At(log[k].model, p) <= hi
  }

  function CountOf(): Message -> real {
    (m: Message) => m.count as real
  }

  lemma {:induction false} TotalIsSum(log: seq<Message>)
    ensures TotalCount(log) as real == Sum(log, CountOf())
  {
    if log != [] {
      TotalIsSum(log[..|log| - 1]);
    }
  }

  /** A published mean lies between the smallest and the largest value submitted. */
  lemma {:induction false} MeanIsBetween(log: seq<Message>, p: Place, lo: real, hi: real)
    requires log != [] && Carries(log, p) && Between(log, p, lo, hi)
    requires forall k :: 0 <= k < |log| ==> log[k].count > 0
    ensures TotalCount(log) > 0 && lo <= WeightedSum(log, p) / TotalCount(log) as real <= hi
  {
    hide Share, CountOf, Sum, TotalCount, Between, Carries, WeightedSum;
    TotalIsPositive(log);
    TotalIsSum(log);
    SharesBetween(log, p, lo, hi);
    QuotientBetween(lo, WeightedSum(log, p), hi, TotalCount(log) as real);
  }

  lemma SharesBetween(log: seq<Message>, p: Place, lo: real, hi: real)
    requires Carries(log, p) && Between(log, p, lo, hi)
    requires forall k :: 0 <= k < |log| ==> log[k].count > 0
    ensures lo * Sum(log, CountOf()) <= WeightedSum(log, p) <= hi * Sum(log, CountOf())
  {
    hide Share, CountOf, Sum, Between, Carries;
    forall k | 0 <= k < |log| ensures BetweenMultiples(lo, Share(p)(log[k]), hi, CountOf()(log[k])) {
      ShareBetween(log, p, lo, hi, k);
    }
    SumBetween(log, Share(p), CountOf(), lo, hi);
  }

  lemma ShareBetween(log: seq<Message>, p: Place, lo: real, hi: real, k: nat)
    requires Carries(log, p) && Between(log, p, lo, hi) && k < |log| && log[k].count > 0
    ensures BetweenMultiples(lo, Share(p)(log[k]), hi, CountOf()(log[k]))
  {
    ScaledBetween(lo, At(log[k].model, p), hi, log[k].count as real);
  }

  lemma ScaledBetween(lo: real, x: real, hi: real, n: real)
    requires lo <= x <= hi && n >= 0.0
    ensures lo * n <= x * n <= hi * n
  {
  }

  /** Two rounds with the same submissions in another order publish the same mean. */
  lemma OrderDoesNotMatter(a: seq<Message>, b: seq<Message>, p: Place)
    requires multiset(a) == multiset(b)
    ensures TotalCount(a) == TotalCount(b) && WeightedSum(a, p) == WeightedSum(b, p)
  {
    TotalIsSum(a);
    TotalIsSum(b);
    SumPermuted(a, b, CountOf());
    SumPermuted(a, b, Share(p));
  }

  // ----- the end of the federation

  /** The round counter never goes back and never passes the number of rounds. */
  lemma {:induction false} RoundsAdvance(run: seq<System>, steps: seq<Step>, i: nat, j: nat)
    requires Run(run, steps) && i <= j < |run|
    ensures run[i].server.current <= run[j].server.current <= run[j].server.cycle == run[i].server.cycle
    decreases j
  {
    hide Enabled, Disciplined, Init, Clients, Messages, Submitted, Partial, Carried;
    RunKeeps(run, steps, j);
    if i < j {
      RoundsAdvance(run, steps, i, j - 1);
    }
  }

  /** After the last round, submissions change neither the sum nor the model. */
  lemma {:induction false} FinishedIsFrozen(run: seq<System>, steps: seq<Step>, i: nat, j: nat)
    requires Run(run, steps) && i <= j < |run| && run[i].server.current == run[i].server.cycle
    ensures run[j].server.published == run[i].server.published && run[j].server.sum == run[i].server.sum
    ensures run[j].server.counter == run[i].server.counter && run[j].server.current == run[i].server.current
    decreases j
  {
    hide Init, Next, Enabled, Disciplined;
    if i < j {
      FinishedIsFrozen(run, steps, i, j - 1);
      RoundsAdvance(run, steps, i, j - 1);
      StepAfterEnd(run[j - 1], steps[j - 1]);
    }
  }

  lemma StepAfterEnd(s: System, step: Step)
    requires Enabled(s, step) && s.server.current >= s.server.cycle
    ensures var t := Next(s, step).server;
            && t.published == s.server.published && t.sum == s.server.sum
            && t.counter == s.server.counter && t.current == s.server.current
  {
  }

  /** Somebody asked to be registered, or a round was closed, and no message has been
      processed since. */
  ghost predicate Raised(run: seq<System>, steps: seq<Step>, j: nat)
    requires Run(run, steps) && j < |run|
  {
    exists k :: 0 <= k < j && (steps[k].DoRegister? || Closes(run[k], steps[k]))
                && forall m :: k < m < j ==> !steps[m].DoProcess?
  }

  lemma {:induction false} RaisedNext(run: seq<System>, steps: seq<Step>, j: nat)
    requires Run(run, steps) && j < |steps|
    ensures steps[j].DoRegister? || Closes(run[j], steps[j]) ==> Raised(run, steps, j + 1)
    ensures !steps[j].DoRegister? && !Closes(run[j], steps[j]) ==>
              (Raised(run, steps, j + 1) <==> Raised(run, steps, j) && !steps[j].DoProcess?)
  {
    hide Init, Closes, Next, Disciplined;
    if Raised(run, steps, j + 1) && !steps[j].DoRegister? && !Closes(run[j], steps[j]) {
      var k :| 0 <= k < j + 1 && (steps[k].DoRegister? || Closes(run[k], steps[k]))
               && forall m :: k < m < j + 1 ==> !steps[m].DoProcess?;
      assert k < j;
    }
  }

  /** What a step does to the status once the last round is over. */
  lemma StatusStep(s: System, step: Step)
    requires Enabled(s, step) && s.server.current <= s.server.cycle
    requires Next(s, step).server.current == s.server.cycle
    requires Next(s, step).server.registered == s.server.limit
    ensures s.server.current < s.server.cycle ==> Closes(s, step)
    ensures s.server.registered != s.server.limit ==> step.DoRegister?
    ensures step.DoRegister? || Closes(s, step) ==> Next(s, step).server.status
    ensures !step.DoRegister? && !Closes(s, step) ==>
              Next(s, step).server.status == (s.server.status && !step.DoProcess?)
  {
    hide AddScaledNet, DividedNet, ResetNet, SameShape, Counted;
  }

  lemma {:induction false} FinalStatus(run: seq<System>, steps: seq<Step>, j: nat)
    requires Run(run, steps) && j < |run|
    requires run[j].server.current == run[j].server.cycle && run[j].server.registered == run[j].server.limit
    ensures run[j].server.status <==> Raised(run, steps, j)
    decreases j
  {
    hide Next, Enabled, Disciplined, Raised, Closes;
    if j == 0 {
      NothingRaised(run, steps);
    } else {
      LimitsStay(run, steps, j - 1);
      RoundsAdvance(run, steps, j - 1, j);
      StatusStep(run[j - 1], steps[j - 1]);
      RaisedNext(run, steps, j - 1);
      if !steps[j - 1].DoRegister? && !Closes(run[j - 1], steps[j - 1]) {
        FinalStatus(run, steps, j - 1);
      }
    }
  }

  lemma {:induction false} NothingRaised(run: seq<System>, steps: seq<Step>)
    requires Run(run, steps)
    ensures !Raised(run, steps, 0)
  {
  }

  lemma LimitsStay(run: seq<System>, steps: seq<Step>, i: nat)
    requires Run(run, steps) && i < |steps|
    ensures Enabled(run[i], steps[i]) && run[i + 1] == Next(run[i], steps[i])
    ensures run[i + 1].server.limit == run[i].server.limit && run[i + 1].server.cycle == run[i].server.cycle
  {
    hide AddScaledNet, DividedNet, ResetNet, SameShape, Counted, Waiting, Init, Disciplined;
  }

  /** Once the last round is over, a status check is positive exactly for the registered
      clients that have not submitted since, and only until the first message that is
      processed then; the next request for registration makes it so again. */
  lemma FinalStatusIff(run: seq<System>, steps: seq<Step>, j: nat, ip: string)
    requires Run(run, steps) && j < |run| && run[j].server.current == run[j].server.cycle
    ensures var s := run[j].server;
            CheckStatus(s, ip)
            <==> s.registered == s.limit && Knows(s, ip) && Interaction(s, ip) == s.cycle && Raised(run, steps, j)
  {
    hide Run, Raised;
    if run[j].server.registered == run[j].server.limit {
      FinalStatus(run, steps, j);
    }
  }

  /** After a message has been processed too late, nobody is admitted until the next
      request for registration. */
  lemma LateMessageEndsIt(run: seq<System>, steps: seq<Step>, k: nat, j: nat, ip: string)
    requires Run(run, steps) && k < j < |run|
    requires run[k].server.current == run[k].server.cycle && steps[k].DoProcess?
    requires forall m :: k < m < j ==> !steps[m].DoRegister?
    ensures !CheckStatus(run[j].server, ip)
  {
    hide Next, CheckStatus, Init, Disciplined, Closes;
    RoundsAdvance(run, steps, k, j);
    FinalStatusIff(run, steps, j, ip);
    forall m | k <= m < j ensures !Closes(run[m], steps[m]) {
      RoundsAdvance(run, steps, k, m);
      NoCloseAfterEnd(run[m], steps[m]);
    }
  }

  lemma NoCloseAfterEnd(s: System, step: Step)
    requires Enabled(s, step) && s.server.current >= s.server.cycle
    ensures !Closes(s, step)
  {
  }

  /** From the last close until then, exactly the registered clients that have not
      submitted since are. */
  lemma LastCloseAdmits(run: seq<System>, steps: seq<Step>, c: nat, j: nat, ip: string)
    requires Run(run, steps) && c < j < |run| && Closes(run[c], steps[c])
    requires run[c + 1].server.current == run[c + 1].server.cycle
    requires forall m :: c < m < j ==> !steps[m].DoProcess?
    ensures var s := run[j].server;
            CheckStatus(s, ip) <==> s.registered == s.limit && Knows(s, ip) && Interaction(s, ip) == s.cycle
  {
    hide Next, CheckStatus, Init, Disciplined, Closes;
    RoundsAdvance(run, steps, c + 1, j);
    FinalStatusIff(run, steps, j, ip);
  }

  predicate Listed(s: Server, ip: string) {
    exists i :: 0 <= i < |s.clients| && s.clients[i].ip == ip
  }

  /** What a request for registration is answered, and who is listed afterwards. */
  lemma RegistrationIs(s: Server, ip: string)
    ensures var (t, reply) := Register(s, ip);
            && (reply == LimitReached <==> s.registered == s.limit)
            && (reply == AlreadyRegistered <==> s.registered != s.limit && Listed(s, ip))
            && (Listed(t, ip) <==> Listed(s, ip) || s.registered != s.limit)
            && (forall a :: a != ip ==> (Listed(t, a) <==> Listed(s, a)))
            && (reply == Added ==>
                  && |t.clients| == |s.clients| + 1 && t.clients[..|s.clients|] == s.clients
                  && t.clients[|s.clients|].ip == ip && t.clients[|s.clients|].interaction == 0)
            && (reply != Added ==> t.clients == s.clients)
  {
    var t := Register(s, ip).0;
    if Knows(s, ip) {
      assert s.clients[Find(s.clients, ip)].ip == ip;
    } else if s.registered != s.limit {
      assert t.clients[|s.clients|].ip == ip;
      forall a | a != ip ensures Listed(t, a) <==> Listed(s, a) {
        if i :| 0 <= i < |s.clients| && s.clients[i].ip == a {
          assert t.clients[i].ip == a;
        }
      }
    }
  }

  /** Registration and status over every run. */
  lemma RosterHolds(run: seq<System>, steps: seq<Step>, i: nat)
    requires Run(run, steps) && i < |run|
    ensures Roster(run[i].server)
    ensures forall ip :: CheckStatus(run[i].server, ip) ==> Owes(run[i].server, ip)
  {
    RunKeeps(run, steps, i);
  }

  /** Until the last round is over, a status check is positive exactly for the clients
      whose submission of the current round is still missing. */
  lemma StatusTellsWhoOwes(run: seq<System>, steps: seq<Step>, i: nat, ip: string)
    requires Run(run, steps) && i < |run| && run[i].server.current < run[i].server.cycle
    ensures var s := run[i];
            CheckStatus(s.server, ip)
            <==> s.server.registered == s.server.limit && Knows(s.server, ip) && !SentBy(s.round, ip)
  {
    RunKeeps(run, steps, i);
    var s := run[i];
    if Knows(s.server, ip) {
      assert s.server.clients[Find(s.server.clients, ip)].ip == ip;
    }
  }
}
