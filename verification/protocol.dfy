/**
 Whole runs of the federation: any number of clients go through the loop of
 FederatedLearningESP32/main/main.c:73-87 while the server's handlers, each taken as
 one step, interleave in any order. Models travel through the message queue
 (FederatedLearningServer/src/websocketserver.c:47-108).
 */
module Protocol {
  import opened Network
  import opened Rounds
  import opened Sums

  // ----- the system

  /** Where a client is in its loop: before a status check, after a positive one, or
      training from the global model it was given. `at`, the round of the check, is
      history. */
  datatype Phase = Idle | Granted(at: nat) | Holding(at: nat, base: NetValue)

  /** A trained model on its way. `base`, the global model it was trained from, and `at`,
      the round its client was admitted to, are history: the server never sees them. */
  datatype Message = Message(ip: string, model: NetValue, count: int, base: NetValue, at: nat)

  /** `round` and `carried` are history too: the messages aggregated since the last
      round closed, and what the sum contained when this round began. */
  datatype System = System(
    server: Server,
    phases: map<string, Phase>,
    queue: seq<Message>,
    round: seq<Message>,
    carried: NetValue)

  datatype Step =
    | DoRegister(ip: string)
    | DoCheck(ip: string)
    | DoGetModel(ip: string)
    | DoSend(ip: string, model: NetValue, count: int)
    | DoDrop(ip: string)  // the socket is not connected: the model is freed unsent
    | DoProcess

  function PhaseOf(s: System, ip: string): Phase {
    if ip in s.phases then s.phases[ip] else Idle
  }

  predicate Queued(s: System, ip: string) {
    exists k :: 0 <= k < |s.queue| && s.queue[k].ip == ip
  }

  /** From a positive status check until the submission has been processed. */
  predicate Pending(s: System, ip: string) {
    PhaseOf(s, ip) != Idle || Queued(s, ip)
  }

  predicate Enabled(s: System, step: Step) {
    match step
    case DoRegister(_) => true
    case DoCheck(ip) => PhaseOf(s, ip) == Idle
    case DoGetModel(ip) => PhaseOf(s, ip).Granted?
    case DoSend(ip, model, count) => PhaseOf(s, ip).Holding? && count > 0 && SameShape(s.server.sum, model)
    case DoDrop(ip) => PhaseOf(s, ip).Holding?
    case DoProcess =>
      && s.queue != []
      && Knows(s.server, s.queue[0].ip)
      && SameShape(s.server.sum, s.queue[0].model)
      && s.server.counter + s.queue[0].count != 0
  }

  function Next(s: System, step: Step): System
    requires Enabled(s, step)
  {
    match step
    case DoRegister(ip) => s.(server := Register(s.server, ip).0)
    case DoCheck(ip) =>
      if CheckStatus(s.server, ip) then s.(phases := s.phases[ip := Granted(s.server.current)]) else s
    case DoGetModel(ip) => s.(phases := s.phases[ip := Holding(PhaseOf(s, ip).at, s.server.published)])
    case DoSend(ip, model, count) =>
      var p := PhaseOf(s, ip);
      s.(phases := s.phases[ip := Idle], queue := s.queue + [Message(ip, model, count, p.base, p.at)])
    case DoDrop(ip) => s.(phases := s.phases[ip := Idle])
    case DoProcess =>
      var m := s.queue[0];
      var t := s.(server := Submit(s.server, m.ip, m.model, m.count), queue := s.queue[1..]);
      if s.server.current >= s.server.cycle then t
      else if t.server.current > s.server.current then t.(round := [], carried := t.server.sum)
      else t.(round := s.round + [m])
  }

  /** A client does not check the status again while its model is still queued. */
  predicate Disciplined(s: System, step: Step) {
    step.DoCheck? ==> !Queued(s, step.ip)
  }

  predicate Zero(n: NetValue) {
    forall l, i :: 0 <= l < |n| && 0 <= i < |n[l]| ==>
      n[l][i].bias == 0.0 && forall j :: 0 <= j < |n[l][i].weights| ==> n[l][i].weights[j] == 0.0
  }

  /** The server before anyone has registered. */
  predicate Init(s: System) {
    && s.server.status == false && s.server.counter == 0 && s.server.current == 0
    && s.server.registered == 0 && s.server.clients == []
    && SameShape(s.server.sum, s.server.published) && Zero(s.server.sum)
    && s.phases == map[] && s.queue == [] && s.round == [] && s.carried == s.server.sum
  }

  // ----- what a round accumulates

  function TotalCount(log: seq<Message>): int {
    if log == [] then 0 else TotalCount(log[..|log| - 1]) + log[|log| - 1].count
  }

  /** What one message adds to the sum at a place. */
  function Share(p: Place): Message -> real {
    (m: Message) => if Has(m.model, p) then At(m.model, p) * m.count as real else 0.0
  }

  function WeightedSum(log: seq<Message>, p: Place): real {
    Sum(log, Share(p))
  }

  // ----- the invariant

  predicate DistinctAddresses(clients: seq<Client>) {
    forall i, j :: 0 <= i < j < |clients| ==> clients[i].ip != clients[j].ip
  }

  function Interaction(s: Server, ip: string): nat
    requires Knows(s, ip)
  {
    s.clients[Find(s.clients, ip)].interaction
  }

  /** Registration and the round counters. */
  predicate Roster(s: Server) {
    && s.registered == |s.clients| <= s.limit
    && DistinctAddresses(s.clients)
    && s.current <= s.cycle
    && (forall i :: 0 <= i < |s.clients| ==> s.current <= s.clients[i].interaction <= s.current + 1)
    && (s.registered < s.limit ==>
          !s.status && s.current == 0 && forall i :: 0 <= i < |s.clients| ==> s.clients[i].interaction == 0)
    && (0 < s.limit == s.registered && s.current < s.cycle ==> s.status)
  }

  /** A client that still owes its submission of the current round. */
  predicate Owes(s: Server, ip: string) {
    s.registered == s.limit && Knows(s, ip) && Interaction(s, ip) == s.current
  }

  predicate Clients(s: System) {
    forall ip :: ip in s.phases && s.phases[ip] != Idle ==>
      && Owes(s.server, ip) && !Queued(s, ip) && s.phases[ip].at == s.server.current
      && (s.phases[ip].Holding? ==> s.phases[ip].base == s.server.published)
  }

  predicate WellSent(s: Server, m: Message) {
    m.count > 0 && SameShape(s.sum, m.model) && m.base == s.published && m.at == s.current
  }

  predicate DistinctSenders(log: seq<Message>) {
    forall k, l :: 0 <= k < l < |log| ==> log[k].ip != log[l].ip
  }

  predicate Messages(s: System) {
    && (forall k :: 0 <= k < |s.queue| ==> WellSent(s.server, s.queue[k]) && Owes(s.server, s.queue[k].ip))
    && DistinctSenders(s.queue)
  }

  predicate SentBy(log: seq<Message>, ip: string) {
    exists k :: 0 <= k < |log| && log[k].ip == ip
  }

  /** Who has been aggregated in this round. */
  predicate Submitted(s: System) {
    && DistinctSenders(s.round)
    && (forall k :: 0 <= k < |s.round| ==> WellSent(s.server, s.round[k]) && Knows(s.server, s.round[k].ip))
    && (s.server.current == s.server.cycle ==> s.round == [])
    && (s.server.current < s.server.cycle ==>
          forall i :: 0 <= i < |s.server.clients| ==>
            (s.server.clients[i].interaction == s.server.current + 1 <==> SentBy(s.round, s.server.clients[i].ip)))
  }

  predicate Carries(log: seq<Message>, p: Place) {
    forall k :: 0 <= k < |log| ==> Has(log[k].model, p)
  }

  /** The counter and every parameter of the sum are the partial sums of the round. */
  ghost predicate Partial(s: System) {
    && SameShape(s.server.sum, s.server.published) && SameShape(s.carried, s.server.sum)
    && s.server.counter == TotalCount(s.round)
    && forall p :: Has(s.carried, p) ==>
         && Has(s.server.sum, p) && Carries(s.round, p)
         && At(s.server.sum, p) == At(s.carried, p) + WeightedSum(s.round, p)
  }

  /** A round starts from zero, except at the biases that are never reset: these
      start from the value published last. */
  ghost predicate Carried(s: System) {
    forall p :: Has(s.carried, p) ==>
      && Has(s.server.published, p)
      && At(s.carried, p) == if Cleared(p) || s.server.current == 0 then 0.0 else At(s.server.published, p)
  }

  ghost predicate Inv(s: System) {
    Roster(s.server) && Clients(s) && Messages(s) && Submitted(s) && Partial(s) && Carried(s)
  }

  // ----- every step keeps it

  lemma InitHolds(s: System)
    requires Init(s)
    ensures Inv(s)
  {
    forall p | Has(s.carried, p) ensures Has(s.server.published, p) && At(s.carried, p) == 0.0 {
      HasSame(s.server.sum, s.server.published, p);
    }
    ShapeIsKept(s.server.sum, s.server.published, s.server.sum);
  }

  lemma {:induction false} FindExtended(clients: seq<Client>, c: Client, ip: string)
    ensures Find(clients + [c], ip)
         == if Find(clients, ip) < |clients| then Find(clients, ip)
            else if c.ip == ip then |clients| else |clients| + 1
  {
    if clients != [] {
      FindExtended(clients[1..], c, ip);
      assert (clients + [c])[1..] == clients[1..] + [c];
    }
  }

  /** Nothing is under way before everyone has registered. */
  lemma NoOneOwes(s: System)
    requires Inv(s)
    ensures s.queue != [] ==> s.server.registered == s.server.limit
  {
    if s.queue != [] {
      assert Owes(s.server, s.queue[0].ip);
    }
  }

  lemma SumsAlone(s: System, t: System)
    requires Partial(s) && Carried(s) && t.round == s.round && t.carried == s.carried
    requires t.server.sum == s.server.sum && t.server.published == s.server.published
    requires t.server.counter == s.server.counter && t.server.current == s.server.current
    ensures Partial(t) && Carried(t)
  {
  }

  lemma {:induction false} RegisterKeeps(s: System, ip: string)
    requires Inv(s)
    ensures Inv(Next(s, DoRegister(ip)))
  {
    hide Partial, Carried, Roster, Submitted;
    var t := Next(s, DoRegister(ip));
    SumsAlone(s, t);
    if s.server.registered < s.server.limit {
      forall a | a in s.phases ensures s.phases[a] == Idle {
        assert s.phases[a] != Idle ==> Owes(s.server, a);
      }
      NoOneOwes(s);
    }
    RegisterRoster(s.server, ip);
    RegisterSubmitted(s, ip);
  }

  lemma RegisterRoster(s: Server, ip: string)
    requires Roster(s)
    ensures Roster(Register(s, ip).0)
  {
  }

  /** Nothing is aggregated before everyone has registered. */
  lemma RegisterSubmitted(s: System, ip: string)
    requires Roster(s.server) && Submitted(s)
    ensures Submitted(Next(s, DoRegister(ip)))
  {
    SendersCounted(s);
  }

  lemma SendersCounted(s: System)
    requires Submitted(s) && s.server.current <= s.server.cycle
    ensures forall k :: 0 <= k < |s.round| ==>
              Knows(s.server, s.round[k].ip) && Interaction(s.server, s.round[k].ip) == s.server.current + 1
  {
    forall k | 0 <= k < |s.round| ensures Interaction(s.server, s.round[k].ip) == s.server.current + 1 {
      var i := Find(s.server.clients, s.round[k].ip);
      assert s.server.clients[i].ip == s.round[k].ip;
    }
  }

  lemma CheckKeeps(s: System, ip: string)
    requires Inv(s) && Enabled(s, DoCheck(ip)) && Disciplined(s, DoCheck(ip))
    ensures Inv(Next(s, DoCheck(ip)))
  {
    hide Partial, Carried, Submitted, Roster;
    InvParts(s, Next(s, DoCheck(ip)));
  }

  /** Steps that leave the server and the history alone. */
  lemma InvParts(s: System, t: System)
    requires Inv(s) && t.server == s.server && t.round == s.round && t.carried == s.carried
    ensures Inv(t) <==> Clients(t) && Messages(t)
  {
  }

  lemma GetModelKeeps(s: System, ip: string)
    requires Inv(s) && Enabled(s, DoGetModel(ip))
    ensures Inv(Next(s, DoGetModel(ip)))
  {
    InvParts(s, Next(s, DoGetModel(ip)));
  }

  lemma SendKeeps(s: System, ip: string, model: NetValue, count: int)
    requires Inv(s) && Enabled(s, DoSend(ip, model, count))
    ensures Inv(Next(s, DoSend(ip, model, count)))
  {
    hide Partial, Carried, Submitted, Roster;
    var t := Next(s, DoSend(ip, model, count));
    InvParts(s, t);
    assert !Queued(s, ip) && Owes(s.server, ip);
    assert forall a :: Queued(t, a) ==> a == ip || Queued(s, a);
  }

  lemma DropKeeps(s: System, ip: string)
    requires Inv(s) && Enabled(s, DoDrop(ip))
    ensures Inv(Next(s, DoDrop(ip)))
  {
    hide Partial, Carried, Submitted, Roster;
    InvParts(s, Next(s, DoDrop(ip)));
  }

  // ----- processing a message

  lemma {:induction false} FindCounted(clients: seq<Client>, ip: string, a: string)
    requires Find(clients, ip) < |clients|
    ensures Find(Counted(clients, ip), a) == Find(clients, a)
  {
    if clients[0].ip != ip {
      FindCounted(clients[1..], ip, a);
      var i := Find(clients[1..], ip);
      assert Find(clients, ip) == i + 1;
      assert Counted(clients, ip)[1..] == Counted(clients[1..], ip);
    } else {
      assert Counted(clients, ip)[1..] == clients[1..];
    }
  }

  /** Everything that is stated about addresses survives counting one submission. */
  lemma CountedRoster(s: Server, ip: string, t: Server)
    requires Roster(s) && Knows(s, ip) && Interaction(s, ip) == s.current
    requires t == s.(clients := Counted(s.clients, ip))
    ensures DistinctAddresses(t.clients) && |t.clients| == |s.clients|
    ensures forall a :: Knows(t, a) <==> Knows(s, a)
    ensures forall a :: Knows(s, a) ==> Interaction(t, a) == if a == ip then s.current + 1 else Interaction(s, a)
    ensures forall i :: 0 <= i < |s.clients| ==> t.clients[i].ip == s.clients[i].ip
    ensures forall i :: 0 <= i < |s.clients| ==>
              t.clients[i].interaction == if s.clients[i].ip == ip then s.current + 1 else s.clients[i].interaction
  {
    forall a ensures Find(t.clients, a) == Find(s.clients, a) {
      FindCounted(s.clients, ip, a);
    }
  }

  /** Whoever still owes a submission keeps the round open. */
  lemma OwingWaits(s: Server, ip: string)
    requires Owes(s, ip)
    ensures Waiting(s.clients, s.current)
  {
    assert s.clients[Find(s.clients, ip)].interaction == s.current;
  }

  /** After the last round: only the sender's count changes. */
  lemma ProcessAfterEnd(s: System)
    requires Inv(s) && Enabled(s, DoProcess) && s.server.current >= s.server.cycle
    ensures Inv(Next(s, DoProcess))
  {
    var m := s.queue[0];
    var t := Next(s, DoProcess);
    assert Owes(s.server, m.ip);
    CountedRoster(s.server, m.ip, s.server.(clients := Counted(s.server.clients, m.ip)));
    OthersPending(s, t);
  }

  /** Clients and messages other than the one processed are as before, as long as the
      published model, the shape and the round stay. */
  lemma OthersPending(s: System, t: System)
    requires Inv(s) && s.queue != [] && t.queue == s.queue[1..] && t.phases == s.phases
    requires t.server.published == s.server.published && SameShape(t.server.sum, s.server.sum)
    requires t.server.registered == s.server.registered && t.server.limit == s.server.limit
    requires t.server.current == s.server.current
    requires forall a :: a != s.queue[0].ip && Knows(s.server, a) ==>
               Knows(t.server, a) && Interaction(t.server, a) == Interaction(s.server, a)
    ensures Clients(t) && Messages(t)
  {
    var m := s.queue[0];
    forall a | a in t.phases && t.phases[a] != Idle
      ensures Owes(t.server, a) && !Queued(t, a)
    {
      assert Owes(s.server, a) && !Queued(s, a);
      assert a != m.ip;
      assert forall k :: 0 <= k < |t.queue| ==> t.queue[k] == s.queue[k + 1];
    }
    forall k | 0 <= k < |t.queue| ensures WellSent(t.server, t.queue[k]) && Owes(t.server, t.queue[k].ip) {
      assert t.queue[k] == s.queue[k + 1];
      assert WellSent(s.server, s.queue[k + 1]) && Owes(s.server, s.queue[k + 1].ip);
      ShapeIsKept(t.server.sum, s.server.sum, s.queue[k + 1].model);
    }
  }

  lemma Appended(log: seq<Message>, m: Message)
    ensures TotalCount(log + [m]) == TotalCount(log) + m.count
    ensures forall p :: Carries(log, p) && Has(m.model, p) ==>
              Carries(log + [m], p)
              && WeightedSum(log + [m], p) == WeightedSum(log, p) + At(m.model, p) * m.count as real
  {
    assert (log + [m])[..|log|] == log;
    forall p ensures Sum(log + [m], Share(p)) == Sum(log, Share(p)) + Share(p)(m) {
      SumAppended(log, m, Share(p));
    }
  }

  /** The sum and the counter after one more message. */
  lemma OneMore(s: System, m: Message, sum: NetValue)
    requires Partial(s) && SameShape(s.server.sum, m.model) && sum == AddScaledNet(s.server.sum, m.model, m.count)
    ensures SameShape(s.carried, sum) && SameShape(sum, s.server.published)
    ensures forall p :: Has(s.carried, p) ==>
              Has(sum, p) && Carries(s.round + [m], p) && At(sum, p) == At(s.carried, p) + WeightedSum(s.round + [m], p)
  {
    Appended(s.round, m);
    ShapeIsKept(sum, s.server.sum, s.server.published);
    ShapeIsKept(s.server.sum, sum, []);
    ShapeIsKept(s.carried, s.server.sum, sum);
    forall p | Has(s.carried, p)
      ensures Has(sum, p) && Carries(s.round + [m], p) && At(sum, p) == At(s.carried, p) + WeightedSum(s.round + [m], p)
    {
      AtAddScaled(s.server.sum, m.model, m.count, p);
    }
  }

  lemma MidRoundServer(s: Server, m: Message)
    requires Roster(s) && Owes(s, m.ip) && SameShape(s.sum, m.model) && s.counter + m.count != 0
    requires s.current < s.cycle && Submit(s, m.ip, m.model, m.count).current == s.current
    ensures var t := Submit(s, m.ip, m.model, m.count);
            && t == s.(clients := Counted(s.clients, m.ip), status := true, counter := s.counter + m.count,
                       sum := AddScaledNet(s.sum, m.model, m.count))
            && Roster(t)
  {
    hide AddScaledNet, DividedNet, ResetNet, SameShape;
    CountedRoster(s, m.ip, s.(clients := Counted(s.clients, m.ip)));
  }

  lemma ProcessMidRound(s: System)
    requires Inv(s) && Enabled(s, DoProcess) && s.server.current < s.server.cycle
    requires Next(s, DoProcess).server.current == s.server.current
    ensures Inv(Next(s, DoProcess))
  {
    hide AddScaledNet, SameShape, Clients, Submitted;
    var m := s.queue[0];
    var t := Next(s, DoProcess);
    assert Owes(s.server, m.ip) && WellSent(s.server, m);
    CountedRoster(s.server, m.ip, s.server.(clients := Counted(s.server.clients, m.ip)));
    MidRoundServer(s.server, m);
    OneMore(s, m, t.server.sum);
    Appended(s.round, m);
    ShapeIsKept(t.server.sum, s.server.sum, []);
    OthersPending(s, t);
    SubmittedMore(s, t);
  }

  lemma SubmittedMore(s: System, t: System)
    requires Submitted(s) && s.queue != [] && Owes(s.server, s.queue[0].ip) && WellSent(s.server, s.queue[0])
    requires t.round == s.round + [s.queue[0]] && s.server.current < s.server.cycle
    requires t.server.current == s.server.current && t.server.cycle == s.server.cycle
    requires t.server.published == s.server.published && SameShape(t.server.sum, s.server.sum)
    requires |t.server.clients| == |s.server.clients|
    requires forall a :: Knows(t.server, a) <==> Knows(s.server, a)
    requires forall i :: 0 <= i < |s.server.clients| ==>
               && t.server.clients[i].ip == s.server.clients[i].ip
               && t.server.clients[i].interaction
                  == if s.server.clients[i].ip == s.queue[0].ip then s.server.current + 1
                     else s.server.clients[i].interaction
    ensures Submitted(t)
  {
    var m := s.queue[0];
    NotYetSubmitted(s, m.ip);
    forall k | 0 <= k < |t.round| ensures WellSent(t.server, t.round[k]) && Knows(t.server, t.round[k].ip) {
      ShapeIsKept(t.server.sum, s.server.sum, t.round[k].model);
    }
    forall a ensures SentBy(t.round, a) <==> SentBy(s.round, a) || a == m.ip {
      assert t.round[|s.round|] == m;
      assert forall k :: 0 <= k < |s.round| ==> t.round[k] == s.round[k];
    }
  }

  /** A client that owes its submission has not been aggregated in this round. */
  lemma NotYetSubmitted(s: System, ip: string)
    requires Submitted(s) && Owes(s.server, ip) && s.server.current < s.server.cycle
    ensures !SentBy(s.round, ip)
  {
    var i := Find(s.server.clients, ip);
    assert s.server.clients[i].ip == ip;
  }

  lemma ProcessCloses(s: System)
    requires Inv(s) && Enabled(s, DoProcess) && s.server.current < s.server.cycle
    requires Next(s, DoProcess).server.current != s.server.current
    ensures Inv(Next(s, DoProcess))
  {
    var m := s.queue[0];
    var t := Next(s, DoProcess);
    var counted := s.server.(clients := Counted(s.server.clients, m.ip));
    assert Owes(s.server, m.ip) && WellSent(s.server, m);
    CountedRoster(s.server, m.ip, counted);
    assert !Waiting(counted.clients, s.server.current);
    NobodyElsePending(s, counted);
    var sum := AddScaledNet(s.server.sum, m.model, m.count);
    var average := DividedNet(sum, s.server.counter + m.count);
    assert s.queue[1..] == [];
    assert t.server == Closed(counted.(status := false, sum := sum, counter := s.server.counter + m.count));
    forall i | 0 <= i < |t.server.clients| ensures t.server.clients[i].interaction == t.server.current {
      assert counted.clients[i].interaction != s.server.current;
    }
    RoundBegins(t, average);
  }

  /** The invariant holds of a round that has just begun. */
  lemma RoundBegins(t: System, average: NetValue)
    requires t.server.published == average && t.server.sum == ResetNet(average) && t.carried == t.server.sum
    requires t.server.counter == 0 && t.server.current > 0 && t.round == [] && t.queue == []
    requires forall a :: a in t.phases ==> t.phases[a] == Idle
    requires t.server.registered == |t.server.clients| == t.server.limit
    requires DistinctAddresses(t.server.clients) && t.server.current <= t.server.cycle && t.server.status
    requires forall i :: 0 <= i < |t.server.clients| ==> t.server.clients[i].interaction == t.server.current
    ensures Inv(t)
  {
    hide ResetNet;
    ShapeIsKept(ResetNet(average), average, average);
    ShapeIsKept(average, ResetNet(average), average);
    CarriedOver(average);
  }

  lemma NobodyElsePending(s: System, counted: Server)
    requires Inv(s) && s.queue != [] && Knows(s.server, s.queue[0].ip)
    requires counted == s.server.(clients := Counted(s.server.clients, s.queue[0].ip))
    requires forall a :: Knows(s.server, a) && a != s.queue[0].ip ==>
               Knows(counted, a) && Interaction(counted, a) == Interaction(s.server, a)
    requires !Waiting(counted.clients, s.server.current)
    ensures |s.queue| == 1 && forall a :: a in s.phases ==> s.phases[a] == Idle
  {
    var m := s.queue[0];
    forall a | a in s.phases ensures s.phases[a] == Idle {
      if s.phases[a] != Idle {
        assert Owes(s.server, a) && a != m.ip;
        OwingWaits(counted, a);
        assert false;
      }
    }
    if |s.queue| > 1 {
      var a := s.queue[1].ip;
      assert Owes(s.server, a) && a != m.ip;
      OwingWaits(counted, a);
      assert false;
    }
  }

  lemma CarriedOver(average: NetValue)
    ensures forall p :: Has(ResetNet(average), p) ==>
              Has(average, p) && At(ResetNet(average), p) == if Cleared(p) then 0.0 else At(average, p)
  {
    forall p | Has(ResetNet(average), p)
      ensures Has(average, p) && At(ResetNet(average), p) == if Cleared(p) then 0.0 else At(average, p)
    {
      HasSame(ResetNet(average), average, p);
      AtReset(average, p);
    }
  }

  lemma StepKeeps(s: System, step: Step)
    requires Inv(s) && Enabled(s, step) && Disciplined(s, step)
    ensures Inv(Next(s, step))
  {
    match step
    case DoRegister(ip) => RegisterKeeps(s, ip);
    case DoCheck(ip) => CheckKeeps(s, ip);
    case DoGetModel(ip) => GetModelKeeps(s, ip);
    case DoSend(ip, model, count) => SendKeeps(s, ip, model, count);
    case DoDrop(ip) => DropKeeps(s, ip);
    case DoProcess =>
      if s.server.current >= s.server.cycle {
        ProcessAfterEnd(s);
      } else if Next(s, DoProcess).server.current == s.server.current {
        ProcessMidRound(s);
      } else {
        ProcessCloses(s);
      }
  }
}
