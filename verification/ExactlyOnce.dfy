/**
  * The transaction client against an unreliable transport. Every transport call is
  * a message that the server may never see, or process at any later time; every
  * reply may be lost or replaced by one that proves nothing. The server is assumed
  * to run only the next sequence number, to answer an identical earlier command
  * again without running it, and to run nothing it refuses with a documented code.
  */
module ExactlyOnce {
  import opened Core
  import opened Protocol
  import opened Transaction

  /** What the server did with a message, and what its answer proves. */
  datatype Answer = Ran(verdict: Verdict) | Declined(verdict: Verdict)

  /** `confirmed` are the commands the client saw confirmed, `log` those the server ran, `answers` what it answered. */
  datatype System = System(client: Client, confirmed: seq<Request>, log: seq<Request>, answers: map<nat, Answer>)

  datatype Step =
    | Invoke(call: Call)
    | StartNext(aborted: bool)
    | Process(k: nat, run: bool, reply: Reply)
    | Receive(reply: Reply)

  function Begin(id: string, role: Option<string>): System {
    System(Open(id, role), [], [], map[])
  }

  function VerdictOn(request: Request, reply: Reply): Verdict {
    Classify(reply, request, request.transactionId, request.sequence)
  }

  /** The server's part of the assumption, for one message. */
  predicate MayProcess(s: System, k: nat, run: bool, verdict: Verdict) {
    k < |s.client.trace| && k !in s.answers &&
    var request := s.client.trace[k];
    if run then
      !verdict.Rejected? &&
      (request.sequence == |s.log| + 1 || (1 <= request.sequence <= |s.log| && s.log[request.sequence - 1] == request))
    else !verdict.Confirmed?
  }

  function Processed(s: System, k: nat, run: bool, verdict: Verdict): System
    requires MayProcess(s, k, run, verdict)
  {
    var request := s.client.trace[k];
    s.(log := if run && request.sequence == |s.log| + 1 then s.log + [request] else s.log,
       answers := s.answers[k := if run then Ran(verdict) else Declined(verdict)])
  }

  /** The transport's part: it may lose a reply, but not invent evidence. */
  predicate MayReceive(s: System, verdict: Verdict) {
    s.client.inFlight.Some? && s.client.pending.Some? && |s.client.trace| > 0 &&
    var k := |s.client.trace| - 1;
    !verdict.Uncertain? ==> k in s.answers && s.answers[k].verdict == verdict
  }

  function Received(s: System, verdict: Verdict): System
    requires MayReceive(s, verdict)
  {
    s.(client := Settle(s.client, verdict),
       confirmed := if verdict.Confirmed? then s.confirmed + [s.client.pending.value] else s.confirmed)
  }

  predicate Allowed(s: System, step: Step) {
    match step
    case Invoke(call) => call.Terminal? ==> !call.kind.Statement?
    case StartNext(_) => s.client.inFlight.None? && s.client.queue != []
    case Process(k, run, reply) =>
      k < |s.client.trace| && MayProcess(s, k, run, VerdictOn(s.client.trace[k], reply))
    case Receive(reply) =>
      s.client.pending.Some? &&
      MayReceive(s, Classify(reply, s.client.pending.value, s.client.id, s.client.sequence))
  }

  function Next(s: System, step: Step): System
    requires Allowed(s, step)
  {
    match step
    case Invoke(call) => s.(client := Admit(s.client, call))
    case StartNext(aborted) => s.(client := Start(s.client, aborted))
    case Process(k, run, reply) => Processed(s, k, run, VerdictOn(s.client.trace[k], reply))
    case Receive(reply) => Received(s, Classify(reply, s.client.pending.value, s.client.id, s.client.sequence))
  }

  /** A run: every step is allowed where it is taken. */
  ghost predicate Runs(s: System, steps: seq<Step>, t: System)
    decreases |steps|
  {
    if steps == [] then s == t
    else Allowed(s, steps[0]) && Runs(Next(s, steps[0]), steps[1..], t)
  }

  // ---- The invariant, by concern.

  /** How the fields of the object fit together. */
  predicate FieldsFit(c: Client) {
    c.sequence >= 1 &&
    (c.state.Unknown? <==> c.pending.Some? && c.failure.Some?) &&
    (c.state.Failed? <==> c.pending.None? && c.failure.Some?) &&
    (c.pending.Some? && c.failure.None? ==> c.state.Active? && c.inFlight.Some?) &&
    (c.inFlight.Some? ==> c.pending.Some?) &&
    (c.pending.Some? ==> c.pending.value.sequence == c.sequence && c.pending.value.transactionId == c.id) &&
    (c.pending.Some? ==> |c.trace| > 0 && c.trace[|c.trace| - 1] == c.pending.value) &&
    (c.settled <==> c.state in {Committed, RolledBack, Failed} || c.disposed)
  }

  /** Nothing is admitted behind disposal, and disposal completes only as the last work item. */
  predicate QueueFits(c: Client) {
    (forall i :: 0 <= i < |c.queue| && c.queue[i].Cleanup? ==> i == |c.queue| - 1) &&
    (forall i :: 0 <= i < |c.queue| && c.queue[i].End? ==> !c.queue[i].kind.Statement?) &&
    (c.inFlight == Some(Cleanup) ==> c.queue == []) &&
    (c.disposed ==> c.disposing && c.queue == [] && c.inFlight.None?) &&
    (c.disposing && !c.disposed ==>
        (c.queue != [] && c.queue[|c.queue| - 1].Cleanup?) || c.inFlight == Some(Cleanup)) &&
    (!c.disposing ==> c.inFlight != Some(Cleanup) && forall i :: 0 <= i < |c.queue| ==> !c.queue[i].Cleanup?)
  }

  predicate FirstAttempt(c: Client) {
    c.pending.Some? && c.failure.None?
  }

  predicate Refusal(s: System, i: int) {
    s.client.state.Failed? && i == |s.client.trace| - 1 && i in s.answers && s.answers[i].Declined?
  }

  /** Every call repeats the one request of its sequence number: a confirmed one or the current one. */
  predicate OneRequestEach(s: System) {
    var c := s.client;
    c.sequence == |s.confirmed| + 1 &&
    (forall i :: 0 <= i < |s.confirmed| ==> s.confirmed[i].sequence == i + 1) &&
    (forall i :: 0 <= i < |c.trace| ==> 1 <= c.trace[i].sequence <= c.sequence) &&
    (forall i :: 0 <= i < |c.trace| && c.trace[i].sequence < c.sequence ==>
       s.confirmed[c.trace[i].sequence - 1] == c.trace[i]) &&
    (forall i :: 0 <= i < |c.trace| && c.trace[i].sequence == c.sequence ==>
       (c.pending == Some(c.trace[i]) && (FirstAttempt(c) ==> i == |c.trace| - 1)) || Refusal(s, i))
  }

  /** Only the last confirmed command can have ended the transaction. */
  predicate EndsOnce(s: System) {
    (forall i :: 0 <= i < |s.confirmed| && !s.confirmed[i].kind.Statement? ==>
       i == |s.confirmed| - 1 && s.client.state == FinalStatus(s.confirmed[i].kind) && s.client.pending.None?) &&
    (s.client.state in {Committed, RolledBack} ==>
       s.client.pending.None? && s.confirmed != [] &&
       FinalStatus(s.confirmed[|s.confirmed| - 1].kind) == s.client.state)
  }

  /** What the server ran is what was confirmed, or that and the current command. */
  predicate LogFits(s: System) {
    |s.confirmed| <= |s.log| <= |s.confirmed| + 1 &&
    s.log[..|s.confirmed|] == s.confirmed &&
    (|s.log| > |s.confirmed| ==> s.client.pending == Some(s.log[|s.confirmed|])) &&
    (|s.log| > |s.confirmed| ==> exists k :: k in s.answers && AnswerRuns(s, k))
  }

  predicate AnswerRuns(s: System, k: nat) {
    k in s.answers && k < |s.client.trace| && s.answers[k].Ran? && s.client.trace[k].sequence == s.client.sequence
  }

  predicate AnswerFits(s: System, k: nat)
    requires k in s.answers
  {
    k < |s.client.trace| &&
    if s.answers[k].Ran? then
      var request := s.client.trace[k];
      !s.answers[k].verdict.Rejected? && 1 <= request.sequence <= |s.log| && s.log[request.sequence - 1] == request
    else !s.answers[k].verdict.Confirmed?
  }

  predicate AnswersFit(s: System) {
    forall k :: k in s.answers ==> AnswerFits(s, k)
  }

  ghost predicate Inv(s: System) {
    FieldsFit(s.client) && QueueFits(s.client) && OneRequestEach(s) && EndsOnce(s) && LogFits(s) && AnswersFit(s)
  }

  // ---- Steps of the client that send nothing, and steps that send one request.

  /** The parts of the client that the network and the server can notice. */
  predicate SameCore(c: Client, d: Client) {
    c.id == d.id && c.pending == d.pending && c.failure == d.failure && c.state == d.state &&
    c.sequence == d.sequence && c.trace == d.trace
  }

  /** One more transport call, of the frozen request or of a new one with the current number. */
  predicate Sends(c: Client, d: Client) {
    c.id == d.id && c.failure == d.failure && c.state == d.state && c.sequence == d.sequence &&
    d.inFlight.Some? && d.pending.Some? && d.trace == c.trace + [d.pending.value] &&
    (c.pending.Some? ==> d.pending == c.pending) &&
    (c.pending.None? ==> c.failure.None? && c.state.Active?) &&
    (c.pending.None? ==> d.pending.value.sequence == c.sequence && d.pending.value.transactionId == c.id)
  }

  lemma AdmitFits(c: Client, call: Call)
    requires FieldsFit(c) && QueueFits(c) && (call.Terminal? ==> !call.kind.Statement?)
    ensures var d := Admit(c, call); FieldsFit(d) && QueueFits(d) && SameCore(c, d)
  {
    var d := Admit(c, call);
    assert d.queue == c.queue || (|d.queue| == |c.queue| + 1 && d.queue[..|c.queue|] == c.queue);
    assert forall i :: 0 <= i < |c.queue| ==> d.queue[i] == c.queue[i];
  }

  lemma StartShape(c: Client, aborted: bool)
    requires FieldsFit(c) && c.inFlight.None? && c.queue != [] && !c.disposed
    requires c.queue[0].End? ==> !c.queue[0].kind.Statement?
    ensures var d := Start(c, aborted);
            (SameCore(c, d) && d.inFlight.None?) ||
            (Sends(c, d) && d.inFlight == Some(c.queue[0]) && !d.disposed)
  {
  }

  lemma StartFits(c: Client, aborted: bool)
    requires FieldsFit(c) && QueueFits(c) && c.inFlight.None? && c.queue != []
    ensures var d := Start(c, aborted); FieldsFit(d) && QueueFits(d)
  {
    var d := Start(c, aborted);
    StartShape(c, aborted);
    assert d.queue == c.queue[1..];
    assert d.disposing == c.disposing;
    assert d.disposed == (c.disposed || (c.queue[0].Cleanup? && d.inFlight.None?));
    assert d.settled == (c.settled || (d.disposed && !c.disposed));
  }

  lemma SameCoreInv(s: System, d: Client)
    requires Inv(s) && SameCore(s.client, d) && FieldsFit(d) && QueueFits(d)
    ensures Inv(s.(client := d))
  {
    var t := s.(client := d);
    if |s.log| > |s.confirmed| {
      var k :| k in s.answers && AnswerRuns(s, k);
      assert AnswerRuns(t, k);
    }
    forall k | k in t.answers ensures AnswerFits(t, k) { assert AnswerFits(s, k); }
    forall i | 0 <= i < |d.trace| && d.trace[i].sequence == d.sequence
      ensures (d.pending == Some(d.trace[i]) && (FirstAttempt(d) ==> i == |d.trace| - 1)) || Refusal(t, i)
    {
      assert s.client.trace[i].sequence == s.client.sequence;
      assert Refusal(s, i) ==> Refusal(t, i);
    }
  }

  lemma SendsInv(s: System, d: Client)
    requires Inv(s) && Sends(s.client, d) && FieldsFit(d) && QueueFits(d)
    requires s.client.inFlight.None?
    ensures Inv(s.(client := d))
  {
    var c, t := s.client, s.(client := d);
    assert forall i :: 0 <= i < |c.trace| ==> d.trace[i] == c.trace[i];
    if |s.log| > |s.confirmed| {
      var k :| k in s.answers && AnswerRuns(s, k);
      assert AnswerRuns(t, k);
    }
    forall k | k in t.answers ensures AnswerFits(t, k) { assert AnswerFits(s, k); }
    SendsOneRequest(s, d);
  }

  lemma SendsOneRequest(s: System, d: Client)
    requires FieldsFit(s.client) && OneRequestEach(s) && Sends(s.client, d) && FieldsFit(d) && s.client.inFlight.None?
    ensures OneRequestEach(s.(client := d))
  {
    var c, t := s.client, s.(client := d);
    forall i | 0 <= i < |d.trace|
      ensures 1 <= d.trace[i].sequence <= d.sequence
      ensures d.trace[i].sequence < d.sequence ==> t.confirmed[d.trace[i].sequence - 1] == d.trace[i]
      ensures d.trace[i].sequence == d.sequence ==>
                d.pending == Some(d.trace[i]) && (FirstAttempt(d) ==> i == |d.trace| - 1)
    {
      if i < |c.trace| {
        assert d.trace[i] == c.trace[i];
      } else {
        assert d.trace[i] == d.pending.value;
      }
    }
  }

  // ---- Steps of the server and of the network.

  lemma ProcessInv(s: System, k: nat, run: bool, verdict: Verdict)
    requires Inv(s) && MayProcess(s, k, run, verdict)
    ensures Inv(Processed(s, k, run, verdict))
  {
    ProcessAnswers(s, k, run, verdict);
    ProcessOneRequest(s, k, run, verdict);
    ProcessLog(s, k, run, verdict);
  }

  lemma ProcessAnswers(s: System, k: nat, run: bool, verdict: Verdict)
    requires AnswersFit(s) && MayProcess(s, k, run, verdict)
    ensures AnswersFit(Processed(s, k, run, verdict))
  {
    var t := Processed(s, k, run, verdict);
    forall j | j in t.answers ensures AnswerFits(t, j) {
      if j != k { assert AnswerFits(s, j); }
    }
  }

  lemma ProcessLog(s: System, k: nat, run: bool, verdict: Verdict)
    requires LogFits(s) && MayProcess(s, k, run, verdict) && s.client.sequence == |s.confirmed| + 1
    requires s.client.trace[k].sequence == s.client.sequence ==> s.client.pending == Some(s.client.trace[k])
    requires s.client.trace[k].sequence <= s.client.sequence
    ensures LogFits(Processed(s, k, run, verdict))
  {
    var t := Processed(s, k, run, verdict);
    if |s.log| > |s.confirmed| {
      var j :| j in s.answers && AnswerRuns(s, j);
      assert AnswerRuns(t, j);
    } else if |t.log| > |t.confirmed| {
      assert AnswerRuns(t, k);
    }
  }

  lemma ProcessOneRequest(s: System, k: nat, run: bool, verdict: Verdict)
    requires Inv(s) && MayProcess(s, k, run, verdict)
    ensures OneRequestEach(Processed(s, k, run, verdict))
    ensures s.client.trace[k].sequence == s.client.sequence ==> s.client.pending == Some(s.client.trace[k])
  {
    var t := Processed(s, k, run, verdict);
    forall i | 0 <= i < |s.client.trace| && s.client.trace[i].sequence == s.client.sequence && Refusal(s, i)
      ensures Refusal(t, i) {}
  }

  /** A confirmation arrives: the server has run the pending command. */
  lemma ConfirmedInv(s: System)
    requires Inv(s) && MayReceive(s, Confirmed)
    ensures Inv(Received(s, Confirmed))
  {
    var t, last := Received(s, Confirmed), |s.client.trace| - 1;
    assert AnswerFits(s, last);
    assert |s.log| == |s.confirmed| + 1;
    assert t.confirmed == s.log;
    forall k | k in t.answers ensures AnswerFits(t, k) { assert AnswerFits(s, k); }
    ConfirmedOneRequest(s);
    ConfirmedFits(s.client);
  }

  lemma ConfirmedFits(c: Client)
    requires FieldsFit(c) && QueueFits(c) && c.inFlight.Some?
    ensures FieldsFit(Settle(c, Confirmed)) && QueueFits(Settle(c, Confirmed))
  {
  }

  lemma ConfirmedOneRequest(s: System)
    requires FieldsFit(s.client) && OneRequestEach(s) && MayReceive(s, Confirmed) && EndsOnce(s)
    ensures OneRequestEach(Received(s, Confirmed)) && EndsOnce(Received(s, Confirmed))
  {
    var c, t := s.client, Received(s, Confirmed);
    forall i | 0 <= i < |c.trace| && c.trace[i].sequence == c.sequence ensures c.trace[i] == c.pending.value {
      assert c.pending == Some(c.trace[i]) || Refusal(s, i);
    }
  }

  /** A doubt, or a refusal of a command that is in doubt already: nothing the server could notice changes. */
  lemma DoubtInv(s: System, verdict: Verdict)
    requires Inv(s) && MayReceive(s, verdict) && !verdict.Confirmed? && (verdict.Uncertain? || s.client.failure.Some?)
    ensures Inv(Received(s, verdict))
  {
    var c, t := s.client, Received(s, verdict);
    var d := t.client;
    DoubtFits(c, verdict);
    assert d.pending == c.pending && d.sequence == c.sequence && d.trace == c.trace && d.id == c.id;
    if |s.log| > |s.confirmed| {
      var k :| k in s.answers && AnswerRuns(s, k);
      assert AnswerRuns(t, k);
    }
    forall k | k in t.answers ensures AnswerFits(t, k) { assert AnswerFits(s, k); }
    forall i | 0 <= i < |d.trace| && d.trace[i].sequence == d.sequence ensures d.pending == Some(d.trace[i]) {
      assert c.pending == Some(c.trace[i]) || Refusal(s, i);
    }
  }

  lemma DoubtFits(c: Client, verdict: Verdict)
    requires FieldsFit(c) && QueueFits(c) && c.inFlight.Some?
    requires !verdict.Confirmed? && (verdict.Uncertain? || c.failure.Some?)
    ensures var d := Settle(c, verdict);
            FieldsFit(d) && QueueFits(d) && d.pending == c.pending && d.sequence == c.sequence && d.trace == c.trace &&
            d.id == c.id && d.state.Unknown? && d.failure.Some?
  {
  }

  /** A refusal of a first attempt: its one message was declined, so the server did not run it. */
  lemma RefusalInv(s: System, code: Code)
    requires Inv(s) && MayReceive(s, Rejected(code)) && s.client.failure.None?
    ensures Inv(Received(s, Rejected(code)))
  {
    var c, t := s.client, Received(s, Rejected(code));
    var last := |c.trace| - 1;
    RefusalFits(c, code);
    assert AnswerFits(s, last);
    assert s.answers[last].Declined?;
    assert forall k :: k in s.answers && AnswerRuns(s, k) ==> k == last;
    assert !AnswerRuns(s, last);
    forall k | k in t.answers ensures AnswerFits(t, k) { assert AnswerFits(s, k); }
    forall i | 0 <= i < |c.trace| && c.trace[i].sequence == c.sequence ensures Refusal(t, i) {
      assert c.pending == Some(c.trace[i]) || Refusal(s, i);
    }
  }

  lemma RefusalFits(c: Client, code: Code)
    requires FieldsFit(c) && QueueFits(c) && c.inFlight.Some? && c.failure.None?
    ensures var d := Settle(c, Rejected(code));
            FieldsFit(d) && QueueFits(d) && d.pending.None? && d.sequence == c.sequence && d.trace == c.trace &&
            d.state.Failed?
  {
  }

  /** Every step keeps the invariant. */
  lemma StepInv(s: System, step: Step)
    requires Inv(s) && Allowed(s, step)
    ensures Inv(Next(s, step))
  {
    match step
    case Invoke(call) =>
      AdmitFits(s.client, call);
      SameCoreInv(s, Admit(s.client, call));
    case StartNext(aborted) =>
      StartShape(s.client, aborted);
      StartFits(s.client, aborted);
      var d := Start(s.client, aborted);
      if SameCore(s.client, d) { SameCoreInv(s, d); } else { SendsInv(s, d); }
    case Process(k, run, reply) =>
      ProcessInv(s, k, run, VerdictOn(s.client.trace[k], reply));
    case Receive(reply) =>
      ReceivedInv(s, Classify(reply, s.client.pending.value, s.client.id, s.client.sequence));
  }

  lemma ReceivedInv(s: System, verdict: Verdict)
    requires Inv(s) && MayReceive(s, verdict)
    ensures Inv(Received(s, verdict))
  {
    if verdict.Confirmed? {
      ConfirmedInv(s);
    } else if verdict.Uncertain? || s.client.failure.Some? {
      DoubtInv(s, verdict);
    } else {
      RefusalInv(s, verdict.code);
    }
  }

  // ---- Whole runs.

  /** The states some run of a fresh transaction leads to. */
  ghost predicate Reachable(s: System) {
    exists id, role, steps :: Runs(Begin(id, role), steps, s)
  }

  lemma ReachableInv(s: System)
    requires Reachable(s)
    ensures Inv(s)
  {
    var id, role, steps :| Runs(Begin(id, role), steps, s);
    BeginInv(id, role);
    RunInv(Begin(id, role), steps, s);
  }

  lemma {:induction false} RunInv(s: System, steps: seq<Step>, t: System)
    requires Inv(s) && Runs(s, steps, t)
    ensures Inv(t)
    decreases |steps|
  {
    if steps != [] {
      StepInv(s, steps[0]);
      RunInv(Next(s, steps[0]), steps[1..], t);
    }
  }

  lemma BeginInv(id: string, role: Option<string>)
    ensures Inv(Begin(id, role))
  {
  }

  /**
    * Exactly once: in every reachable state the server has run the confirmed commands in
    * their order, and besides them at most the one pending command, which the client then
    * reports as in flight or in doubt. A failed or ended transaction hides nothing.
    */
  lemma EffectsAreConfirmed(t: System)
    requires Reachable(t)
    ensures t.log == t.confirmed || (t.client.pending.Some? && t.log == t.confirmed + [t.client.pending.value])
    ensures t.client.pending.Some? ==> t.client.state.Unknown? || t.client.inFlight.Some?
    ensures t.client.state in {Committed, RolledBack, Failed} ==> t.log == t.confirmed
    ensures t.client.state.Active? && t.client.inFlight.None? ==> t.log == t.confirmed
  {
    ReachableInv(t);
    if |t.log| > |t.confirmed| {
      assert t.log == t.confirmed + [t.log[|t.confirmed|]];
    }
  }

  /**
    * One request per sequence number: every transport call carries a number whose
    * predecessors are all confirmed, and calls with the same number carry the same request.
    */
  lemma OneRequestPerNumber(t: System, i: nat, j: nat)
    requires Reachable(t) && i < |t.client.trace| && j < |t.client.trace|
    ensures 1 <= t.client.trace[i].sequence <= |t.confirmed| + 1
    ensures t.client.trace[i].sequence == t.client.trace[j].sequence ==> t.client.trace[i] == t.client.trace[j]
    ensures forall n :: 0 <= n < |t.confirmed| ==> t.confirmed[n].sequence == n + 1
  {
    ReachableInv(t);
  }

  /** The transaction is over for the client: it was ended, refused, or disposed of. */
  predicate Over(c: Client) {
    c.state in {Committed, RolledBack, Failed} || c.disposed
  }

  lemma OverStep(s: System, step: Step)
    requires Inv(s) && Allowed(s, step) && Over(s.client)
    ensures Over(Next(s, step).client) && Next(s, step).client.trace == s.client.trace
  {
    match step
    case Invoke(call) => AdmitFits(s.client, call);
    case StartNext(aborted) => StartShape(s.client, aborted);
    case _ =>
  }

  lemma {:induction false} OverRun(s: System, steps: seq<Step>, t: System)
    requires Inv(s) && Over(s.client) && Runs(s, steps, t)
    ensures Over(t.client) && t.client.trace == s.client.trace
    decreases |steps|
  {
    if steps != [] {
      StepInv(s, steps[0]);
      OverStep(s, steps[0]);
      OverRun(Next(s, steps[0]), steps[1..], t);
    }
  }

  /** Nothing is sent after the transaction is over, on any continuation. */
  lemma NothingSentWhenOver(s: System, steps: seq<Step>, t: System)
    requires Reachable(s) && Over(s.client) && Runs(s, steps, t)
    ensures Over(t.client) && t.client.trace == s.client.trace
  {
    ReachableInv(s);
    OverRun(s, steps, t);
  }

  /** A commit or rollback is being sent or was sent: `request` is the last one the client will ever send. */
  predicate Ending(s: System, request: Request) {
    !request.kind.Statement? && (s.client.pending == Some(request) || Over(s.client))
  }

  lemma EndingStep(s: System, step: Step, request: Request)
    requires Inv(s) && Allowed(s, step) && Ending(s, request)
    ensures Ending(Next(s, step), request)
    ensures Next(s, step).client.trace == s.client.trace || Next(s, step).client.trace == s.client.trace + [request]
  {
    if Over(s.client) {
      OverStep(s, step);
    } else {
      match step
      case Invoke(call) => AdmitFits(s.client, call);
      case StartNext(aborted) => StartShape(s.client, aborted);
      case _ =>
    }
  }

  lemma {:induction false} EndingRun(s: System, steps: seq<Step>, t: System, request: Request)
    requires Inv(s) && Ending(s, request) && Runs(s, steps, t)
    ensures |s.client.trace| <= |t.client.trace| && t.client.trace[..|s.client.trace|] == s.client.trace
    ensures forall i :: |s.client.trace| <= i < |t.client.trace| ==> t.client.trace[i] == request
    decreases |steps|
  {
    if steps != [] {
      var u := Next(s, steps[0]);
      StepInv(s, steps[0]);
      EndingStep(s, steps[0], request);
      EndingRun(u, steps[1..], t, request);
      assert t.client.trace[..|s.client.trace|] == t.client.trace[..|u.client.trace|][..|s.client.trace|];
      forall i | |s.client.trace| <= i < |t.client.trace| ensures t.client.trace[i] == request {
        if i < |u.client.trace| { assert t.client.trace[..|u.client.trace|][i] == u.client.trace[i]; }
      }
    }
  }

  /** Once a commit or rollback is sent, every later call is that same request. */
  lemma EndingIsLast(s: System, steps: seq<Step>, t: System)
    requires Reachable(s) && s.client.trace != [] && Runs(s, steps, t)
    requires !s.client.trace[|s.client.trace| - 1].kind.Statement?
    ensures |s.client.trace| <= |t.client.trace| && t.client.trace[..|s.client.trace|] == s.client.trace
    ensures forall i :: |s.client.trace| <= i < |t.client.trace| ==>
            t.client.trace[i] == s.client.trace[|s.client.trace| - 1]
  {
    ReachableInv(s);
    var last := |s.client.trace| - 1;
    var request := s.client.trace[last];
    if request.sequence < s.client.sequence {
      assert s.confirmed[request.sequence - 1] == request;
    } else {
      assert s.client.pending == Some(request) || Refusal(s, last);
    }
    EndingRun(s, steps, t, request);
  }

  /** The reply that confirms a request. */
  function Confirmation(request: Request): Reply {
    Response(200, Success(request.transactionId, true, Some(FinalStatus(request.kind)), Some(request.sequence + 1),
                          Some(request.sequence), true))
  }

  /** A transaction in doubt with nothing else going on. */
  predicate Stuck(c: Client) {
    c.state.Unknown? && c.queue == [] && c.inFlight.None? && !c.disposing && !c.disposed
  }

  lemma RetrySends(c: Client)
    requires FieldsFit(c) && Stuck(c)
    ensures var d := Admit(c, RetryPending);
            d.inFlight.None? && d.queue == [Retry] &&
            Start(d, false) == c.(trace := c.trace + [c.pending.value], inFlight := Some(Retry))
  {
  }

  function Retried(s: System): System
    requires s.client.pending.Some?
  {
    s.(client := s.client.(trace := s.client.trace + [s.client.pending.value], inFlight := Some(Retry)))
  }

  lemma RetryInv(s: System)
    requires Inv(s) && Stuck(s.client)
    ensures Inv(Retried(s)) && |s.client.trace| !in s.answers
  {
    SendsInv(s, Retried(s).client);
  }

  lemma RetrySteps(s: System)
    requires FieldsFit(s.client) && Stuck(s.client)
    ensures var s1 := Next(s, Invoke(RetryPending));
            Allowed(s1, StartNext(false)) && Next(s1, StartNext(false)) == Retried(s)
  {
    RetrySends(s.client);
  }

  lemma RetryConfirms(s: System)
    requires Inv(s) && s.client.inFlight == Some(Retry) && s.client.pending.Some?
    requires |s.client.trace| - 1 !in s.answers
    ensures var k, request := |s.client.trace| - 1, s.client.pending.value;
            MayProcess(s, k, true, Confirmed) && MayReceive(Processed(s, k, true, Confirmed), Confirmed) &&
            var t := Received(Processed(s, k, true, Confirmed), Confirmed);
            t.confirmed == s.confirmed + [request] && t.log == t.confirmed && t.client.pending.None? &&
            t.client.failure.None? && t.client.state == FinalStatus(request.kind)
  {
    var k := |s.client.trace| - 1;
    var u := Processed(s, k, true, Confirmed);
    assert s.client.trace[k] == s.client.pending.value;
    assert |s.log| == |s.confirmed| || s.log == s.confirmed + [s.client.pending.value];
    assert u.log == s.confirmed + [s.client.pending.value];
  }

  lemma ConfirmationConfirms(request: Request)
    ensures Classify(Confirmation(request), request, request.transactionId, request.sequence) == Confirmed
  {
  }

  /**
    * No doubt is final: from every reachable state in doubt, whatever the server had done, a
    * retry that gets through settles the command as confirmed and run exactly once.
    */
  lemma DoubtCanBeSettled(s: System)
    requires Reachable(s) && Stuck(s.client)
    ensures s.client.pending.Some?
    ensures var request := s.client.pending.value;
            var reply := Confirmation(request);
            var steps := [Invoke(RetryPending), StartNext(false), Process(|s.client.trace|, true, reply),
                Receive(reply)];
            exists t :: Runs(s, steps, t) && t.confirmed == s.confirmed + [request] && t.log == t.confirmed &&
                        t.client.pending.None? && t.client.failure.None? && t.client.state == FinalStatus(request.kind)
  {
    ReachableInv(s);
    var request, k := s.client.pending.value, |s.client.trace|;
    var reply := Confirmation(request);
    ConfirmationConfirms(request);
    RetrySteps(s);
    RetryInv(s);
    RetryConfirms(Retried(s));
    assert Retried(s).client.trace[k] == request;
    FourSteps(s, Invoke(RetryPending), StartNext(false), Process(k, true, reply), Receive(reply));
  }

  lemma FourSteps(s: System, a: Step, b: Step, c: Step, d: Step)
    requires Allowed(s, a) && Allowed(Next(s, a), b) && Allowed(Next(Next(s, a), b), c)
    requires Allowed(Next(Next(Next(s, a), b), c), d)
    ensures Runs(s, [a, b, c, d], Next(Next(Next(Next(s, a), b), c), d))
  {
    var s1 := Next(s, a);
    var s2 := Next(s1, b);
    var s3 := Next(s2, c);
    assert [a, b, c, d][1..] == [b, c, d] && [b, c, d][1..] == [c, d] && [c, d][1..] == [d] && [d][1..] == [];
    assert Runs(s3, [d], Next(s3, d));
    assert Runs(s2, [c, d], Next(s3, d));
    assert Runs(s1, [b, c, d], Next(s3, d));
  }
}
