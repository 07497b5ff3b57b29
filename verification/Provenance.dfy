/**
  * Where the requests of a transaction come from: each is one admitted call, in the order of the
  * calls, with that call's own text; and a transaction whose replies arrive runs all its calls.
  */
module Provenance {
  import opened Core
  import opened Protocol
  import opened Transaction
  import opened ExactlyOnce

  // ----- The admitted calls of a run -----

  /** A call that is not refused at once. */
  predicate Accepted(c: Client, call: Call) {
    match call
    case Execute(_) => c.closing.None? && !c.disposing && !c.disposed
    case Terminal(kind) => (c.closing.None? || c.closing == Some(kind)) && !c.disposing && !c.disposed
    case RetryPending => !c.disposing && !c.disposed
    case Dispose => !c.disposing
  }

  ghost function History(s: System, steps: seq<Step>): seq<Call>
    decreases |steps|
  {
    if steps == [] || !Allowed(s, steps[0]) then []
    else Admitted(s, steps[0]) + History(Next(s, steps[0]), steps[1..])
  }

  function Admitted(s: System, step: Step): seq<Call> {
    if step.Invoke? && Accepted(s.client, step.call) then [step.call] else []
  }

  /** The transport calls without repetitions of the same sequence number. */
  function FirstSends(trace: seq<Request>): seq<Request> {
    if trace == [] then []
    else
      var init, last := trace[..|trace| - 1], trace[|trace| - 1];
      if init != [] && init[|init| - 1].sequence == last.sequence then FirstSends(init) else FirstSends(init) + [last]
  }

  /** The request that a call stands for, under the object's identifier and role. */
  predicate Carries(call: Call, request: Request, id: string, role: Option<string>, sequence: nat) {
    match call
    case Execute(item) => request == Request(Statement, id, sequence, Some(item), role)
    case Terminal(kind) => request == Request(kind, id, sequence, None, role)
    case Dispose => request == Request(Rollback, id, sequence, None, role)
    case RetryPending => false
  }

  /** The requests are those of the calls at the positions `from`, in order, numbered from one. */
  ghost predicate ComeFrom(
    calls: seq<Call>, requests: seq<Request>, id: string, role: Option<string>, from: seq<nat>)
  {
    && |from| == |requests|
    && (forall i | 0 <= i < |from| :: from[i] < |calls| && Carries(calls[from[i]], requests[i], id, role, i + 1))
    && (forall i, j | 0 <= i < j < |from| :: from[i] < from[j])
  }

  // ----- The invariant -----

  predicate IsWork(work: Work, call: Call) {
    match call
    case Execute(item) => work == Run(item)
    case Terminal(kind) => work == End(kind)
    case RetryPending => work == Retry
    case Dispose => work == Cleanup
  }

  /** The queue is the part of the history that has not started. */
  ghost predicate QueueIsTail(c: Client, calls: seq<Call>) {
    && |c.queue| <= |calls|
    && forall i | 0 <= i < |c.queue| :: IsWork(c.queue[i], calls[|calls| - |c.queue| + i])
  }

  /** The last request sent has the current number or the one before. */
  predicate Numbered(c: Client) {
    if c.trace == [] then c.sequence == 1 && c.pending.None?
    else
      var last := c.trace[|c.trace| - 1];
      && c.sequence - 1 <= last.sequence <= c.sequence
      && (c.pending.Some? ==> last.sequence == c.sequence)
      && (last.sequence == c.sequence ==> c.pending.Some? || c.state.Failed?)
  }

  /** The numbers sent are consecutive from one. */
  predicate Consecutive(trace: seq<Request>) {
    trace != [] ==> trace[|trace| - 1].sequence == |FirstSends(trace)|
  }

  /** The requests sent come from calls that have started. */
  ghost predicate Sourced(
    trace: seq<Request>, calls: seq<Call>, started: nat, id: string, role: Option<string>, from: seq<nat>)
  {
    && Consecutive(trace) && ComeFrom(calls, FirstSends(trace), id, role, from)
    && forall i | 0 <= i < |from| :: from[i] < started
  }

  /** How many calls have started. */
  function Started(c: Client, calls: seq<Call>): nat {
    if |c.queue| <= |calls| then |calls| - |c.queue| else 0
  }

  ghost predicate Traced(c: Client, calls: seq<Call>, id: string, role: Option<string>) {
    && c.id == id && c.role == role && Numbered(c) && QueueIsTail(c, calls)
    && exists from: seq<nat> :: Sourced(c.trace, calls, Started(c, calls), id, role, from)
  }

  lemma Repeated(trace: seq<Request>, request: Request)
    requires trace != [] && trace[|trace| - 1].sequence == request.sequence
    ensures FirstSends(trace + [request]) == FirstSends(trace)
  {
    assert (trace + [request])[..|trace|] == trace;
  }

  lemma NewNumber(trace: seq<Request>, request: Request)
    requires trace == [] || trace[|trace| - 1].sequence != request.sequence
    ensures FirstSends(trace + [request]) == FirstSends(trace) + [request]
  {
    assert (trace + [request])[..|trace|] == trace;
  }

  /** More calls, and more of them started, keep what was sent. */
  lemma SourcedGrows(
    trace: seq<Request>, calls: seq<Call>, more: seq<Call>, started: nat, later: nat, id: string, role: Option<string>,
    from: seq<nat>)
    requires Sourced(trace, calls, started, id, role, from) && started <= later
    ensures Sourced(trace, calls + more, later, id, role, from)
  {
    forall i | 0 <= i < |from|
      ensures from[i] < |calls + more| && Carries((calls + more)[from[i]], FirstSends(trace)[i], id, role, i + 1)
    {
      assert (calls + more)[from[i]] == calls[from[i]];
    }
  }

  lemma AdmitQueue(c: Client, call: Call, calls: seq<Call>)
    requires QueueIsTail(c, calls)
    ensures var d := Admit(c, call);
            && QueueIsTail(d, if Accepted(c, call) then calls + [call] else calls)
            && d.queue == c.queue + d.queue[|c.queue|..] &&
                |d.queue| == |c.queue| + (if Accepted(c, call) then 1 else 0)
            && d.trace == c.trace && d.id == c.id && d.role == c.role && d.sequence == c.sequence
            && d.pending == c.pending && d.state == c.state
  {
    var d := Admit(c, call);
    if Accepted(c, call) {
      assert |d.queue| == |c.queue| + 1 && d.queue[..|c.queue|] == c.queue;
      forall i | 0 <= i < |d.queue|
        ensures IsWork(d.queue[i], (calls + [call])[|calls| + 1 - |d.queue| + i])
      {
        if i < |c.queue| {
          assert d.queue[i] == c.queue[i];
        }
      }
    }
  }

  lemma AdmitTraced(c: Client, call: Call, calls: seq<Call>, id: string, role: Option<string>)
    requires Traced(c, calls, id, role)
    ensures Traced(Admit(c, call), if Accepted(c, call) then calls + [call] else calls, id, role)
  {
    var d, more := Admit(c, call), if Accepted(c, call) then [call] else [];
    AdmitQueue(c, call, calls);
    var from: seq<nat> :| Sourced(c.trace, calls, Started(c, calls), id, role, from);
    SourcedGrows(c.trace, calls, more, |calls| - |c.queue|, |calls| - |c.queue|, id, role, from);
    assert calls + more == if Accepted(c, call) then calls + [call] else calls;
    assert Sourced(d.trace, calls + more, Started(d, calls + more), id, role, from);
  }

  /** What starting a work item sends: nothing, the pending request again, or the item's own request. */
  lemma StartSends(c: Client, aborted: bool)
    requires FieldsFit(c) && c.inFlight.None? && c.queue != []
    ensures var d := Start(c, aborted);
            && d.id == c.id && d.role == c.role && d.sequence == c.sequence && d.queue == c.queue[1..]
            && (|| (d.trace == c.trace && d.pending == c.pending && (c.state.Failed? ==> d.state.Failed?))
                || (c.pending.Some? && d.trace == c.trace + [c.pending.value] && d.pending == c.pending)
                || (&& c.pending.None? && c.state.Active? && d.pending.Some? && d.trace == c.trace + [d.pending.value]
                    && Own(c.queue[0], d.pending.value, c)))
  {
  }

  predicate Own(work: Work, request: Request, c: Client) {
    match work
    case Run(item) => request == Request(Statement, c.id, c.sequence, Some(item), c.role)
    case End(kind) => request == Request(kind, c.id, c.sequence, None, c.role)
    case Cleanup => request == Request(Rollback, c.id, c.sequence, None, c.role)
    case Retry => false
  }

  lemma StartTraced(c: Client, aborted: bool, calls: seq<Call>, id: string, role: Option<string>)
    requires FieldsFit(c) && c.inFlight.None? && c.queue != [] && Traced(c, calls, id, role)
    ensures Traced(Start(c, aborted), calls, id, role)
  {
    var d, p := Start(c, aborted), |calls| - |c.queue|;
    StartSends(c, aborted);
    assert forall i | 0 <= i < |d.queue| :: d.queue[i] == c.queue[i + 1];
    var from: seq<nat> :| Sourced(c.trace, calls, Started(c, calls), id, role, from);
    assert Started(d, calls) == p + 1;
    SourcedGrows(c.trace, calls, [], p, p + 1, id, role, from);
    assert calls + [] == calls;
    if d.trace == c.trace {
      assert Sourced(d.trace, calls, p + 1, id, role, from);
    } else if c.pending.Some? {
      Repeated(c.trace, c.pending.value);
      assert Sourced(d.trace, calls, p + 1, id, role, from);
    } else {
      assert IsWork(c.queue[0], calls[p]);
      StartedSourced(c, d.pending.value, calls, p, id, role, from);
      assert Sourced(d.trace, calls, p + 1, id, role, from + [p]);
    }
  }

  /** A request with a new number comes from the call that has just started. */
  lemma StartedSourced(
    c: Client, request: Request, calls: seq<Call>, p: nat, id: string, role: Option<string>, from: seq<nat>)
    requires Sourced(c.trace, calls, p, id, role, from) && p < |calls| && c.queue != [] && IsWork(c.queue[0], calls[p])
    requires Numbered(c) && c.pending.None? && c.state.Active? && Own(c.queue[0], request, c) && c.id == id
    requires c.role == role
    ensures Sourced(c.trace + [request], calls, p + 1, id, role, from + [p])
  {
    assert request.sequence == c.sequence;
    NewNumber(c.trace, request);
    assert |FirstSends(c.trace)| == c.sequence - 1;
  }

  lemma SettleTraced(c: Client, verdict: Verdict, calls: seq<Call>, id: string, role: Option<string>)
    requires FieldsFit(c) && c.inFlight.Some? && Traced(c, calls, id, role)
    ensures Traced(Settle(c, verdict), calls, id, role)
  {
    SettleKeeps(c, verdict);
    var d := Settle(c, verdict);
    var from: seq<nat> :| Sourced(c.trace, calls, Started(c, calls), id, role, from);
    assert Sourced(d.trace, calls, Started(d, calls), id, role, from);
  }

  lemma SettleKeeps(c: Client, verdict: Verdict)
    requires FieldsFit(c) && c.inFlight.Some? && Numbered(c)
    ensures var d := Settle(c, verdict);
            d.queue == c.queue && d.trace == c.trace && d.id == c.id && d.role == c.role && Numbered(d)
  {
  }

  lemma StepTraced(s: System, step: Step, calls: seq<Call>, id: string, role: Option<string>)
    requires Inv(s) && Allowed(s, step) && Traced(s.client, calls, id, role)
    ensures Traced(Next(s, step).client, calls + Admitted(s, step), id, role)
  {
    assert calls + [] == calls;
    match step
    case Invoke(call) => AdmitTraced(s.client, call, calls, id, role);
    case StartNext(aborted) => StartTraced(s.client, aborted, calls, id, role);
    case Process(_, _, _) =>
    case Receive(reply) =>
      SettleTraced(s.client, Classify(reply, s.client.pending.value, s.client.id, s.client.sequence), calls, id, role);
  }

  lemma {:induction false} RunTraced(
    s: System, steps: seq<Step>, t: System, calls: seq<Call>, id: string, role: Option<string>)
    requires Inv(s) && Runs(s, steps, t) && Traced(s.client, calls, id, role)
    ensures Traced(t.client, calls + History(s, steps), id, role)
    decreases |steps|
  {
    if steps == [] {
      assert calls + History(s, steps) == calls;
    } else {
      var head, rest := Admitted(s, steps[0]), History(Next(s, steps[0]), steps[1..]);
      StepInv(s, steps[0]);
      StepTraced(s, steps[0], calls, id, role);
      RunTraced(Next(s, steps[0]), steps[1..], t, calls + head, id, role);
      Regroup(calls, head, rest);
    }
  }

  lemma Regroup<T>(a: seq<T>, b: seq<T>, c: seq<T>)
    ensures (a + b) + c == a + (b + c)
  {
  }

  /**
    * In every run the requests that were sent, without repetitions, are those of admitted calls in
    * the order of the calls: each statement carries its own call's text, each ending its kind,
    * disposal a rollback, and all of them the object's identifier and role.
    */
  lemma RequestsFollowCalls(id: string, role: Option<string>, steps: seq<Step>, t: System)
    requires Runs(Begin(id, role), steps, t)
    ensures exists from: seq<nat> ::
              ComeFrom(History(Begin(id, role), steps), FirstSends(t.client.trace), id, role, from)
  {
    BeginInv(id, role);
    var calls := History(Begin(id, role), steps);
    assert Sourced([], [], Started(Begin(id, role).client, []), id, role, []);
    RunTraced(Begin(id, role), steps, t, [], id, role);
    assert [] + calls == calls;
    var from: seq<nat> :| Sourced(t.client.trace, calls, Started(t.client, calls), id, role, from);
  }

  // ----- A transaction whose replies arrive -----

  /** Nothing is going on and nothing is in doubt. */
  predicate Idle(s: System) {
    && s.client.state.Active? && s.client.queue == [] && s.client.inFlight.None? && s.client.pending.None?
    && s.client.failure.None? && s.client.closing.None? && !s.client.disposing && !s.client.disposed
    && s.log == s.confirmed && s.client.sequence == |s.log| + 1 && |s.client.trace| !in s.answers
  }

  /** The four steps of one call: it is made, sent, run, and its confirmation arrives. */
  function Exchange(s: System, call: Call, request: Request): seq<Step> {
    [Invoke(call), StartNext(false), Process(|s.client.trace|, true, Confirmation(request)),
        Receive(Confirmation(request))]
  }

  /** One call of an idle transaction, confirmed. */
  lemma CallCompletes(s: System, call: Call, request: Request)
    requires Inv(s) && Idle(s) && (call.Terminal? ==> !call.kind.Statement?)
    requires Carries(call, request, s.client.id, s.client.role, s.client.sequence)
    ensures exists t :: Runs(s, Exchange(s, call, request), t) && Inv(t) && t.log == s.log + [request]
                        && t.client.id == s.client.id && t.client.role == s.client.role
                        && t.client.state == FinalStatus(request.kind) && (call.Execute? ==> Idle(t))
                        && (call.Dispose? ==> t.client.disposed && t.client.settled)
  {
    var reply := Confirmation(request);
    var s1 := Next(s, Invoke(call));
    StepInv(s, Invoke(call));
    SentOnce(s, call, request);
    var s2 := Next(s1, StartNext(false));
    StepInv(s1, StartNext(false));
    ConfirmationConfirms(request);
    var process := Process(|s.client.trace|, true, reply);
    assert s2.client.trace[|s.client.trace|] == request;
    StepInv(s2, process);
    var s3 := Next(s2, process);
    StepInv(s3, Receive(reply));
    FourSteps(s, Invoke(call), StartNext(false), process, Receive(reply));
    ReceivedIdle(s3, request);
  }

  lemma SentOnce(s: System, call: Call, request: Request)
    requires Inv(s) && Idle(s) && (call.Terminal? ==> !call.kind.Statement?)
    requires Carries(call, request, s.client.id, s.client.role, s.client.sequence)
    ensures var s1 := Next(s, Invoke(call));
            && Allowed(s, Invoke(call)) && Allowed(s1, StartNext(false))
            && var c := Next(s1, StartNext(false)).client;
               && c.trace == s.client.trace + [request] && c.pending == Some(request) && c.inFlight.Some?
               && (c.inFlight.value.Cleanup? <==> call.Dispose?) && c.queue == [] && c.id == s.client.id &&
                   c.role == s.client.role
               && c.sequence == s.client.sequence && c.failure.None? && (c.disposing <==> call.Dispose?) && !c.disposed
               && (call.Execute? ==> c.closing.None?)
  {
  }

  lemma ReceivedIdle(s: System, request: Request)
    requires Inv(s) && MayReceive(s, Confirmed) && s.client.pending == Some(request) && s.client.inFlight.Some?
    requires s.log == s.confirmed + [request] && s.client.queue == [] && !s.client.disposed
    requires s.client.sequence == |s.confirmed| + 1 && (s.client.disposing <==> s.client.inFlight.value.Cleanup?)
    ensures var t := Received(s, Confirmed);
            && t.log == t.confirmed && t.client.state == FinalStatus(request.kind)
            && (request.kind.Statement? && s.client.closing.None? && !s.client.disposing ==> Idle(t))
            && (s.client.disposing ==> t.client.disposed && t.client.settled)
  {
    AnsweredWereSent(s);
  }

  lemma AnsweredWereSent(s: System)
    requires AnswersFit(s)
    ensures forall k | k in s.answers :: k < |s.client.trace|
  {
    forall k | k in s.answers
      ensures k < |s.client.trace|
    {
      assert AnswerFits(s, k);
    }
  }

  /** Disposing of an idle transaction rolls it back. */
  lemma DisposalRollsBack(s: System)
    requires Reachable(s) && Idle(s)
    ensures exists steps, t ::
            Runs(s, steps, t) && t.client.disposed && t.client.settled && t.client.state == RolledBack
                               && t.log == s.log + [Request(Rollback, s.client.id, s.client.sequence, None,
                                   s.client.role)]
  {
    ReachableInv(s);
    CallCompletes(s, Dispose, Request(Rollback, s.client.id, s.client.sequence, None, s.client.role));
  }

  function Statements(id: string, role: Option<string>, items: seq<string>): seq<Request> {
    if items == [] then []
    else
      var last := |items| - 1;
      Statements(id, role, items[..last]) + [Request(Statement, id, |items|, Some(items[last]), role)]
  }

  lemma {:induction false} RunsJoin(s: System, a: seq<Step>, t: System, b: seq<Step>, u: System)
    requires Runs(s, a, t) && Runs(t, b, u)
    ensures Runs(s, a + b, u)
    decreases |a|
  {
    if a == [] {
      assert a + b == b;
    } else {
      assert (a + b)[0] == a[0] && (a + b)[1..] == a[1..] + b;
      RunsJoin(Next(s, a[0]), a[1..], t, b, u);
    }
  }

  ghost predicate RanAll(id: string, role: Option<string>, items: seq<string>, t: System) {
    t.log == Statements(id, role, items) && t.client.id == id && t.client.role == role && Inv(t) && Idle(t)
  }

  lemma {:induction false} StatementsComplete(id: string, role: Option<string>, items: seq<string>)
    ensures exists steps, t :: Runs(Begin(id, role), steps, t) && RanAll(id, role, items, t)
    decreases |items|
  {
    if items == [] {
      BeginInv(id, role);
      assert Runs(Begin(id, role), [], Begin(id, role)) && RanAll(id, role, items, Begin(id, role));
    } else {
      var init := items[..|items| - 1];
      StatementsComplete(id, role, init);
      var steps, s :| Runs(Begin(id, role), steps, s) && RanAll(id, role, init, s);
      StatementsLength(id, role, init);
      OneMore(id, role, items, s);
      var more, t :| Runs(s, more, t) && RanAll(id, role, items, t);
      RunsJoin(Begin(id, role), steps, s, more, t);
    }
  }

  lemma OneMore(id: string, role: Option<string>, items: seq<string>, s: System)
    requires items != [] && RanAll(id, role, items[..|items| - 1], s)
    requires |Statements(id, role, items[..|items| - 1])| == |items| - 1
    ensures exists steps, t :: Runs(s, steps, t) && RanAll(id, role, items, t)
  {
    var item := items[|items| - 1];
    var request := Request(Statement, id, |items|, Some(item), role);
    CallCompletes(s, Execute(item), request);
    var t :| Runs(s, Exchange(s, Execute(item), request), t) && Inv(t) && t.log == s.log + [request]
             && t.client.id == s.client.id && t.client.role == s.client.role && Idle(t);
    assert RanAll(id, role, items, t);
  }

  lemma {:induction false} StatementsLength(id: string, role: Option<string>, items: seq<string>)
    ensures |Statements(id, role, items)| == |items|
    decreases |items|
  {
    if items != [] {
      StatementsLength(id, role, items[..|items| - 1]);
    }
  }

  /**
    * Any list of statements followed by a commit or rollback can be run to its end: the server
    * runs exactly these statements, in order and with their texts, and then the ending.
    */
  lemma TransactionCompletes(id: string, role: Option<string>, items: seq<string>, kind: Kind)
    requires !kind.Statement?
    ensures exists steps, t :: Runs(Begin(id, role), steps, t) && t.client.state == FinalStatus(kind)
                               && t.log == Statements(id, role, items) + [Request(kind, id, |items| + 1, None, role)]
  {
    StatementsComplete(id, role, items);
    StatementsLength(id, role, items);
    var steps, s :| Runs(Begin(id, role), steps, s) && RanAll(id, role, items, s);
    var request := Request(kind, id, |items| + 1, None, role);
    CallCompletes(s, Terminal(kind), request);
    var t :| Runs(s, Exchange(s, Terminal(kind), request), t) && t.log == s.log + [request]
             && t.client.state == FinalStatus(kind);
    RunsJoin(Begin(id, role), steps, s, Exchange(s, Terminal(kind), request), t);
  }
}
