/**
  * When a transaction takes further calls. A commit or rollback that was admitted closes it; one that
  * ended without being sent must open it again, lest an idle transaction refuse statements for ever.
  */
module Admission {
  import opened Core
  import opened Protocol
  import opened Transaction
  import opened ExactlyOnce
  import opened Provenance

  /** A closed transaction still has its ending to do, in flight or in doubt, or has ended so. */
  predicate ClosedByEnding(c: Client, kind: Kind) {
    || End(kind) in c.queue || c.inFlight == Some(End(kind))
    || (c.pending.Some? && c.pending.value.kind == kind) || c.state == FinalStatus(kind)
  }

  predicate ClosingFits(c: Client) {
    && (c.closing.Some? ==> !c.closing.value.Statement? && ClosedByEnding(c, c.closing.value))
    && (c.inFlight == Some(Retry) ==> c.failure.Some?)
    && (c.inFlight.Some? && c.inFlight.value.End? ==>
          !c.inFlight.value.kind.Statement? && c.pending.Some? && c.pending.value.kind == c.inFlight.value.kind)
    && (c.inFlight.Some? && c.inFlight.value.Run? ==> c.pending.Some? && c.pending.value.kind.Statement?)
    && (c.inFlight == Some(Cleanup) ==> c.closing.None?)
  }

  lemma AdmitClosing(c: Client, call: Call)
    requires ClosingFits(c) && QueueFits(c) && (call.Terminal? ==> !call.kind.Statement?)
    ensures ClosingFits(Admit(c, call))
  {
    var d := Admit(c, call);
    assert forall work :: work in c.queue ==> work in d.queue;
    if call.Terminal? && d != c {
      assert d.queue[|d.queue| - 1] == End(call.kind);
    }
  }

  lemma StartClosing(c: Client, aborted: bool)
    requires FieldsFit(c) && QueueFits(c) && ClosingFits(c) && c.inFlight.None? && c.queue != []
    ensures ClosingFits(Start(c, aborted))
  {
    var work, rest := c.queue[0], c.queue[1..];
    assert c.queue == [work] + rest;
    assert work.End? ==> !work.kind.Statement?;
  }

  lemma SettleClosing(c: Client, verdict: Verdict)
    requires FieldsFit(c) && ClosingFits(c) && c.inFlight.Some?
    ensures ClosingFits(Settle(c, verdict))
  {
  }

  lemma StepClosing(s: System, step: Step)
    requires Inv(s) && ClosingFits(s.client) && Allowed(s, step)
    ensures ClosingFits(Next(s, step).client)
  {
    match step
    case Invoke(call) => AdmitClosing(s.client, call);
    case StartNext(aborted) => StartClosing(s.client, aborted);
    case Process(_, _, _) =>
    case Receive(reply) =>
      SettleClosing(s.client, Classify(reply, s.client.pending.value, s.client.id, s.client.sequence));
  }

  lemma {:induction false} RunClosing(s: System, steps: seq<Step>, t: System)
    requires Inv(s) && ClosingFits(s.client) && Runs(s, steps, t)
    ensures ClosingFits(t.client)
    decreases |steps|
  {
    if steps != [] {
      StepInv(s, steps[0]);
      StepClosing(s, steps[0]);
      RunClosing(Next(s, steps[0]), steps[1..], t);
    }
  }

  /** Nothing waits, nothing is in flight, nothing is in doubt, and nobody disposes of the transaction. */
  predicate AtRest(c: Client) {
    c.state.Active? && c.queue == [] && c.inFlight.None? && c.pending.None? && !c.disposing && !c.disposed
  }

  /** In every reachable state at rest the transaction takes statements, commit and rollback. */
  lemma AtRestIsOpen(s: System, call: Call)
    requires Reachable(s) && AtRest(s.client) && (call.Terminal? ==> !call.kind.Statement?)
    ensures Accepted(s.client, call)
  {
    ReachableInv(s);
    var id, role, steps :| Runs(Begin(id, role), steps, s);
    BeginInv(id, role);
    RunClosing(Begin(id, role), steps, s);
  }
}
