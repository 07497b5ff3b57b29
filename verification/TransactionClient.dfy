/** The transaction object: its methods change its fields as the module Transaction says. */
module TransactionClient {
  import opened Core
  import opened Protocol
  import opened Transaction

  class PolicySqlTransaction {
    const id: string
    const role: Option<string>
    var queue: seq<Work>
    var inFlight: Option<Work>
    var pending: Option<Request>
    var failure: Option<Cause>
    var state: Status
    var closing: Option<Kind>
    var sequence: nat
    var settled: bool
    var disposing: bool
    var disposed: bool
    ghost var trace: seq<Request>

    ghost function Value(): Client
      reads this
    {
      Client(id, role, queue, inFlight, pending, failure, state, closing, sequence, settled, disposing, disposed, trace)
    }

    constructor (id: string, role: Option<string>)
      ensures Value() == Open(id, role)
    {
      this.id, this.role := id, role;
      queue, inFlight, pending, failure, state := [], None, None, None, Active;
      closing, sequence, settled, disposing, disposed := None, 1, false, false, false;
      trace := [];
    }

    method Execute(item: string) returns (admitted: bool)
      modifies this
      ensures Value() == Admit(old(Value()), Call.Execute(item))
      ensures admitted <==> |queue| == |old(queue)| + 1
    {
      admitted := closing.None? && !disposed && !disposing;
      if admitted { queue := queue + [Run(item)]; }
    }

    method Terminal(kind: Kind) returns (admitted: bool)
      requires !kind.Statement?
      modifies this
      ensures Value() == Admit(old(Value()), Call.Terminal(kind))
      ensures admitted <==> |queue| == |old(queue)| + 1
    {
      if disposed || disposing { return false; }
      if closing.Some? && closing.value != kind { return false; }
      closing := Some(kind);
      queue := queue + [End(kind)];
      return true;
    }

    method RetryPending() returns (admitted: bool)
      modifies this
      ensures Value() == Admit(old(Value()), Call.RetryPending)
      ensures admitted <==> |queue| == |old(queue)| + 1
    {
      admitted := !disposed && !disposing;
      if admitted { queue := queue + [Retry]; }
    }

    method Dispose()
      modifies this
      ensures Value() == Admit(old(Value()), Call.Dispose)
    {
      if disposing { return; }
      disposing := true;
      queue := queue + [Cleanup];
    }

    /** The `catch` of a terminal call and the `finally` of disposal. */
    method Unwind(work: Work)
      modifies this
      ensures Value() == Transaction.Unwind(old(Value()), work)
    {
      match work
      case End(kind) =>
        if !(pending.Some? && pending.value.kind == kind) { closing := None; }
      case Cleanup =>
        disposed := true;
        settled := true;
      case _ =>
    }

    method Fail(cause: Cause)
      modifies this
      ensures Value() == Transaction.Fail(old(Value()), cause)
    {
      if failure.Some? { return; }
      failure := Some(cause);
      if cause.OutcomeUnknown? {
        state := Unknown;
      } else {
        pending := None;
        state := Failed;
        settled := true;
      }
    }

    method SendPending(work: Work, aborted: bool)
      requires pending.Some?
      modifies this
      ensures Value() == Transaction.SendPending(old(Value()), work, aborted)
    {
      if aborted {
        Fail(Aborted);
        Unwind(work);
        return;
      }
      trace := trace + [pending.value];
      inFlight := Some(work);
    }

    method Command(work: Work, kind: Kind, item: Option<string>, aborted: bool)
      modifies this
      ensures Value() == Transaction.Command(old(Value()), work, kind, item, aborted)
    {
      if pending.Some? || aborted {
        Unwind(work);
        return;
      }
      pending := Some(Request(kind, id, sequence, item, role));
      SendPending(work, aborted);
    }

    method Start(aborted: bool)
      requires queue != []
      modifies this
      ensures Value() == Transaction.Start(old(Value()), aborted)
    {
      var work := queue[0];
      queue := queue[1..];
      var active := failure.None? && !disposed && state.Active?;
      match work
      case Run(item) =>
        if active { Command(work, Statement, Some(item), aborted); }
      case End(kind) =>
        if state == FinalStatus(kind) { return; }
        if pending.Some? {
          if pending.value.kind == kind { SendPending(work, aborted); } else { Unwind(work); }
          return;
        }
        if active { Command(work, kind, None, aborted); } else { Unwind(work); }
      case Retry =>
        if pending.Some? && !disposed { SendPending(work, aborted); }
      case Cleanup =>
        if state.Active? && pending.None? && closing.None? {
          Command(work, Rollback, None, false);
        } else {
          Unwind(work);
        }
    }

    method Deliver(reply: Reply)
      requires inFlight.Some? && pending.Some?
      modifies this
      ensures Value() == Transaction.Deliver(old(Value()), reply)
    {
      var work, command := inFlight.value, pending.value;
      inFlight := None;
      match Classify(reply, command, id, sequence)
      case Confirmed =>
        state := FinalStatus(command.kind);
        sequence := sequence + 1;
        pending := None;
        failure := None;
        if !command.kind.Statement? { settled := true; }
        if work.Cleanup? { Unwind(work); }
      case Rejected(code) =>
        Fail(Refused(code));
        Unwind(work);
      case Uncertain =>
        Fail(OutcomeUnknown(command.kind, sequence));
        Unwind(work);
    }
  }
}
