/**
  * The interactive transaction client of packages/client/transaction.js: admitted
  * calls wait in a queue and run one at a time, each up to its transport call and
  * then on from the reply. The record `Client` holds the object's private fields;
  * `trace` is the history of all transport calls it made.
  */
module Transaction {
  import opened Core
  import opened Protocol

  /** A call that was admitted and waits for its turn. */
  datatype Work = Run(item: string) | End(kind: Kind) | Retry | Cleanup

  datatype Cause = OutcomeUnknown(kind: Kind, sequence: nat) | Refused(code: Code) | Aborted

  datatype Client = Client(
    id: string,
    role: Option<string>,
    queue: seq<Work>,
    inFlight: Option<Work>,
    pending: Option<Request>,
    failure: Option<Cause>,
    state: Status,
    closing: Option<Kind>,
    sequence: nat,
    settled: bool,
    disposing: bool,
    disposed: bool,
    trace: seq<Request>)

  datatype Call = Execute(item: string) | Terminal(kind: Kind) | RetryPending | Dispose

  function Open(id: string, role: Option<string>): Client {
    Client(id, role, [], None, None, None, Active, None, 1, false, false, false, [])
  }

  /** A call of the public interface: refused at once, or put in the queue. */
  function Admit(c: Client, call: Call): Client {
    match call
    case Execute(item) =>
      if c.closing.Some? || c.disposed || c.disposing then c else c.(queue := c.queue + [Run(item)])
    case Terminal(kind) =>
      if c.disposed || c.disposing || c.closing !in {None, Some(kind)} then c
      else c.(closing := Some(kind), queue := c.queue + [End(kind)])
    case RetryPending =>
      if c.disposed || c.disposing then c else c.(queue := c.queue + [Retry])
    case Dispose =>
      if c.disposing then c else c.(disposing := true, queue := c.queue + [Cleanup])
  }

  predicate IsActive(c: Client) {
    c.failure.None? && !c.disposed && c.state.Active?
  }

  /** The handlers that run when a work item ends with an error. */
  function Unwind(c: Client, work: Work): Client {
    match work
    case End(kind) => if c.pending.Some? && c.pending.value.kind == kind then c else c.(closing := None)
    case Cleanup => c.(disposed := true, settled := true)
    case _ => c
  }

  /** A failed attempt: an earlier doubt stays, a new doubt freezes the command, a refusal ends the transaction. */
  function Fail(c: Client, cause: Cause): Client {
    if c.failure.Some? then c
    else if cause.OutcomeUnknown? then c.(failure := Some(cause), state := Unknown)
    else c.(pending := None, failure := Some(cause), state := Failed, settled := true)
  }

  function SendPending(c: Client, work: Work, aborted: bool): Client
    requires c.pending.Some?
  {
    if aborted then Unwind(Fail(c, Aborted), work)
    else c.(trace := c.trace + [c.pending.value], inFlight := Some(work))
  }

  function Command(c: Client, work: Work, kind: Kind, item: Option<string>, aborted: bool): Client {
    if c.pending.Some? || aborted then Unwind(c, work)
    else SendPending(c.(pending := Some(Request(kind, c.id, c.sequence, item, c.role))), work, aborted)
  }

  /** The head of the queue runs until it sends a request or ends. */
  function Start(c: Client, aborted: bool): Client
    requires c.queue != []
  {
    var work := c.queue[0];
    var c := c.(queue := c.queue[1..]);
    match work
    case Run(item) =>
      if IsActive(c) then Command(c, work, Statement, Some(item), aborted) else c
    case End(kind) =>
      if c.state == FinalStatus(kind) then c
      else if c.pending.Some? then
        if c.pending.value.kind == kind then SendPending(c, work, aborted) else Unwind(c, work)
      else if IsActive(c) then Command(c, work, kind, None, aborted)
      else Unwind(c, work)
    case Retry =>
      if c.pending.Some? && !c.disposed then SendPending(c, work, aborted) else c
    case Cleanup =>
      if c.state.Active? && c.pending.None? && c.closing.None? then Command(c, work, Rollback, None, false)
      else Unwind(c, work)
  }

  /** The reply of the transport call in flight arrives. */
  function Deliver(c: Client, reply: Reply): Client
    requires c.inFlight.Some? && c.pending.Some?
  {
    Settle(c, Classify(reply, c.pending.value, c.id, c.sequence))
  }

  function Settle(c: Client, verdict: Verdict): Client
    requires c.inFlight.Some? && c.pending.Some?
  {
    var work, pending := c.inFlight.value, c.pending.value;
    var c := c.(inFlight := None);
    match verdict
    case Confirmed =>
      var done := c.(state := FinalStatus(pending.kind), sequence := c.sequence + 1, pending := None, failure := None,
                     settled := c.settled || !pending.kind.Statement?);
      if work.Cleanup? then done.(disposed := true, settled := true) else done
    case Rejected(code) => Unwind(Fail(c, Refused(code)), work)
    case Uncertain => Unwind(Fail(c, OutcomeUnknown(pending.kind, c.sequence)), work)
  }
}
