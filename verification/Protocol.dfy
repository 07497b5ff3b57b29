/**
  * How the client library reads one transport reply: packages/client/protocol.js.
  * Every reply is exactly one of a confirmation of the command it answers, a
  * documented rejection of it, or no evidence at all about what the server did.
  */
module Protocol {
  import opened Core

  /** The error codes of the public status table, and any other code text. */
  datatype Code =
    | Unauthenticated | AuthenticationFailed | ForbiddenAccess | MissingPolicy | ForbiddenOperation
    | ForbiddenColumn | ForbiddenColumnContext | PresetColumn | TransactionModeViolation
    | InvalidRequest | JsonTooDeep | InvalidSql | MultipleStatements | UnsupportedSql
    | DuplicateResultColumn | InvalidParameter | AmbiguousParameterType | ReservedParameter
    | IdempotencyKeyInvalid | SqlTooComplex | StaleOperation | IdempotencyConflict
    | TransactionConflict | TransactionUnavailable | CommitCheckRejected | LimitExceeded
    | RequestTooLarge | TransactionLimitExceeded | ExpectationFailed | SchemaMismatch
    | Undocumented(text: string)

  datatype Kind = Statement | Commit | Rollback

  /** A transport request; the body is the serialized sequence number and statement. */
  datatype Request = Request(kind: Kind, transactionId: string, sequence: nat, item: Option<string>,
      role: Option<string>)

  datatype Status = Active | Committed | RolledBack | Unknown | Failed

  /** What a response body carries, as far as the validators look at it. */
  datatype Body =
    | NotAnObject
    | Success(transactionId: string, metaIsObject: bool, status: Option<Status>, nextSequence: Option<int>,
              resultSequence: Option<int>, resultIsValid: bool)
    | Failure(code: Code, wellFormed: bool)

  /** What a transport call ends with: an exception, or a response with a status and a body. */
  datatype Reply = Thrown | Response(httpStatus: int, body: Body)

  datatype Verdict = Confirmed | Rejected(code: Code) | Uncertain

  /** The table of documented codes, each with its one status. */
  function DocumentedStatus(code: Code): Option<int> {
    match code
    case Unauthenticated | AuthenticationFailed => Some(401)
    case ForbiddenAccess | MissingPolicy | ForbiddenOperation | ForbiddenColumn
       | ForbiddenColumnContext | PresetColumn | TransactionModeViolation => Some(403)
    case InvalidRequest | JsonTooDeep | InvalidSql | MultipleStatements | UnsupportedSql
       | DuplicateResultColumn | InvalidParameter | AmbiguousParameterType | ReservedParameter
       | IdempotencyKeyInvalid | SqlTooComplex => Some(400)
    case StaleOperation | IdempotencyConflict | TransactionConflict | TransactionUnavailable
       | CommitCheckRejected => Some(409)
    case LimitExceeded | RequestTooLarge | TransactionLimitExceeded => Some(413)
    case ExpectationFailed | SchemaMismatch => Some(422)
    case Undocumented(_) => None
  }

  /** Codes about the statement's own text and parameters. */
  predicate IsSqlRejection(code: Code) {
    match code
    case MissingPolicy | ForbiddenOperation | ForbiddenColumn | ForbiddenColumnContext
       | InvalidSql | MultipleStatements | UnsupportedSql | DuplicateResultColumn | InvalidParameter
       | AmbiguousParameterType | ReservedParameter | PresetColumn | ExpectationFailed | SchemaMismatch
       | SqlTooComplex => true
    case _ => false
  }

  /** Codes that start with TRANSACTION_. */
  predicate IsTransactionCode(code: Code) {
    code.TransactionModeViolation? || code.TransactionConflict? || code.TransactionUnavailable?
    || code.TransactionLimitExceeded?
  }

  /** Every command the transport carries: the start of a transaction, an atomic batch, or a command inside one. */
  datatype Command = OpenTransaction | OneShot | Interactive(kind: Kind)

  /** Whether a documented code and status pair establishes that the command was refused. */
  predicate RejectsCommand(httpStatus: int, code: Code, command: Command) {
    if DocumentedStatus(code) != Some(httpStatus) then false
    else if IsSqlRejection(code) then command.OneShot? || command == Interactive(Statement)
    else if code == IdempotencyConflict then command.OneShot?
    else if code == IdempotencyKeyInvalid then command.OneShot?
    else if code == CommitCheckRejected then command.OneShot? || command == Interactive(Commit)
    else if code == TransactionModeViolation then command == Interactive(Statement)
    else if code == TransactionLimitExceeded then command == Interactive(Statement)
    else if IsTransactionCode(code) then !command.OpenTransaction?
    else true
  }

  function FinalStatus(kind: Kind): Status {
    match kind
    case Statement => Active
    case Commit => Committed
    case Rollback => RolledBack
  }

  /** The validation of a successful body: the right transaction, status and sequence numbers. */
  predicate Validates(body: Body, request: Request, id: string, sequence: nat) {
    body.Success? && body.transactionId == id && body.metaIsObject &&
    body.status == Some(FinalStatus(request.kind)) &&
    (request.kind.Statement? ==>
       body.nextSequence == Some(sequence + 1) && body.resultSequence == Some(sequence) && body.resultIsValid)
  }

  /** Reading a reply, refusing it or accepting it as the answer of `request`. */
  function Classify(reply: Reply, request: Request, id: string, sequence: nat): Verdict {
    if reply.Thrown? || reply.httpStatus < 100 || reply.httpStatus > 599 || reply.body.NotAnObject? then Uncertain
    else if 200 <= reply.httpStatus < 300 then
      if reply.httpStatus == 200 && Validates(reply.body, request, id, sequence) then Confirmed else Uncertain
    else if !reply.body.Failure? || !reply.body.wellFormed then Uncertain
    else
      var code := reply.body.code;
      if RejectsCommand(reply.httpStatus, code, Interactive(request.kind)) then Rejected(code) else Uncertain
  }

  /** The codes that can refuse a rollback, with their status: no other reply proves anything about it. */
  function RefusesRollback(code: Code): Option<int> {
    match code
    case Unauthenticated | AuthenticationFailed => Some(401)
    case ForbiddenAccess => Some(403)
    case InvalidRequest | JsonTooDeep => Some(400)
    case StaleOperation | TransactionConflict | TransactionUnavailable => Some(409)
    case LimitExceeded | RequestTooLarge => Some(413)
    case _ => None
  }

  /** The whole table, read by command: what each kind of command can be refused with. */
  lemma RejectionTable(httpStatus: int, code: Code)
    ensures RejectsCommand(httpStatus, code, OpenTransaction) <==>
            RefusesRollback(code) == Some(httpStatus) && !IsTransactionCode(code)
    ensures RejectsCommand(httpStatus, code, Interactive(Rollback)) <==> RefusesRollback(code) == Some(httpStatus)
    ensures RejectsCommand(httpStatus, code, Interactive(Commit)) <==>
            RefusesRollback(code) == Some(httpStatus) || (httpStatus == 409 && code == CommitCheckRejected)
    ensures RejectsCommand(httpStatus, code, Interactive(Statement)) <==>
            DocumentedStatus(code) == Some(httpStatus) &&
            !code.IdempotencyConflict? && !code.IdempotencyKeyInvalid? && !code.CommitCheckRejected?
    ensures RejectsCommand(httpStatus, code, OneShot) <==>
            DocumentedStatus(code) == Some(httpStatus) &&
            !code.TransactionModeViolation? && !code.TransactionLimitExceeded?
  {
  }

  // ---- What a reply proves.

  /** The honest success of a request: its transaction, the state it leaves, and for a statement its own number. */
  function HonestAnswer(request: Request, body: Body): Body {
    match request.kind
    case Statement =>
      Success(request.transactionId, true, Some(Active), Some(request.sequence + 1), Some(request.sequence), true)
    case Commit => Success(request.transactionId, true, Some(Committed), NextOf(body), ResultOf(body), ValidOf(body))
    case Rollback => Success(request.transactionId, true, Some(RolledBack), NextOf(body), ResultOf(body), ValidOf(body))
  }

  // The parts of a body that the end of a transaction leaves open.

  function NextOf(body: Body): Option<int> {
    if body.Success? then body.nextSequence else None
  }

  function ResultOf(body: Body): Option<int> {
    if body.Success? then body.resultSequence else None
  }

  predicate ValidOf(body: Body) {
    body.Success? && body.resultIsValid
  }

  /** A command is confirmed by its honest answer with status 200, and by nothing else. */
  lemma ConfirmedExactly(reply: Reply, request: Request)
    ensures Classify(reply, request, request.transactionId, request.sequence) == Confirmed
       <==> reply.Response? && reply == Response(200, HonestAnswer(request, reply.body))
  {
  }

  /**
    * So the honest answer of one request confirms another exactly if both are the same command of the
    * same transaction, and for statements the same one.
    */
  lemma AnswerOfAnother(first: Request, second: Request, body: Body)
    ensures Classify(
              Response(200, HonestAnswer(first, body)), second, second.transactionId, second.sequence) == Confirmed
       <==> (&& first.transactionId == second.transactionId && first.kind == second.kind
             && (first.kind.Statement? ==> first.sequence == second.sequence))
  {
  }

  /** A command is refused by a well-formed failure whose code and status can refuse it, and by nothing else. */
  lemma RejectedExactly(reply: Reply, request: Request, id: string, sequence: nat, code: Code)
    ensures Classify(reply, request, id, sequence) == Rejected(code)
       <==> && reply.Response? && reply.body == Failure(code, true)
            && match request.kind
               case Statement =>
                 DocumentedStatus(code) == Some(reply.httpStatus)
                 && code !in {IdempotencyConflict, IdempotencyKeyInvalid, CommitCheckRejected}
               case Commit =>
                 RefusesRollback(code) == Some(reply.httpStatus)
                 || (reply.httpStatus == 409 && code == CommitCheckRejected)
               case Rollback => RefusesRollback(code) == Some(reply.httpStatus)
  {
    if reply.Response? {
      RejectionTable(reply.httpStatus, code);
    }
  }
}
