/**
  * What a role may see: the rows its row filter makes True, with the columns it may read. Nothing
  * here mentions the compiler; the policy predicate is evaluated on its own.
  */
module View {
  import opened Core
  import opened Ir
  import opened Semantics
  import opened Policy

  /** The value of an operand at a row; a missing session entry has none. */
  function OperandValue(engine: Engine, operand: PolicyOperand, row: Row, session: TrustedSession): LogicalValue {
    match operand
    case Session(key) => if key in session.values then String(session.values[key]) else Null
    case Fixed(value) => Written(engine, value)
    case Sibling(column) => CellOf(row, column)
  }

  function CellOf(row: Row, column: BoundColumn): LogicalValue {
    if column.id.ordinal in row then row[column.id.ordinal] else Null
  }

  /** What a policy's comparison says of two values; with NULL it says nothing. */
  function ComparisonTruth(engine: Engine, operator: ComparisonOperator, l: LogicalValue, r: LogicalValue): Truth {
    if l.Null? || r.Null? then Unknown
    else
      match operator
      case Eq => engine.compare(Equal, l, r)
      case Neq => engine.compare(NotEqual, l, r)
      case Lt => engine.compare(Less, l, r)
      case Lte => engine.compare(LessEqual, l, r)
      case Gt => engine.compare(Greater, l, r)
      case Gte => engine.compare(GreaterEqual, l, r)
      case LikePattern => engine.like(l, r)
  }

  /** The three-valued meaning of a policy predicate at one row. */
  function PredicateTruth(engine: Engine, p: PolicyPredicate, row: Row, session: TrustedSession): Truth
    decreases p
  {
    match p
    case Comparison(column, operator, operand) =>
      ComparisonTruth(engine, operator, CellOf(row, column), OperandValue(engine, operand, row, session))
    case Membership(column, values, negated) =>
      var found := AnyEqual(engine, CellOf(row, column), WrittenAll(engine, values));
      if negated then found.Not() else found
    case NullTest(column, isNull) => BoolTruth(CellOf(row, column).Null? == isNull)
    case All(parts) => AllTruth(engine, parts, row, session)
    case Any(parts) => AnyTruth(engine, parts, row, session)
    case Negation(part) => PredicateTruth(engine, part, row, session).Not()
  }

  function AllTruth(engine: Engine, parts: seq<PolicyPredicate>, row: Row, session: TrustedSession): Truth
    decreases parts
  {
    if parts == [] then True
    else PredicateTruth(engine, parts[0], row, session).And(AllTruth(engine, parts[1..], row, session))
  }

  function AnyTruth(engine: Engine, parts: seq<PolicyPredicate>, row: Row, session: TrustedSession): Truth
    decreases parts
  {
    if parts == [] then False
    else PredicateTruth(engine, parts[0], row, session).Or(AnyTruth(engine, parts[1..], row, session))
  }

  /** Every column of the predicate belongs to the resource (activation resolves them there). */
  predicate Owned(p: PolicyPredicate, r: ResourceId) {
    match p
    case Comparison(column, _, operand) =>
      column.id.resource == r && (operand.Sibling? ==> operand.column.id.resource == r)
    case Membership(column, _, _) => column.id.resource == r
    case NullTest(column, _) => column.id.resource == r
    case All(parts) => forall part | part in parts :: Owned(part, r)
    case Any(parts) => forall part | part in parts :: Owned(part, r)
    case Negation(part) => Owned(part, r)
  }

  predicate PolicyOwned(policy: SelectPolicy, r: ResourceId) {
    && (forall column | column in policy.regular :: column.resource == r)
    && Owned(policy.rowFilter, r)
    && forall column | column in policy.conditional :: Owned(policy.conditional[column], r)
  }

  /** One role's view: the engine and session that decide, and the policy of each resource. */
  datatype RoleView = RoleView(engine: Engine, session: TrustedSession, policies: Selected) {

    predicate Valid() {
      forall r | r in policies :: PolicyOwned(policies[r], r)
    }

    predicate Shows(r: ResourceId, row: Row) {
      r in policies && PredicateTruth(engine, policies[r].rowFilter, row, session) == True
    }

    predicate Reveals(r: ResourceId, ordinal: nat, row: Row) {
      && r in policies
      && var column := ColumnId(r, ordinal);
         || column in policies[r].regular
         || (column in policies[r].conditional
             && PredicateTruth(engine, policies[r].conditional[column], row, session) == True)
    }

    /** The row with every column that is not revealed withheld, so that it reads as NULL. */
    function Redact(r: ResourceId, row: Row): Row {
      map ordinal | ordinal in row && Reveals(r, ordinal, row) :: row[ordinal]
    }

    function RowsOf(r: ResourceId, rows: seq<Row>): seq<Row> {
      if rows == [] then []
      else (if Shows(r, rows[0]) then [Redact(r, rows[0])] else []) + RowsOf(r, rows[1..])
    }

    /** The database the role sees. */
    function DatabaseOf(db: Database): Database {
      map r | r in db && r in policies :: RowsOf(r, db[r])
    }

    /** What EXISTS sees: a policy limit of zero leaves a nested resource without rows. */
    function NestedOf(db: Database): Database {
      map r | r in db && r in policies :: if policies[r].limit == Some(0) then [] else RowsOf(r, db[r])
    }

    /** Some resource has a limit of zero and a row that the role sees. */
    predicate HidesRows(db: Database) {
      exists r | r in db && r in policies :: policies[r].limit == Some(0) && RowsOf(r, db[r]) != []
    }

    function EnvOf(env: Env): Env {
      map r | r in env :: Redact(r, env[r])
    }

    function EnvsOf(envs: seq<Env>): seq<Env> {
      if envs == [] then [] else [EnvOf(envs[0])] + EnvsOf(envs[1..])
    }
  }
}
