/**
  * The declarative policy language and the rewrite of a bound statement into a protected one.
  * The rewrite threads the map of server values exactly as the compiler fills it.
  */
module Policy {
  import opened Core
  import opened Ir

  datatype ComparisonOperator = Eq | Neq | Lt | Lte | Gt | Gte | LikePattern

  datatype PolicyOperand = Session(key: string) | Fixed(value: LogicalValue) | Sibling(column: BoundColumn)

  datatype PolicyPredicate =
    | Comparison(column: BoundColumn, operator: ComparisonOperator, operand: PolicyOperand)
    | Membership(column: BoundColumn, values: seq<LogicalValue>, negated: bool)
    | NullTest(column: BoundColumn, isNull: bool)
    | All(parts: seq<PolicyPredicate>)
    | Any(parts: seq<PolicyPredicate>)
    | Negation(part: PolicyPredicate)

  datatype SelectPolicy = SelectPolicy(
    regular: set<ColumnId>,
    conditional: map<ColumnId, PolicyPredicate>,
    rowFilter: PolicyPredicate,
    limit: Option<nat>,
    allowAggregations: bool,
    allowWindows: bool)

  /** A server-owned value written to a column; the policy lists each column once. */
  datatype Preset = Preset(column: ColumnId, logicalType: LogicalType, operand: PolicyOperand)

  datatype InsertPolicy = InsertPolicy(
    columns: set<ColumnId>, presets: seq<Preset>, check: PolicyPredicate, returning: set<ColumnId>)

  datatype UpdatePolicy = UpdatePolicy(
    columns: set<ColumnId>, presets: seq<Preset>, rowFilter: PolicyPredicate,
    check: PolicyPredicate, returning: set<ColumnId>)

  datatype DeletePolicy = DeletePolicy(rowFilter: PolicyPredicate, returning: set<ColumnId>)

  datatype PolicyBundle = PolicyBundle(
    select: map<ResourceId, map<string, SelectPolicy>>,
    insert: map<ResourceId, map<string, InsertPolicy>>,
    update: map<ResourceId, map<string, UpdatePolicy>>,
    delete: map<ResourceId, map<string, DeletePolicy>>)

  datatype TrustedSession = TrustedSession(role: string, values: map<string, string>)

  datatype PolicyError =
    | MissingPolicy | ForbiddenColumn | ForbiddenColumnContext | UnsupportedCapability
    | MissingSessionValue | InvalidSessionKey | IncompatibleOperand | InvalidPredicate

  type Selected = map<ResourceId, SelectPolicy>

  /** An expression together with the server values bound so far. */
  type Rewritten = Result<(BoundExpr, Bindings), PolicyError>

  const SESSION_PREFIX := SERVER_PARAMETER_PREFIX + "session_"

  /** The policy of one role for a resource. */
  function RolePolicy<P>(
      policies: map<ResourceId, map<string, P>>, resource: ResourceId, role: string): Result<P, PolicyError> {
    if resource in policies && role in policies[resource] then Ok(policies[resource][role]) else Err(MissingPolicy)
  }

  // ----- Policy predicates become bound expressions -----

  function InstantiateOperand(
    operand: PolicyOperand, expected: LogicalType, session: TrustedSession, values: Bindings): Rewritten
  {
    match operand
    case Session(key) =>
      if expected != StringType then Err(IncompatibleOperand)
      else if key !in session.values then Err(MissingSessionValue)
      else if !CanonicalKey("session_" + key) then Err(InvalidSessionKey)
      else
        var name := SESSION_PREFIX + key;
        Ok((ServerParameter(name, StringType), values[name := String(session.values[key])]))
    case Fixed(value) => Ok((Literal(value), values))
    case Sibling(column) => Ok((Column(column), values))
  }

  function OperatorOf(operator: ComparisonOperator): BinaryOp {
    match operator
    case Eq => Equal
    case Neq => NotEqual
    case Lt => Less
    case Lte => LessEqual
    case Gt => Greater
    case Gte => GreaterEqual
    case LikePattern => Like
  }

  function Literals(values: seq<LogicalValue>): seq<BoundExpr> {
    seq(|values|, i requires 0 <= i < |values| => Literal(values[i]))
  }

  function Instantiate(p: PolicyPredicate, session: TrustedSession, values: Bindings): Rewritten
    decreases p
  {
    match p
    case Comparison(column, operator, operand) =>
      var (right, values') :- InstantiateOperand(operand, column.logicalType, session, values);
      Ok((Binary(OperatorOf(operator), Column(column), right), values'))
    case Membership(column, members, negated) => Ok((In(Column(column), Literals(members), negated), values))
    case NullTest(column, isNull) =>
      var test := Unary(IsNull, Column(column));
      Ok((if isNull then test else Unary(Not, test), values))
    case All(parts) => FoldLogical(parts, session, values, And)
    case Any(parts) => FoldLogical(parts, session, values, Or)
    case Negation(part) =>
      var (inner, values') :- Instantiate(part, session, values);
      Ok((Unary(Not, inner), values'))
  }

  function FoldLogical(
    parts: seq<PolicyPredicate>, session: TrustedSession, values: Bindings, op: BinaryOp): Rewritten
    decreases parts, 1
  {
    if parts == [] then Err(InvalidPredicate)
    else
      var (first, values') :- Instantiate(parts[0], session, values);
      FoldRest(first, parts[1..], session, values', op)
  }

  /** The remaining operands, associated to the left. */
  function FoldRest(
    output: BoundExpr, rest: seq<PolicyPredicate>, session: TrustedSession, values: Bindings, op: BinaryOp): Rewritten
    decreases rest, 0
  {
    if rest == [] then Ok((output, values))
    else
      var (next, values') :- Instantiate(rest[0], session, values);
      FoldRest(Binary(op, output, next), rest[1..], session, values', op)
  }

  // ----- Which columns a client expression may read -----

  function ValidateClient(e: BoundExpr, allowed: set<ColumnId>): Result<(), PolicyError>
    decreases e, 0
  {
    match e
    case Column(column) => if column.id in allowed then Ok(()) else Err(ForbiddenColumn)
    case ClientParameter(_, _) => Ok(())
    case ServerParameter(_, _) => Ok(())
    case Literal(_) => Ok(())
    case CountAll(_) => Ok(())
    case RowNumber(_, partitionBy, orderBy) =>
      if exists column | column in partitionBy :: column.id !in allowed then Err(ForbiddenColumn)
      else ValidateOrders(orderBy, allowed)
    case Scalar(_, arguments, _) => ValidateAll(arguments, allowed)
    case Binary(_, left, right) =>
      var _ :- ValidateClient(left, allowed);
      ValidateClient(right, allowed)
    case Unary(_, inner) => ValidateClient(inner, allowed)
    case In(expression, values, _) =>
      var _ :- ValidateClient(expression, allowed);
      ValidateAll(values, allowed)
    case ConditionalOutput(_, _) => Err(ForbiddenColumnContext)
    case Case(branches, otherwise, _) =>
      var _ :- ValidateBranches(branches, allowed);
      ValidateOption(otherwise, allowed)
    case Exists(select) =>
      assert e decreases to select;
      var _ :- ValidateProjections(select.projections, allowed);
      ValidateOption(select.filter, allowed)
  }

  function ValidateAll(es: seq<BoundExpr>, allowed: set<ColumnId>): Result<(), PolicyError>
    decreases es, 0
  {
    if es == [] then Ok(())
    else
      var _ :- ValidateClient(es[0], allowed);
      ValidateAll(es[1..], allowed)
  }

  function ValidateOption(e: Option<BoundExpr>, allowed: set<ColumnId>): Result<(), PolicyError>
    decreases e, 0
  {
    match e
    case None => Ok(())
    case Some(x) => ValidateClient(x, allowed)
  }

  function ValidateOrders(orders: seq<BoundOrder>, allowed: set<ColumnId>): Result<(), PolicyError>
    decreases orders, 0
  {
    if orders == [] then Ok(())
    else
      assert orders decreases to orders[0];
      var _ :- ValidateClient(orders[0].expression, allowed);
      ValidateOrders(orders[1..], allowed)
  }

  function ValidateProjections(projections: seq<BoundProjection>, allowed: set<ColumnId>): Result<(), PolicyError>
    decreases projections, 0
  {
    if projections == [] then Ok(())
    else
      assert projections decreases to projections[0];
      var _ :- ValidateClient(projections[0].expression, allowed);
      ValidateProjections(projections[1..], allowed)
  }

  function ValidateBranches(branches: seq<Branch>, allowed: set<ColumnId>): Result<(), PolicyError>
    decreases branches, 0
  {
    if branches == [] then Ok(())
    else
      assert branches decreases to branches[0];
      var _ :- ValidateClient(branches[0].condition, allowed);
      var _ :- ValidateClient(branches[0].value, allowed);
      ValidateBranches(branches[1..], allowed)
  }

  // ----- Row filters enter nested selects -----

  function AndOptional(current: Option<BoundExpr>, required: BoundExpr): BoundExpr {
    match current
    case None => required
    case Some(e) => Binary(And, e, required)
  }

  function PolicyBound(limit: nat): (bound: Integer64)
    ensures bound >= 0
  {
    if limit <= MAX_INT64 then limit else MAX_INT64
  }

  function LimitWith(client: Option<BoundExpr>, policyLimit: Option<nat>): Option<BoundExpr> {
    match policyLimit
    case None => client
    case Some(limit) =>
      var bound := PolicyBound(limit);
      match client
      case None => Some(Literal(Int64(bound)))
      case Some(Literal(Int64(n))) => Some(Literal(Int64(if n <= bound then n else bound)))
      case Some(e) => Some(Binary(Least, e, Literal(Int64(bound))))
  }

  function Protect(e: BoundExpr, selected: Selected, session: TrustedSession, values: Bindings): Rewritten
    decreases e, 0
  {
    match e
    case Exists(select) =>
      assert e decreases to select;
      var (inner, values') :- ProtectOption(select.filter, selected, session, values);
      if select.resource !in selected then Err(MissingPolicy)
      else
        var policy := selected[select.resource];
        var (rows, values'') :- Instantiate(policy.rowFilter, session, values');
        var filtered := select.(filter := Some(AndOptional(inner, rows)));
        Ok((Exists(filtered.(limit := LimitWith(filtered.limit, policy.limit))), values''))
    case Binary(op, left, right) =>
      var (left', values') :- Protect(left, selected, session, values);
      var (right', values'') :- Protect(right, selected, session, values');
      Ok((Binary(op, left', right'), values''))
    case ConditionalOutput(value, visibleIf) =>
      var (value', values') :- Protect(value, selected, session, values);
      var (visibleIf', values'') :- Protect(visibleIf, selected, session, values');
      Ok((ConditionalOutput(value', visibleIf'), values''))
    case Unary(op, inner) =>
      var (inner', values') :- Protect(inner, selected, session, values);
      Ok((Unary(op, inner'), values'))
    case Scalar(routine, arguments, logicalType) =>
      var (arguments', values') :- ProtectAll(arguments, selected, session, values);
      Ok((Scalar(routine, arguments', logicalType), values'))
    case In(expression, members, negated) =>
      var (expression', values') :- Protect(expression, selected, session, values);
      var (members', values'') :- ProtectAll(members, selected, session, values');
      Ok((In(expression', members', negated), values''))
    case Case(branches, otherwise, logicalType) =>
      var (branches', values') :- ProtectBranches(branches, selected, session, values);
      var (otherwise', values'') :- ProtectOption(otherwise, selected, session, values');
      Ok((Case(branches', otherwise', logicalType), values''))
    case Column(_) => Ok((e, values))
    case ClientParameter(_, _) => Ok((e, values))
    case ServerParameter(_, _) => Ok((e, values))
    case Literal(_) => Ok((e, values))
    case CountAll(_) => Ok((e, values))
    case RowNumber(_, _, _) => Ok((e, values))
  }

  function ProtectOption(
    e: Option<BoundExpr>, selected: Selected, session: TrustedSession, values: Bindings)
    : Result<(Option<BoundExpr>, Bindings), PolicyError>
    decreases e, 0
  {
    match e
    case None => Ok((None, values))
    case Some(x) =>
      var (x', values') :- Protect(x, selected, session, values);
      Ok((Some(x'), values'))
  }

  function ProtectAll(
    es: seq<BoundExpr>, selected: Selected, session: TrustedSession, values: Bindings)
    : Result<(seq<BoundExpr>, Bindings), PolicyError>
    decreases es, 0
  {
    if es == [] then Ok(([], values))
    else
      var (first, values') :- Protect(es[0], selected, session, values);
      var (rest, values'') :- ProtectAll(es[1..], selected, session, values');
      Ok(([first] + rest, values''))
  }

  function ProtectBranches(
    branches: seq<Branch>, selected: Selected, session: TrustedSession, values: Bindings)
    : Result<(seq<Branch>, Bindings), PolicyError>
    decreases branches, 0
  {
    if branches == [] then Ok(([], values))
    else
      assert branches decreases to branches[0];
      var (condition, values1) :- Protect(branches[0].condition, selected, session, values);
      var (value, values2) :- Protect(branches[0].value, selected, session, values1);
      var (rest, values3) :- ProtectBranches(branches[1..], selected, session, values2);
      Ok(([Branch(condition, value)] + rest, values3))
  }
}
