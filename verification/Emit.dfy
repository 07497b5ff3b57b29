/**
  * The emitter: a protected statement becomes a syntax tree; strings, bytes and JSON become fresh
  * server parameters, and every parameter name gets an index.
  */
module Emit {
  import opened Core
  import opened Ir
  import opened Alias
  import opened Results
  import Sql

  /** The catalog as the emitter reads it: a physical table and column names by ordinal. */
  datatype Resource = Resource(source: string, columns: map<nat, string>)

  /** What stays fixed during one emission; `numeral` prints a finite non-negative double. */
  datatype Emitter = Emitter(catalog: map<ResourceId, Resource>, aliases: Aliases, numeral: real -> string)

  datatype EmitState = EmitState(
    serverParameters: Bindings, nextLiteral: nat, parameterIndices: map<string, nat>, nextParameter: nat)

  datatype EmitError =
    | UnknownResource | UnknownColumn | MissingServerParameter | TooManyLiterals | UnsupportedValue | InvariantViolation

  type Emitted<T> = Result<(T, EmitState), EmitError>

  const LITERAL_PREFIX := SERVER_PARAMETER_PREFIX + "literal_"
  const MAX_LITERALS: nat := 0xFFFF_FFFF_FFFF_FFFF
  const MAX_PARAMETERS: nat := 0xFFFF_FFFF

  /** A placeholder: the index of its name, or the next one. */
  function EmitParameter(name: string, st: EmitState): Emitted<Sql.Expr> {
    var variable := ":" + name;
    if variable in st.parameterIndices then Ok((Sql.Variable(variable, st.parameterIndices[variable]), st))
    else if st.nextParameter >= MAX_PARAMETERS then Err(TooManyLiterals)
    else
      var index := st.nextParameter + 1;
      Ok((Sql.Variable(variable, index),
          st.(parameterIndices := st.parameterIndices[variable := index], nextParameter := index)))
  }

  function LiteralName(n: nat): string {
    LITERAL_PREFIX + Decimal(n)
  }

  /** Tries literal names in turn until one was not bound; binding a taken name replaces its value. */
  function FreshLiteral(value: LogicalValue, st: EmitState): Emitted<Sql.Expr>
    decreases MAX_LITERALS - st.nextLiteral
  {
    if st.nextLiteral >= MAX_LITERALS then Err(TooManyLiterals)
    else if !CanonicalKey("literal_" + Decimal(st.nextLiteral)) then Err(InvariantViolation)
    else
      var name := LiteralName(st.nextLiteral);
      var st' := st.(serverParameters := st.serverParameters[name := value], nextLiteral := st.nextLiteral + 1);
      if name in st.serverParameters then FreshLiteral(value, st') else EmitParameter(name, st')
  }

  function Negated(expr: Sql.Expr): Sql.Expr {
    Sql.Unary(Sql.Negative, expr)
  }

  function Numeral(text: string): Sql.Expr {
    Sql.Literal(Sql.Numeric(text))
  }

  function EmitLiteral(em: Emitter, value: LogicalValue, st: EmitState): Emitted<Sql.Expr> {
    match value
    case Null => Ok((Sql.Literal(Sql.NullToken), st))
    case Boolean(b) => Ok((Sql.Literal(if b then Sql.TrueToken else Sql.FalseToken), st))
    case Int64(n) => Ok((if n < 0 then Negated(Numeral(Decimal(-(n as int)))) else Numeral(Decimal(n)), st))
    case Number(Finite(x)) => Ok((if x < 0.0 then Negated(Numeral(em.numeral(-x))) else Numeral(em.numeral(x)), st))
    case Number(NonFinite) => Err(UnsupportedValue)
    case _ => FreshLiteral(value, st)
  }

  function EmitColumn(em: Emitter, id: ColumnId): Result<Sql.Expr, EmitError> {
    if id.resource !in em.catalog then Err(UnknownResource)
    else if id.ordinal !in em.catalog[id.resource].columns then Err(UnknownColumn)
    else if id.resource !in em.aliases then Err(UnknownResource)
    else
      var name := em.catalog[id.resource].columns[id.ordinal];
      Ok(if em.aliases[id.resource] == "" then Sql.Id(name) else Sql.Qualified(em.aliases[id.resource], name))
  }

  function EmitColumns(em: Emitter, columns: seq<BoundColumn>): Result<seq<Sql.Expr>, EmitError> {
    if columns == [] then Ok([])
    else
      var first :- EmitColumn(em, columns[0].id);
      var rest :- EmitColumns(em, columns[1..]);
      Ok([first] + rest)
  }

  function Wrapped(expr: Sql.Expr): Sql.Expr {
    Sql.Parenthesized([expr])
  }

  /** The infix operator that prints a bound one, if it has one. */
  function InfixOperator(op: BinaryOp): Option<Sql.Operator> {
    match op
    case Equal => Some(Sql.Equals)
    case NotEqual => Some(Sql.NotEquals)
    case Less => Some(Sql.LessThan)
    case LessEqual => Some(Sql.LessEquals)
    case Greater => Some(Sql.GreaterThan)
    case GreaterEqual => Some(Sql.GreaterEquals)
    case And => Some(Sql.AndOp)
    case Or => Some(Sql.OrOp)
    case Concat => Some(Sql.ConcatOp)
    case _ => None
  }

  function EmitBinary(op: BinaryOp, left: Sql.Expr, right: Sql.Expr): Sql.Expr {
    match InfixOperator(op)
    case Some(infix) => Wrapped(Sql.Binary(left, infix, right))
    case None =>
      if op == Least then Sql.Call("MIN", [left, right])
      else Wrapped(Sql.Match(left, if op == Like then Sql.LikeOp else Sql.GlobOp, right, None))
  }

  function EmitUnary(op: UnaryOp, inner: Sql.Expr): Sql.Expr {
    match op
    case Not => Wrapped(Sql.Unary(Sql.NotOp, inner))
    case IsNull => Wrapped(Sql.Binary(inner, Sql.IsOp, Sql.Literal(Sql.NullToken)))
    case CastText => Sql.Cast(inner)
  }

  function RoutineName(routine: ScalarFunction): string {
    match routine
    case Lower => "LOWER"
    case Upper => "UPPER"
    case JsonExtract => "JSON_EXTRACT"
  }

  function EmitExpr(em: Emitter, e: BoundExpr, st: EmitState): Emitted<Sql.Expr>
    decreases e, 0
  {
    match e
    case Column(column) =>
      var x :- EmitColumn(em, column.id);
      Ok((x, st))
    case ClientParameter(name, _) => EmitParameter(name, st)
    case ServerParameter(name, _) =>
      if name !in st.serverParameters then Err(MissingServerParameter) else EmitParameter(name, st)
    case Literal(value) => EmitLiteral(em, value, st)
    case Binary(op, left, right) =>
      var (x, st1) :- EmitExpr(em, left, st);
      var (y, st2) :- EmitExpr(em, right, st1);
      Ok((EmitBinary(op, x, y), st2))
    case Unary(op, inner) =>
      var (x, st1) :- EmitExpr(em, inner, st);
      Ok((EmitUnary(op, x), st1))
    case In(expression, values, negated) =>
      if values == [] then Err(InvariantViolation)
      else
        var (x, st1) :- EmitExpr(em, expression, st);
        var (members, st2) :- EmitAll(em, values, st1);
        Ok((Wrapped(Sql.InList(x, negated, members)), st2))
    case Case(branches, otherwise, _) =>
      var (pairs, st1) :- EmitBranches(em, branches, st);
      var (other, st2) :- EmitOption(em, otherwise, st1);
      Ok((Sql.Case(None, pairs, other), st2))
    case ConditionalOutput(value, visibleIf) =>
      var (condition, st1) :- EmitExpr(em, visibleIf, st);
      var (x, st2) :- EmitExpr(em, value, st1);
      Ok((Sql.Case(None, [Sql.When(condition, x)], Some(Sql.Literal(Sql.NullToken))), st2))
    case Exists(select) =>
      var (query, st1) :- EmitSelect(em, select, st);
      Ok((Sql.Exists(query), st1))
    case CountAll(_) => Ok((Sql.FunctionCallStar("COUNT", Sql.Tail(None, Sql.NoWindow)), st))
    case Scalar(routine, arguments, _) =>
      var (xs, st1) :- EmitAll(em, arguments, st);
      Ok((Sql.Call(RoutineName(routine), xs), st1))
    case RowNumber(_, partitionBy, orderBy) =>
      var partition :- EmitColumns(em, partitionBy);
      var (orders, st1) :- EmitOrders(em, orderBy, st);
      Ok((Sql.FunctionCall("ROW_NUMBER", [], [], [], Sql.Tail(None, Sql.Window(partition, orders, false))), st1))
  }

  function EmitAll(em: Emitter, es: seq<BoundExpr>, st: EmitState): Emitted<seq<Sql.Expr>>
    decreases es, 0
  {
    if es == [] then Ok(([], st))
    else
      var (first, st1) :- EmitExpr(em, es[0], st);
      var (rest, st2) :- EmitAll(em, es[1..], st1);
      Ok(([first] + rest, st2))
  }

  function EmitOption(em: Emitter, e: Option<BoundExpr>, st: EmitState): Emitted<Option<Sql.Expr>>
    decreases e, 0
  {
    match e
    case None => Ok((None, st))
    case Some(x) =>
      var (y, st1) :- EmitExpr(em, x, st);
      Ok((Some(y), st1))
  }

  function EmitBranches(em: Emitter, branches: seq<Branch>, st: EmitState): Emitted<seq<Sql.When>>
    decreases branches, 0
  {
    if branches == [] then Ok(([], st))
    else
      assert branches decreases to branches[0];
      var (condition, st1) :- EmitExpr(em, branches[0].condition, st);
      var (value, st2) :- EmitExpr(em, branches[0].value, st1);
      var (rest, st3) :- EmitBranches(em, branches[1..], st2);
      Ok(([Sql.When(condition, value)] + rest, st3))
  }

  function EmitOrders(em: Emitter, orders: seq<BoundOrder>, st: EmitState): Emitted<seq<Sql.Sorted>>
    decreases orders, 0
  {
    if orders == [] then Ok(([], st))
    else
      assert orders decreases to orders[0];
      var (first, st1) :- EmitExpr(em, orders[0].expression, st);
      var (rest, st2) :- EmitOrders(em, orders[1..], st1);
      Ok(([Sql.Sorted(first, orders[0].direction == Descending)] + rest, st2))
  }

  /** A projection, and its visibility companion if it is a conditional output. */
  function EmitProjections(
      em: Emitter, projections: seq<BoundProjection>, index: nat, st: EmitState): Emitted<seq<Sql.ResultColumn>>
    decreases projections, 0
  {
    if projections == [] then Ok(([], st))
    else
      assert projections decreases to projections[0];
      var e := projections[0].expression;
      var (x, st1) :- EmitExpr(em, e, st);
      var output := Sql.Output(x, projections[0].outputName);
      match e
      case ConditionalOutput(_, visibleIf) =>
        assert e decreases to visibleIf;
        var (condition, st2) :- EmitExpr(em, visibleIf, st1);
        var (rest, st3) :- EmitProjections(em, projections[1..], index + 1, st2);
        Ok(([output, Sql.Output(FlagOf(condition), VisibilityName(index))] + rest, st3))
      case _ =>
        var (rest, st2) :- EmitProjections(em, projections[1..], index + 1, st1);
        Ok(([output] + rest, st2))
  }

  /** CASE WHEN condition THEN TRUE ELSE FALSE END. */
  function FlagOf(condition: Sql.Expr): Sql.Expr {
    Sql.Case(None, [Sql.When(condition, Sql.Literal(Sql.TrueToken))], Some(Sql.Literal(Sql.FalseToken)))
  }

  function EmitJoins(em: Emitter, joins: seq<BoundJoin>, st: EmitState): Emitted<seq<Sql.Join>>
    decreases joins, 0
  {
    if joins == [] then Ok(([], st))
    else
      assert joins decreases to joins[0];
      var join := joins[0];
      if join.resource !in em.catalog || join.resource !in em.aliases then Err(UnknownResource)
      else
        var (on, st1) :- EmitExpr(em, join.on, st);
        var (rest, st2) :- EmitJoins(em, joins[1..], st1);
        var table := Sql.Named(em.catalog[join.resource].source, em.aliases[join.resource]);
        Ok(([Sql.Join(join.kind == Left, table, Sql.On(on))] + rest, st2))
  }

  function EmitGroupBy(
      em: Emitter, columns: seq<BoundColumn>, having: Option<BoundExpr>, st: EmitState): Emitted<Option<Sql.GroupBy>>
    decreases having, 1
  {
    if columns == [] && having.None? then Ok((None, st))
    else
      var exprs :- EmitColumns(em, columns);
      var (h, st1) :- EmitOption(em, having, st);
      Ok((Some(Sql.GroupBy(exprs, h)), st1))
  }

  function EmitSelect(em: Emitter, s: BoundSelect, st: EmitState): Emitted<Sql.Select>
    decreases s, 2
  {
    if s.resource !in em.catalog then Err(UnknownResource)
    else if s.projections == [] then Err(InvariantViolation)
    else if s.resource !in em.aliases then Err(UnknownResource)
    else
      var (joins, st1) :- EmitJoins(em, s.joins, st);
      var (groupBy, st2) :- EmitGroupBy(em, s.groupBy, s.having, st1);
      var (orderBy, st3) :- EmitOrders(em, s.orderBy, st2);
      if s.limit.None? && s.offset.Some? then Err(InvariantViolation)
      else
        var (limit, st4) :- EmitOption(em, s.limit, st3);
        var (offset, st5) :- EmitOption(em, s.offset, st4);
        var (columns, st6) :- EmitProjections(em, s.projections, 0, st5);
        var (filter, st7) :- EmitOption(em, s.filter, st6);
        var from := Sql.From(Sql.Named(em.catalog[s.resource].source, em.aliases[s.resource]), joins);
        Ok((Sql.Select([], Sql.Query(columns, Some(from), filter, groupBy, false), [], orderBy,
                       match limit case None => None case Some(l) => Some(Sql.Limit(l, offset))),
            st7))
  }

  /** The start of an emission: the plan's server values, no literal and no index allocated. */
  function Start(serverValues: Bindings): EmitState {
    EmitState(serverValues, 0, map[], 0)
  }
}
