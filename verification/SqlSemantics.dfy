/** What the emitted tree means over named tables, independently of resources and ordinals. */
module SqlSemantics {
  import opened Core
  import I = Ir
  import opened Semantics
  import opened Sql

  type NamedRow = map<string, LogicalValue>

  /** One row per table alias in scope. */
  type NamedEnv = map<string, NamedRow>

  /** `readFloat` reads a numeric token that is not a plain integer. */
  datatype SqlCtx = SqlCtx(
    engine: Engine, params: Bindings, tables: map<string, seq<NamedRow>>, readFloat: string -> LogicalValue)

  predicate AllDigits(text: string) {
    text != [] && forall i | 0 <= i < |text| :: '0' <= text[i] <= '9'
  }

  /** Digits alone are an integer if 64 bits hold it, the sign included. */
  predicate PlainInteger(text: string, negative: bool) {
    AllDigits(text) && DecimalValue(text) <= if negative then MAX_INT64 + 1 else MAX_INT64
  }

  /** A numeral, or a numeral under a minus sign, which together can be the least integer. */
  function ReadNumeral(c: SqlCtx, text: string, negative: bool): LogicalValue {
    if PlainInteger(text, negative) then
      var n: int := DecimalValue(text);
      Int64(if negative then -n else n)
    else if negative then Negate(c.readFloat(text))
    else c.readFloat(text)
  }

  function Negate(v: LogicalValue): LogicalValue {
    match v
    case Int64(n) => if n < -MAX_INT64 then Number(Finite(-(n as real))) else Int64(-n)
    case Number(Finite(x)) => Number(Finite(-x))
    case _ => Null
  }

  function Lookup(env: NamedEnv, alias: string, name: string): LogicalValue {
    if alias in env && name in env[alias] then env[alias][name] else Null
  }

  /** The bound operator an infix operator prints; IS has none. */
  function BoundOperator(op: Operator): I.BinaryOp
    requires op != IsOp
  {
    match op
    case Equals => I.Equal
    case NotEquals => I.NotEqual
    case LessThan => I.Less
    case LessEquals => I.LessEqual
    case GreaterThan => I.Greater
    case GreaterEquals => I.GreaterEqual
    case AndOp => I.And
    case OrOp => I.Or
    case ConcatOp => I.Concat
  }

  /** `l IS r`: equality that treats NULL as a value. */
  function IsValue(engine: Engine, l: LogicalValue, r: LogicalValue): LogicalValue {
    if l.Null? || r.Null? then Boolean(l.Null? && r.Null?) else OfTruth(Compare(engine, I.Equal, l, r))
  }

  function CallValue(engine: Engine, name: string, arguments: seq<LogicalValue>): LogicalValue {
    if name == "MIN" && |arguments| == 2 then ApplyBinary(engine, I.Least, arguments[0], arguments[1])
    else if name == "LOWER" then engine.scalar(I.Lower, arguments)
    else if name == "UPPER" then engine.scalar(I.Upper, arguments)
    else if name == "JSON_EXTRACT" then engine.scalar(I.JsonExtract, arguments)
    else Null
  }

  /** Nodes that the emitter never builds have no meaning here; they read as NULL. */
  function SqlEval(c: SqlCtx, x: Expr, env: NamedEnv): LogicalValue
    decreases x, 1
  {
    match x
    case Literal(NullToken) => Null
    case Literal(TrueToken) => Boolean(true)
    case Literal(FalseToken) => Boolean(false)
    case Literal(Numeric(text)) => ReadNumeral(c, text, false)
    case Id(name) => Lookup(env, "", name)
    case Qualified(table, name) => Lookup(env, table, name)
    case Variable(variable, _) => if variable == "" then Null else BoundValue(c.params, variable[1..])
    case Parenthesized(_) => SqlGroup(c, x, env)
    case Binary(_, _, _) => SqlInfix(c, x, env)
    case Unary(_, _) => SqlPrefix(c, x, env)
    case Cast(_) => SqlPrefix(c, x, env)
    case InList(_, _, _) => SqlIn(c, x, env)
    case Match(_, _, _, None) => SqlMatch(c, x, env)
    case Case(None, _, _) => SqlCase(c, x, env)
    case FunctionCall(_, _, _, _, _) => SqlCall(c, x, env)
    case FunctionCallStar("COUNT", Tail(None, NoWindow)) => c.engine.count
    case Exists(_) => SqlExists(c, x, env)
    case _ => Null
  }

  function SqlGroup(c: SqlCtx, x: Expr, env: NamedEnv): LogicalValue
    requires x.Parenthesized?
    decreases x, 0
  {
    if |x.elements| == 1 then SqlEval(c, x.elements[0], env) else Null
  }

  function SqlInfix(c: SqlCtx, x: Expr, env: NamedEnv): LogicalValue
    requires x.Binary?
    decreases x, 0
  {
    var l, r := SqlEval(c, x.left, env), SqlEval(c, x.right, env);
    if x.op == IsOp then IsValue(c.engine, l, r) else ApplyBinary(c.engine, BoundOperator(x.op), l, r)
  }

  function SqlPrefix(c: SqlCtx, x: Expr, env: NamedEnv): LogicalValue
    requires x.Unary? || x.Cast?
    decreases x, 0
  {
    var v := SqlEval(c, x.inner, env);
    if x.Cast? then ApplyUnary(c.engine, I.CastText, v)
    else if x.prefix == NotOp then ApplyUnary(c.engine, I.Not, v)
    else
      match x.inner
      case Literal(Numeric(text)) => ReadNumeral(c, text, true)
      case _ => Negate(v)
  }

  function SqlIn(c: SqlCtx, x: Expr, env: NamedEnv): LogicalValue
    requires x.InList?
    decreases x, 0
  {
    InValue(c.engine, SqlEval(c, x.left, env), SqlEvalAll(c, x.members, env), x.negated)
  }

  function SqlMatch(c: SqlCtx, x: Expr, env: NamedEnv): LogicalValue
    requires x.Match?
    decreases x, 0
  {
    ApplyBinary(c.engine, if x.matcher == LikeOp then I.Like else I.Glob, SqlEval(c, x.left, env),
        SqlEval(c, x.pattern, env))
  }

  function SqlCase(c: SqlCtx, x: Expr, env: NamedEnv): LogicalValue
    requires x.Case?
    decreases x, 0
  {
    match SqlEvalPairs(c, x.pairs, env)
    case Some(v) => v
    case None =>
      match x.otherwise
      case None => Null
      case Some(y) => SqlEval(c, y, env)
  }

  function SqlCall(c: SqlCtx, x: Expr, env: NamedEnv): LogicalValue
    requires x.FunctionCall?
    decreases x, 0
  {
    match x.tail.over
    case Window(partitionBy, orderBy, framed) =>
      assert x decreases to x.tail;
      assert x.tail decreases to x.tail.over;
      if x.function_name == "ROW_NUMBER" && x.arguments == [] && x.tail.filter.None? && !framed then
        c.engine.rowNumber(SqlEvalAll(c, partitionBy, env), SqlEvalOrders(c, orderBy, env))
      else Null
    case NoWindow =>
      if x.tail.filter.Some? then Null else CallValue(c.engine, x.function_name, SqlEvalAll(c, x.arguments, env))
    case NamedWindow => Null
  }

  function SqlExists(c: SqlCtx, x: Expr, env: NamedEnv): LogicalValue
    requires x.Exists?
    decreases x, 0
  {
    var query := x.query;
    Boolean(Truncate(QueryEnvs(c, query, env), LimitValue(c, query.limit, env), OffsetValue(c, query.limit, env)) != [])
  }

  function SqlEvalAll(c: SqlCtx, xs: seq<Expr>, env: NamedEnv): (vs: seq<LogicalValue>)
    ensures |vs| == |xs|
    decreases xs, 0
  {
    if xs == [] then [] else [SqlEval(c, xs[0], env)] + SqlEvalAll(c, xs[1..], env)
  }

  function SqlEvalOrders(c: SqlCtx, orders: seq<Sorted>, env: NamedEnv): seq<SortKey>
    decreases orders, 0
  {
    if orders == [] then []
    else
      assert orders decreases to orders[0];
      [SortKey(SqlEval(c, orders[0].expr, env), orders[0].descending)] + SqlEvalOrders(c, orders[1..], env)
  }

  function SqlEvalPairs(c: SqlCtx, pairs: seq<When>, env: NamedEnv): Option<LogicalValue>
    decreases pairs, 0
  {
    if pairs == [] then None
    else
      assert pairs decreases to pairs[0];
      if TruthOf(c.engine, SqlEval(c, pairs[0].condition, env)) == True then
        Some(SqlEval(c, pairs[0].value, env))
      else
        SqlEvalPairs(c, pairs[1..], env)
  }

  function SqlEvalOption(c: SqlCtx, x: Option<Expr>, env: NamedEnv): Option<LogicalValue>
    decreases x, 0
  {
    match x
    case None => None
    case Some(y) => Some(SqlEval(c, y, env))
  }

  function LimitValue(c: SqlCtx, limit: Option<Limit>, env: NamedEnv): Option<LogicalValue>
    decreases limit, 0
  {
    match limit
    case None => None
    case Some(l) =>
      assert limit decreases to l;
      Some(SqlEval(c, l.expr, env))
  }

  function OffsetValue(c: SqlCtx, limit: Option<Limit>, env: NamedEnv): Option<LogicalValue>
    decreases limit, 0
  {
    match limit
    case None => None
    case Some(l) =>
      assert limit decreases to l;
      SqlEvalOption(c, l.offset, env)
  }

  predicate SqlIsTrue(c: SqlCtx, x: Expr, env: NamedEnv)
    decreases x, 2
  {
    TruthOf(c.engine, SqlEval(c, x, env)) == True
  }

  function SqlKeep(c: SqlCtx, x: Expr, envs: seq<NamedEnv>): seq<NamedEnv>
    decreases x, 3, |envs|
  {
    if envs == [] then []
    else (if SqlIsTrue(c, x, envs[0]) then [envs[0]] else []) + SqlKeep(c, x, envs[1..])
  }

  function SqlWhere(c: SqlCtx, filter: Option<Expr>, envs: seq<NamedEnv>): seq<NamedEnv>
    decreases filter, 4
  {
    match filter
    case None => envs
    case Some(x) => SqlKeep(c, x, envs)
  }

  function TableRows(c: SqlCtx, source: string): seq<NamedRow> {
    if source in c.tables then c.tables[source] else []
  }

  function Bind(env: NamedEnv, alias: string, rows: seq<NamedRow>): seq<NamedEnv> {
    if rows == [] then [] else [env[alias := rows[0]]] + Bind(env, alias, rows[1..])
  }

  function SqlJoinEnv(c: SqlCtx, join: Join, env: NamedEnv): seq<NamedEnv>
    decreases join, 3
  {
    match join
    case Join(left, Named(source, alias), On(condition)) =>
      assert join decreases to join.constraint;
      assert join.constraint decreases to condition;
      var matched := SqlKeep(c, condition, Bind(env, alias, TableRows(c, source)));
      if left && matched == [] then [env[alias := map[]]] else matched
    case _ => []
  }

  function SqlJoinEach(c: SqlCtx, join: Join, envs: seq<NamedEnv>): seq<NamedEnv>
    decreases join, 4, |envs|
  {
    if envs == [] then [] else SqlJoinEnv(c, join, envs[0]) + SqlJoinEach(c, join, envs[1..])
  }

  function SqlJoinAll(c: SqlCtx, joins: seq<Join>, envs: seq<NamedEnv>): seq<NamedEnv>
    decreases joins, 5
  {
    if joins == [] then envs else SqlJoinAll(c, joins[1..], SqlJoinEach(c, joins[0], envs))
  }

  /** The row environments of a query after FROM, JOIN and WHERE. */
  function QueryEnvs(c: SqlCtx, q: Select, outer: NamedEnv): seq<NamedEnv>
    decreases q, 6
  {
    match q.body
    case Query(_, Some(From(Named(source, alias), joins)), filter, _, _) =>
      assert q decreases to q.body;
      assert q.body decreases to filter;
      assert q.body decreases to q.body.from;
      assert q.body.from decreases to q.body.from.value;
      assert q.body.from.value decreases to joins;
      SqlWhere(c, filter, SqlJoinAll(c, joins, Bind(outer, alias, TableRows(c, source))))
    case _ => []
  }

  // ----- What the result columns and the later clauses read -----

  function OutputValues(c: SqlCtx, columns: seq<ResultColumn>, env: NamedEnv): seq<LogicalValue> {
    if columns == [] then []
    else
      (match columns[0] case Output(x, _) => [SqlEval(c, x, env)] case Star => [])
      + OutputValues(c, columns[1..], env)
  }

  datatype SqlObservation = SqlObservation(
    outputs: seq<LogicalValue>, groups: seq<LogicalValue>, having: Option<LogicalValue>, keys: seq<SortKey>)

  function SqlObserve(c: SqlCtx, q: Select, env: NamedEnv): SqlObservation {
    match q.body
    case Query(columns, _, _, groupBy, _) =>
      SqlObservation(
        OutputValues(c, columns, env),
        match groupBy case None => [] case Some(g) => SqlEvalAll(c, g.exprs, env),
        match groupBy case None => None case Some(g) => SqlEvalOption(c, g.having, env),
        SqlEvalOrders(c, q.orderBy, env))
    case Values(_) => SqlObservation([], [], None, [])
  }

  function SqlObserveAll(c: SqlCtx, q: Select, envs: seq<NamedEnv>): seq<SqlObservation> {
    if envs == [] then [] else [SqlObserve(c, q, envs[0])] + SqlObserveAll(c, q, envs[1..])
  }

  function SqlAnswer(c: SqlCtx, q: Select): seq<SqlObservation> {
    SqlObserveAll(c, q, QueryEnvs(c, q, map[]))
  }
}
