/**
  * What a bound statement means: three-valued expressions over a row environment, and the list of
  * row environments that FROM, JOIN and WHERE produce. What comes after WHERE (grouping, windows,
  * ordering, truncation) is any function of those environments and of the projected values.
  */
module Semantics {
  import opened Core
  import opened Ir

  datatype Truth = True | False | Unknown {
    function And(other: Truth): Truth {
      if False? || other.False? then False
      else if True? && other.True? then True
      else Unknown
    }

    function Or(other: Truth): Truth {
      if True? || other.True? then True
      else if False? && other.False? then False
      else Unknown
    }

    function Not(): Truth {
      match this
      case True => False
      case False => True
      case Unknown => Unknown
    }
  }

  function BoolTruth(b: bool): Truth {
    if b then True else False
  }

  /** A row holds the cells of one resource by ordinal; an absent cell reads as NULL. */
  type Row = map<nat, LogicalValue>

  /** A row environment binds every resource in scope to one of its rows. */
  type Env = map<ResourceId, Row>

  type Database = map<ResourceId, seq<Row>>

  /**
    * The database's own operations that the compiler never looks inside. Every theorem holds for
    * all of them. `double` is what is read where a double was written out; `count` and `rowNumber`
    * stand for the aggregate and window results at one row.
    */
  datatype Engine = Engine(
    truth: LogicalValue -> Truth,
    compare: (BinaryOp, LogicalValue, LogicalValue) -> Truth,
    like: (LogicalValue, LogicalValue) -> Truth,
    glob: (LogicalValue, LogicalValue) -> Truth,
    least: (LogicalValue, LogicalValue) -> LogicalValue,
    concat: (LogicalValue, LogicalValue) -> LogicalValue,
    castText: LogicalValue -> LogicalValue,
    scalar: (ScalarFunction, seq<LogicalValue>) -> LogicalValue,
    double: Double -> LogicalValue,
    count: LogicalValue,
    rowNumber: (seq<LogicalValue>, seq<SortKey>) -> LogicalValue)

  /** A value to order by, and which way. */
  datatype SortKey = SortKey(value: LogicalValue, descending: bool)

  /** An evaluation context: the engine, the bound parameters, and the rows EXISTS reads. */
  datatype Ctx = Ctx(engine: Engine, params: Bindings, nested: Database)

  /** What the database reads where a value was written out in the statement. */
  function Written(engine: Engine, v: LogicalValue): LogicalValue {
    if v.Number? then engine.double(v.number) else v
  }

  function WrittenAll(engine: Engine, values: seq<LogicalValue>): seq<LogicalValue> {
    if values == [] then [] else [Written(engine, values[0])] + WrittenAll(engine, values[1..])
  }

  function TruthOf(engine: Engine, v: LogicalValue): Truth {
    match v
    case Null => Unknown
    case Boolean(b) => BoolTruth(b)
    case _ => engine.truth(v)
  }

  function OfTruth(t: Truth): LogicalValue {
    match t
    case True => Boolean(true)
    case False => Boolean(false)
    case Unknown => Null
  }

  /** A comparison with NULL is Unknown; everything else is the database's. */
  function Compare(engine: Engine, op: BinaryOp, l: LogicalValue, r: LogicalValue): Truth {
    if l.Null? || r.Null? then Unknown else engine.compare(op, l, r)
  }

  function ApplyBinary(engine: Engine, op: BinaryOp, l: LogicalValue, r: LogicalValue): LogicalValue {
    match op
    case And => OfTruth(TruthOf(engine, l).And(TruthOf(engine, r)))
    case Or => OfTruth(TruthOf(engine, l).Or(TruthOf(engine, r)))
    case Like => OfTruth(if l.Null? || r.Null? then Unknown else engine.like(l, r))
    case Glob => OfTruth(if l.Null? || r.Null? then Unknown else engine.glob(l, r))
    case Least =>
      if l.Null? || r.Null? then Null
      else if l.Int64? && r.Int64? then Int64(if l.integer <= r.integer then l.integer else r.integer)
      else engine.least(l, r)
    case Concat => if l.Null? || r.Null? then Null else engine.concat(l, r)
    case _ => OfTruth(Compare(engine, op, l, r))
  }

  function ApplyUnary(engine: Engine, op: UnaryOp, v: LogicalValue): LogicalValue {
    match op
    case Not => OfTruth(TruthOf(engine, v).Not())
    case IsNull => Boolean(v.Null?)
    case CastText => if v.Null? then Null else engine.castText(v)
  }

  /** `x IN (...)`: the disjunction of the equalities. */
  function AnyEqual(engine: Engine, x: LogicalValue, values: seq<LogicalValue>): Truth {
    if values == [] then False
    else Compare(engine, Equal, x, values[0]).Or(AnyEqual(engine, x, values[1..]))
  }

  function InValue(engine: Engine, x: LogicalValue, values: seq<LogicalValue>, negated: bool): LogicalValue {
    var found := AnyEqual(engine, x, values);
    OfTruth(if negated then found.Not() else found)
  }

  function RowOf(env: Env, resource: ResourceId): Row {
    if resource in env then env[resource] else map[]
  }

  function Cell(env: Env, id: ColumnId): LogicalValue {
    var row := RowOf(env, id.resource);
    if id.ordinal in row then row[id.ordinal] else Null
  }

  function Cells(env: Env, columns: seq<BoundColumn>): seq<LogicalValue> {
    seq(|columns|, i requires 0 <= i < |columns| => Cell(env, columns[i].id))
  }

  function BoundValue(params: Bindings, name: string): LogicalValue {
    if name in params then params[name] else Null
  }

  function Rows(db: Database, resource: ResourceId): seq<Row> {
    if resource in db then db[resource] else []
  }

  /** One environment per row of a source. */
  function Extend(env: Env, resource: ResourceId, rows: seq<Row>): seq<Env> {
    if rows == [] then [] else [env[resource := rows[0]]] + Extend(env, resource, rows[1..])
  }

  /** LIMIT and OFFSET: a negative limit is no bound, a negative offset skips nothing. */
  function Truncate<T>(items: seq<T>, limit: Option<LogicalValue>, offset: Option<LogicalValue>): seq<T> {
    var skipped :=
      match offset
      case Some(Int64(n)) => if n <= 0 then items else if n >= |items| then [] else items[n..]
      case _ => items;
    match limit
    case Some(Int64(n)) => if 0 <= n < |skipped| then skipped[..n] else skipped
    case _ => skipped
  }

  function Eval(c: Ctx, e: BoundExpr, env: Env): LogicalValue
    decreases e, 0
  {
    match e
    case Column(column) => Cell(env, column.id)
    case ClientParameter(name, _) => BoundValue(c.params, name)
    case ServerParameter(name, _) => BoundValue(c.params, name)
    case Literal(v) => Written(c.engine, v)
    case Binary(op, l, r) => ApplyBinary(c.engine, op, Eval(c, l, env), Eval(c, r, env))
    case Unary(op, x) => ApplyUnary(c.engine, op, Eval(c, x, env))
    case In(x, values, negated) => InValue(c.engine, Eval(c, x, env), EvalAll(c, values, env), negated)
    case Case(branches, otherwise, _) =>
      (match EvalBranches(c, branches, env)
       case Some(v) => v
       case None =>
         match otherwise
         case None => Null
         case Some(x) => Eval(c, x, env))
    case ConditionalOutput(value, visibleIf) =>
      if TruthOf(c.engine, Eval(c, visibleIf, env)) == True then Eval(c, value, env) else Null
    case Exists(s) =>
      Boolean(Truncate(SelectEnvs(c, s, c.nested, env),
                       EvalOption(c, s.limit, env), EvalOption(c, s.offset, env)) != [])
    case CountAll(_) => c.engine.count
    case Scalar(routine, arguments, _) => c.engine.scalar(routine, EvalAll(c, arguments, env))
    case RowNumber(_, partitionBy, orderBy) =>
      c.engine.rowNumber(Cells(env, partitionBy), EvalOrders(c, orderBy, env))
  }

  function EvalAll(c: Ctx, es: seq<BoundExpr>, env: Env): (vs: seq<LogicalValue>)
    ensures |vs| == |es|
    decreases es, 0
  {
    if es == [] then [] else [Eval(c, es[0], env)] + EvalAll(c, es[1..], env)
  }

  function EvalOrders(c: Ctx, orders: seq<BoundOrder>, env: Env): seq<SortKey>
    decreases orders, 0
  {
    if orders == [] then []
    else
      assert orders decreases to orders[0];
      [SortKey(Eval(c, orders[0].expression, env), orders[0].direction == Descending)] + EvalOrders(c, orders[1..], env)
  }

  function EvalOption(c: Ctx, e: Option<BoundExpr>, env: Env): Option<LogicalValue>
    decreases e, 0
  {
    match e
    case None => None
    case Some(x) => Some(Eval(c, x, env))
  }

  /** The value of the first branch whose condition is True, if any. */
  function EvalBranches(c: Ctx, branches: seq<Branch>, env: Env): Option<LogicalValue>
    decreases branches, 0
  {
    if branches == [] then None
    else
      assert branches decreases to branches[0];
      if TruthOf(c.engine, Eval(c, branches[0].condition, env)) == True then
        Some(Eval(c, branches[0].value, env))
      else
        EvalBranches(c, branches[1..], env)
  }

  predicate IsTrue(c: Ctx, e: BoundExpr, env: Env)
    decreases e, 1
  {
    TruthOf(c.engine, Eval(c, e, env)) == True
  }

  /** An optional condition: absent, it always passes. */
  predicate Satisfies(c: Ctx, filter: Option<BoundExpr>, env: Env) {
    match filter
    case None => true
    case Some(e) => IsTrue(c, e, env)
  }

  /** The environments in which a condition is True (not Unknown). */
  function Keep(c: Ctx, e: BoundExpr, envs: seq<Env>): seq<Env>
    decreases e, 2, |envs|
  {
    if envs == [] then []
    else (if IsTrue(c, e, envs[0]) then [envs[0]] else []) + Keep(c, e, envs[1..])
  }

  /** The test an environment passes, as a function. */
  function Passes(c: Ctx, filter: Option<BoundExpr>): Env -> bool {
    env => Satisfies(c, filter, env)
  }

  function Both<T>(p: T -> bool, q: T -> bool): T -> bool {
    x => p(x) && q(x)
  }

  /** The elements that satisfy a condition, in order. */
  function Pick<T>(items: seq<T>, p: T -> bool): seq<T> {
    if items == [] then [] else (if p(items[0]) then [items[0]] else []) + Pick(items[1..], p)
  }

  function Where(c: Ctx, filter: Option<BoundExpr>, envs: seq<Env>): seq<Env>
    decreases filter, 3
  {
    match filter
    case None => envs
    case Some(e) => Keep(c, e, envs)
  }

  /** A LEFT JOIN without a match keeps the environment and binds an all-NULL row. */
  function JoinEnv(c: Ctx, join: BoundJoin, source: Database, env: Env): seq<Env>
    decreases join, 3
  {
    var matched := Keep(c, join.on, Extend(env, join.resource, Rows(source, join.resource)));
    if join.kind == Left && matched == [] then [env[join.resource := map[]]] else matched
  }

  function JoinEach(c: Ctx, join: BoundJoin, source: Database, envs: seq<Env>): seq<Env>
    decreases join, 4, |envs|
  {
    if envs == [] then [] else JoinEnv(c, join, source, envs[0]) + JoinEach(c, join, source, envs[1..])
  }

  function JoinAll(c: Ctx, joins: seq<BoundJoin>, source: Database, envs: seq<Env>): seq<Env>
    decreases joins, 5
  {
    if joins == [] then envs else JoinAll(c, joins[1..], source, JoinEach(c, joins[0], source, envs))
  }

  /** The row environments of a select after FROM, JOIN and WHERE. */
  function SelectEnvs(c: Ctx, s: BoundSelect, source: Database, outer: Env): seq<Env>
    decreases s, 6
  {
    Where(c, s.filter, JoinAll(c, s.joins, source, Extend(outer, s.resource, Rows(source, s.resource))))
  }
}
