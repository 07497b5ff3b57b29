/**
  * The query language before binding: names instead of identities, derived tables and CTEs as
  * sources. Its meaning is given on named rows: a derived table is projected, filtered and then
  * read like a table, and a name means the innermost source that has it.
  */
module Surface {
  import opened Core
  import opened Text
  import I = Ir
  import opened Semantics

  datatype Expr =
    | Name(qualifier: Option<string>, name: string)
    | Constant(value: LogicalValue)
    | Parameter(name: string, logicalType: LogicalType)
    | Infix(op: I.BinaryOp, left: Expr, right: Expr)
    | Prefix(unary: I.UnaryOp, inner: Expr)
    | Among(expression: Expr, values: seq<Expr>, negated: bool)
    | Call(routine: I.ScalarFunction, arguments: seq<Expr>, logicalType: LogicalType)
    | Choice(arms: seq<Arm>, otherwise: Option<Expr>, logicalType: LogicalType)
    | CountStar()
    | Ranked(partitionBy: seq<Expr>, orderBy: seq<Order>)
    | ExistsIn(table: string, alias: Option<string>, filter: Option<Expr>)

  /** WHEN condition THEN value. */
  datatype Arm = Arm(condition: Expr, value: Expr)

  /** One term of ORDER BY. */
  datatype Order = Order(expression: Expr, descending: bool)

  datatype Column = Column(expression: Expr, alias: Option<string>)

  /** A base table, or the rows of another query; a CTE is the query it names. */
  datatype Source = Table(name: string, alias: Option<string>) | Derived(query: Select, qualifier: string)

  datatype Join = Join(kind: I.JoinKind, table: string, alias: Option<string>, on: Expr)

  datatype Limit = Limit(count: Expr, offset: Option<Expr>)

  /** What follows WHERE; an empty list is an absent clause. */
  datatype Clauses = Clauses(groupBy: seq<Expr>, having: Option<Expr>, orderBy: seq<Order>, limit: Option<Limit>)

  const PLAIN := Clauses([], None, [], None)

  datatype Select = Select(source: Source, joins: seq<Join>, columns: seq<Column>, filter: Option<Expr>,
      clauses: Clauses)

  // ----- The catalog -----

  datatype Descriptor = Descriptor(column: I.BoundColumn, name: string)

  datatype TableInfo = TableInfo(id: ResourceId, columns: map<string, Descriptor>)

  /** Tables by canonical name, and the name of every column by its identity. */
  datatype Catalog = Catalog(tables: map<string, TableInfo>, names: map<ColumnId, string>)

  predicate ValidTable(cat: Catalog, info: TableInfo) {
    forall k | k in info.columns ::
      var d := info.columns[k];
      d.column.id.resource == info.id && LowerText(d.name) == k && d.column.id in cat.names &&
          cat.names[d.column.id] == d.name
  }

  predicate ValidCatalog(cat: Catalog) {
    forall t | t in cat.tables :: ValidTable(cat, cat.tables[t])
  }

  function Qualifier(table: string, alias: Option<string>): string {
    LowerText(if alias.Some? then alias.value else table)
  }

  // ----- Named rows -----

  type Row = map<string, LogicalValue>

  /** A source in scope with its current row. */
  datatype Scope = Scope(qualifier: string, row: Row)

  /** A row of a table under its column names. */
  function NameRow(info: TableInfo, row: Semantics.Row): Row {
    map k | k in info.columns ::
      var o := info.columns[k].column.id.ordinal; if o in row then row[o] else Null
  }

  function NameRows(info: TableInfo, rows: seq<Semantics.Row>): seq<Row> {
    if rows == [] then [] else [NameRow(info, rows[0])] + NameRows(info, rows[1..])
  }

  function TableRows(cat: Catalog, db: Database, table: string): seq<Row> {
    if LowerText(table) in cat.tables then
      var info := cat.tables[LowerText(table)]; NameRows(info, Rows(db, info.id))
    else []
  }

  function NullRow(cat: Catalog, table: string): Row {
    if LowerText(table) in cat.tables then NameRow(cat.tables[LowerText(table)], map[]) else map[]
  }

  /** The column of that name in the innermost source that has it, under the qualifier if one is written. */
  function Lookup(scopes: seq<Scope>, qualifier: Option<string>, name: string): LogicalValue {
    if scopes == [] then Null
    else
      var s, key := scopes[|scopes| - 1], LowerText(name);
      if (qualifier.Some? ==> LowerText(qualifier.value) == s.qualifier) && key in s.row then s.row[key]
      else Lookup(scopes[..|scopes| - 1], qualifier, name)
  }

  function SEval(cat: Catalog, c: Ctx, e: Expr, scopes: seq<Scope>): LogicalValue
    decreases e, 0
  {
    match e
    case Name(qualifier, name) => Lookup(scopes, qualifier, name)
    case Constant(value) => Written(c.engine, value)
    case Parameter(name, _) => BoundValue(c.params, name)
    case Infix(op, left, right) => ApplyBinary(c.engine, op, SEval(cat, c, left, scopes), SEval(cat, c, right, scopes))
    case Prefix(op, inner) => ApplyUnary(c.engine, op, SEval(cat, c, inner, scopes))
    case Among(x, values, negated) =>
      InValue(c.engine, SEval(cat, c, x, scopes), SEvalAll(cat, c, values, scopes), negated)
    case Call(routine, arguments, _) => c.engine.scalar(routine, SEvalAll(cat, c, arguments, scopes))
    case Choice(arms, otherwise, _) =>
      (match SEvalArms(cat, c, arms, scopes)
       case Some(v) => v
       case None =>
         match otherwise
         case None => Null
         case Some(x) => SEval(cat, c, x, scopes))
    case CountStar => c.engine.count
    case Ranked(partitionBy, orderBy) =>
      c.engine.rowNumber(SEvalAll(cat, c, partitionBy, scopes), SEvalOrders(cat, c, orderBy, scopes))
    case ExistsIn(table, alias, filter) =>
      Boolean(SWhere(cat, c, filter, SExtend(scopes, Qualifier(table, alias), TableRows(cat, c.nested, table))) != [])
  }

  function SEvalAll(cat: Catalog, c: Ctx, es: seq<Expr>, scopes: seq<Scope>): seq<LogicalValue>
    decreases es, 0
  {
    if es == [] then []
    else assert es decreases to es[0]; [SEval(cat, c, es[0], scopes)] + SEvalAll(cat, c, es[1..], scopes)
  }

  function SEvalOrders(cat: Catalog, c: Ctx, orders: seq<Order>, scopes: seq<Scope>): seq<SortKey>
    decreases orders, 0
  {
    if orders == [] then []
    else
      assert orders decreases to orders[0];
      [SortKey(SEval(cat, c, orders[0].expression, scopes), orders[0].descending)] +
          SEvalOrders(cat, c, orders[1..], scopes)
  }

  /** The value of the first arm whose condition is True, if any. */
  function SEvalArms(cat: Catalog, c: Ctx, arms: seq<Arm>, scopes: seq<Scope>): Option<LogicalValue>
    decreases arms, 0
  {
    if arms == [] then None
    else
      assert arms decreases to arms[0];
      if TruthOf(c.engine, SEval(cat, c, arms[0].condition, scopes)) == True then
        Some(SEval(cat, c, arms[0].value, scopes))
      else
        SEvalArms(cat, c, arms[1..], scopes)
  }

  predicate STrue(cat: Catalog, c: Ctx, e: Expr, scopes: seq<Scope>)
    decreases e, 1
  {
    TruthOf(c.engine, SEval(cat, c, e, scopes)) == True
  }

  function SKeep(cat: Catalog, c: Ctx, e: Expr, envs: seq<seq<Scope>>): seq<seq<Scope>>
    decreases e, 2, |envs|
  {
    if envs == [] then [] else (if STrue(cat, c, e, envs[0]) then [envs[0]] else []) + SKeep(cat, c, e, envs[1..])
  }

  function SWhere(cat: Catalog, c: Ctx, filter: Option<Expr>, envs: seq<seq<Scope>>): seq<seq<Scope>>
    decreases filter, 3
  {
    if filter.None? then envs else assert filter decreases to filter.value; SKeep(cat, c, filter.value, envs)
  }

  function SExtend(scopes: seq<Scope>, qualifier: string, rows: seq<Row>): seq<seq<Scope>> {
    if rows == [] then [] else [scopes + [Scope(qualifier, rows[0])]] + SExtend(scopes, qualifier, rows[1..])
  }

  function SJoinEnv(cat: Catalog, c: Ctx, join: Join, scopes: seq<Scope>): seq<seq<Scope>> {
    var qualifier := Qualifier(join.table, join.alias);
    var matched := SKeep(cat, c, join.on, SExtend(scopes, qualifier, TableRows(cat, c.nested, join.table)));
    if join.kind == I.Left && matched == [] then [scopes + [Scope(qualifier, NullRow(cat, join.table))]] else matched
  }

  function SJoinEach(cat: Catalog, c: Ctx, join: Join, envs: seq<seq<Scope>>): seq<seq<Scope>> {
    if envs == [] then [] else SJoinEnv(cat, c, join, envs[0]) + SJoinEach(cat, c, join, envs[1..])
  }

  function SJoinAll(cat: Catalog, c: Ctx, joins: seq<Join>, envs: seq<seq<Scope>>): seq<seq<Scope>>
    decreases |joins|
  {
    if joins == [] then envs else SJoinAll(cat, c, joins[1..], SJoinEach(cat, c, joins[0], envs))
  }

  // ----- Queries -----

  /** The name of an output column: its alias, or the name as written. */
  function OutputName(column: Column): string {
    if column.alias.Some? then column.alias.value
    else if column.expression.Name? then column.expression.name
    else if column.expression.Call? then FunctionName(column.expression.routine)
    else if column.expression.CountStar? then "count"
    else if column.expression.Ranked? then "row_number"
    else ""
  }

  function FunctionName(routine: I.ScalarFunction): string {
    match routine
    case Lower => "lower"
    case Upper => "upper"
    case JsonExtract => "json_extract"
  }

  function ProjectRow(cat: Catalog, c: Ctx, columns: seq<Column>, scopes: seq<Scope>): Row
    decreases |columns|
  {
    if columns == [] then map[]
    else
      var key := LowerText(OutputName(columns[0]));
      ProjectRow(cat, c, columns[1..], scopes)[key := SEval(cat, c, columns[0].expression, scopes)]
  }

  function ProjectRows(cat: Catalog, c: Ctx, columns: seq<Column>, envs: seq<seq<Scope>>): seq<Row>
    decreases |envs|
  {
    if envs == [] then [] else [ProjectRow(cat, c, columns, envs[0])] + ProjectRows(cat, c, columns, envs[1..])
  }

  function SourceQualifier(source: Source): string {
    match source
    case Table(name, alias) => Qualifier(name, alias)
    case Derived(_, alias) => LowerText(alias)
  }

  function SourceRows(cat: Catalog, c: Ctx, source: Source): seq<Row>
    decreases source, 0
  {
    match source
    case Table(name, _) => TableRows(cat, c.nested, name)
    case Derived(query, _) => ProjectRows(cat, c, query.columns, SelectScopes(cat, c, query))
  }

  /** The rows in scope of a query after FROM, JOIN and WHERE. */
  function SelectScopes(cat: Catalog, c: Ctx, s: Select): seq<seq<Scope>>
    decreases s, 1
  {
    var roots := SExtend([], SourceQualifier(s.source), SourceRows(cat, c, s.source));
    SWhere(cat, c, s.filter, SJoinAll(cat, c, s.joins, roots))
  }

  function SValues(cat: Catalog, c: Ctx, columns: seq<Column>, scopes: seq<Scope>): seq<LogicalValue> {
    if columns == [] then [] else [SEval(cat, c, columns[0].expression, scopes)] + SValues(cat, c, columns[1..], scopes)
  }

  /** The projected values of every row. */
  function SAnswer(cat: Catalog, c: Ctx, columns: seq<Column>, envs: seq<seq<Scope>>): seq<seq<LogicalValue>> {
    if envs == [] then [] else [SValues(cat, c, columns, envs[0])] + SAnswer(cat, c, columns, envs[1..])
  }

  // ----- Ordering -----

  /** The position of the output column that has the name as its alias. */
  function AliasAt(columns: seq<Column>, name: string): (at: Option<nat>)
    ensures at.Some? ==> at.value < |columns| && columns[at.value].alias.Some?
                         && LowerText(columns[at.value].alias.value) == LowerText(name)
  {
    if columns == [] then None
    else if columns[0].alias.Some? && LowerText(columns[0].alias.value) == LowerText(name) then Some(0)
    else
      match AliasAt(columns[1..], name)
      case None => None
      case Some(i) => Some(i + 1)
  }

  /** An unqualified name that is the alias of an output column orders by that column, before any source is asked. */
  function OrderTerm(columns: seq<Column>, e: Expr): Expr {
    if e.Name? && e.qualifier.None? &&
        AliasAt(columns, e.name).Some? then columns[AliasAt(columns, e.name).value].expression
    else e
  }

  function OrderKeys(
    cat: Catalog, c: Ctx, columns: seq<Column>, orders: seq<Order>, scopes: seq<Scope>): seq<SortKey>
  {
    if orders == [] then []
    else
      var value := SEval(cat, c, OrderTerm(columns, orders[0].expression), scopes);
      [SortKey(value, orders[0].descending)] + OrderKeys(cat, c, columns, orders[1..], scopes)
  }
}
