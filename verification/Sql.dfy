/** The SQL syntax tree that the emitter builds and the complexity counter measures. */
module Sql {
  import opened Core

  datatype Token = NullToken | TrueToken | FalseToken | Numeric(text: string)

  datatype Operator =
    | Equals | NotEquals | LessThan | LessEquals | GreaterThan | GreaterEquals
    | AndOp | OrOp | ConcatOp | IsOp

  datatype Matcher = LikeOp | GlobOp

  datatype Prefix = Negative | NotOp

  datatype Expr =
    | Literal(token: Token)
    | Id(name: string)
    | Qualified(table: string, name: string)
    | DoublyQualified(schema: string, table: string, name: string)
    | Variable(variable: string, index: nat)
    | Parenthesized(elements: seq<Expr>)
    | Subquery(query: Select)
    | Exists(query: Select)
    | Unary(prefix: Prefix, inner: Expr)
    | Cast(inner: Expr)
    | Case(base: Option<Expr>, pairs: seq<When>, otherwise: Option<Expr>)
    | FunctionCall(
        function_name: string, arguments: seq<Expr>, orderBy: seq<Sorted>, withinGroup: seq<Sorted>, tail: Tail)
    | FunctionCallStar(function_name: string, tail: Tail)
    | Binary(left: Expr, op: Operator, right: Expr)
    | Collate(inner: Expr)
    | IsNull(inner: Expr)
    | NotNull(inner: Expr)
    | Between(left: Expr, low: Expr, high: Expr)
    | InList(left: Expr, negated: bool, members: seq<Expr>)
    | InSelect(left: Expr, query: Select)
    | Match(left: Expr, matcher: Matcher, pattern: Expr, escape: Option<Expr>)
    | OtherNode

  datatype When = When(condition: Expr, value: Expr)

  datatype Sorted = Sorted(expr: Expr, descending: bool)

  /** FILTER and OVER of a function call. */
  datatype Tail = Tail(filter: Option<Expr>, over: Over)

  datatype Over = NoWindow | NamedWindow | Window(partitionBy: seq<Expr>, orderBy: seq<Sorted>, framed: bool)

  datatype Select = Select(
    ctes: seq<Select>, body: OneSelect, compounds: seq<OneSelect>, orderBy: seq<Sorted>, limit: Option<Limit>)

  datatype OneSelect =
    | Query(columns: seq<ResultColumn>, from: Option<From>, filter: Option<Expr>, groupBy: Option<GroupBy>,
        windows: bool)
    | Values(rows: seq<Row>)

  datatype Row = Row(cells: seq<Expr>)

  datatype ResultColumn = Output(expr: Expr, alias: string) | Star

  datatype From = From(table: Table, joins: seq<Join>)

  datatype Table =
    | Named(source: string, alias: string)
    | TableCall(arguments: seq<Expr>)
    | Derived(query: Select)
    | Nested(from: From)

  datatype Join = Join(left: bool, table: Table, constraint: Constraint)

  datatype Constraint = NoConstraint | On(condition: Expr) | Using

  datatype GroupBy = GroupBy(exprs: seq<Expr>, having: Option<Expr>)

  datatype Limit = Limit(expr: Expr, offset: Option<Expr>)

  datatype Set = Set(column: string, value: Expr)

  datatype InsertBody = FromSelect(query: Select, upsert: Option<Upsert>) | DefaultValues

  /** ON CONFLICT clauses, one after the other. */
  datatype Upsert = Upsert(target: Option<Target>, action: Action, next: Option<Upsert>)

  datatype Target = Target(columns: seq<Sorted>, filter: Option<Expr>)

  datatype Action = DoNothing | DoSet(sets: seq<Set>, filter: Option<Expr>)

  datatype Statement =
    | SelectStatement(query: Select)
    | InsertStatement(with_: bool, table: string, columns: seq<string>, body: InsertBody, returning: seq<ResultColumn>)
    | UpdateStatement(
        with_: bool, table: string, from: bool, sets: seq<Set>, filter: Option<Expr>,
        orderBy: seq<Sorted>, limit: Option<Limit>, returning: seq<ResultColumn>)
    | DeleteStatement(
        with_: bool, table: string, filter: Option<Expr>,
        orderBy: seq<Sorted>, limit: Option<Limit>, returning: seq<ResultColumn>)
    | OtherStatement

  function Call(name: string, arguments: seq<Expr>): Expr {
    FunctionCall(name, arguments, [], [], Tail(None, NoWindow))
  }
}
