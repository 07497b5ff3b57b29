/**
  * The bound intermediate representation: what the binder produces, the policy compiler rewrites
  * and the emitter prints. Operators that every pass treats alike share one constructor and are
  * told apart by an operator tag. A column's usage mark, which no modelled pass reads, is dropped.
  */
module Ir {
  import opened Core

  datatype BoundColumn = BoundColumn(id: ColumnId, logicalType: LogicalType)

  datatype BinaryOp =
    | Equal | NotEqual | Less | LessEqual | Greater | GreaterEqual
    | And | Or | Like | Glob | Least | Concat

  datatype UnaryOp = Not | IsNull | CastText

  datatype ScalarFunction = Lower | Upper | JsonExtract

  datatype BoundExpr =
    | Column(column: BoundColumn)
    | ClientParameter(name: string, logicalType: LogicalType)
    | ServerParameter(name: string, logicalType: LogicalType)
    | Literal(literal: LogicalValue)
    | Binary(op: BinaryOp, left: BoundExpr, right: BoundExpr)
    | Unary(unary: UnaryOp, inner: BoundExpr)
    | In(expression: BoundExpr, values: seq<BoundExpr>, negated: bool)
    | Case(branches: seq<Branch>, otherwise: Option<BoundExpr>, logicalType: LogicalType)
    | ConditionalOutput(value: BoundExpr, visibleIf: BoundExpr)
    | Exists(select: BoundSelect)
    | CountAll(resource: ResourceId)
    | Scalar(routine: ScalarFunction, arguments: seq<BoundExpr>, logicalType: LogicalType)
    | RowNumber(resource: ResourceId, partitionBy: seq<BoundColumn>, orderBy: seq<BoundOrder>)

  datatype Branch = Branch(condition: BoundExpr, value: BoundExpr)

  datatype SortDirection = Ascending | Descending

  datatype BoundOrder = BoundOrder(expression: BoundExpr, direction: SortDirection)

  datatype BoundProjection = BoundProjection(expression: BoundExpr, outputName: string)

  datatype JoinKind = Inner | Left

  datatype BoundJoin = BoundJoin(resource: ResourceId, kind: JoinKind, on: BoundExpr)

  datatype BoundSelect = BoundSelect(
    resource: ResourceId,
    joins: seq<BoundJoin>,
    projections: seq<BoundProjection>,
    filter: Option<BoundExpr>,
    groupBy: seq<BoundColumn>,
    having: Option<BoundExpr>,
    orderBy: seq<BoundOrder>,
    limit: Option<BoundExpr>,
    offset: Option<BoundExpr>)

  datatype BoundAssignment = BoundAssignment(column: BoundColumn, value: BoundExpr)

  datatype BoundInsert = BoundInsert(
    resource: ResourceId, rows: seq<seq<BoundAssignment>>, returning: seq<BoundProjection>)

  datatype BoundUpdate = BoundUpdate(
    resource: ResourceId, assignments: seq<BoundAssignment>,
    filter: Option<BoundExpr>, returning: seq<BoundProjection>)

  datatype BoundDelete = BoundDelete(
    resource: ResourceId, filter: Option<BoundExpr>, returning: seq<BoundProjection>)

  datatype BoundStatement =
    | SelectStatement(select: BoundSelect)
    | InsertStatement(insert: BoundInsert)
    | UpdateStatement(update: BoundUpdate)
    | DeleteStatement(delete: BoundDelete)
}
