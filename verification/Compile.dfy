/** The statement compilers: SELECT, INSERT, UPDATE and DELETE under one role's policies. */
module Compile {
  import opened Core
  import opened Ir
  import opened Policy

  datatype ProtectedPlan<+S> = ProtectedPlan(
    statement: S,
    serverValues: Bindings,
    policyLimit: Option<nat>,
    operationCheck: Option<BoundExpr>,
    expectedAffectedRows: Option<nat>)

  // ----- The resources a select reads -----

  /** Resources named by EXISTS and window nodes of an expression, in visiting order. */
  function Collect(e: BoundExpr): seq<ResourceId>
    decreases e, 0
  {
    match e
    case Exists(select) =>
      assert e decreases to select;
      [select.resource] + CollectProjections(select.projections) + CollectOption(select.filter)
    case Binary(_, left, right) => Collect(left) + Collect(right)
    case ConditionalOutput(value, visibleIf) => Collect(value) + Collect(visibleIf)
    case Unary(_, inner) => Collect(inner)
    case Scalar(_, arguments, _) => CollectAll(arguments)
    case In(expression, values, _) => Collect(expression) + CollectAll(values)
    case Case(branches, otherwise, _) => CollectBranches(branches) + CollectOption(otherwise)
    case RowNumber(resource, _, _) => [resource]
    case _ => []
  }

  function CollectAll(es: seq<BoundExpr>): seq<ResourceId>
    decreases es, 0
  {
    if es == [] then [] else Collect(es[0]) + CollectAll(es[1..])
  }

  function CollectOption(e: Option<BoundExpr>): seq<ResourceId>
    decreases e, 0
  {
    match e
    case None => []
    case Some(x) => Collect(x)
  }

  function CollectProjections(projections: seq<BoundProjection>): seq<ResourceId>
    decreases projections, 0
  {
    if projections == [] then []
    else
      assert projections decreases to projections[0];
      Collect(projections[0].expression) + CollectProjections(projections[1..])
  }

  function CollectBranches(branches: seq<Branch>): seq<ResourceId>
    decreases branches, 0
  {
    if branches == [] then []
    else
      assert branches decreases to branches[0];
      Collect(branches[0].condition) + Collect(branches[0].value) + CollectBranches(branches[1..])
  }

  /** Adds a resource to a strictly ascending list. */
  function InsertSorted(sorted: seq<ResourceId>, r: ResourceId): seq<ResourceId> {
    if sorted == [] || r < sorted[0] then [r] + sorted
    else if r == sorted[0] then sorted
    else [sorted[0]] + InsertSorted(sorted[1..], r)
  }

  function SortDedup(resources: seq<ResourceId>): seq<ResourceId> {
    if resources == [] then [] else InsertSorted(SortDedup(resources[1..]), resources[0])
  }

  function QueryResources(s: BoundSelect): seq<ResourceId> {
    SortDedup([s.resource]
              + seq(|s.joins|, i requires 0 <= i < |s.joins| => s.joins[i].resource)
              + CollectOption(s.filter))
  }

  function SelectPolicies(
      bundle: PolicyBundle, resources: seq<ResourceId>, role: string): Result<Selected, PolicyError> {
    if resources == [] then Ok(map[])
    else
      var policy :- RolePolicy(bundle.select, resources[0], role);
      var rest :- SelectPolicies(bundle, resources[1..], role);
      Ok(rest[resources[0] := policy])
  }

  function RegularColumns(selected: Selected): set<ColumnId> {
    set r, column | r in selected && column in selected[r].regular :: column
  }

  /** The smallest row limit of the selected policies. */
  function MinLimit(selected: Selected, resources: seq<ResourceId>): Option<nat> {
    if resources == [] then None
    else
      var rest := MinLimit(selected, resources[1..]);
      if resources[0] !in selected then rest
      else
        match (selected[resources[0]].limit, rest)
        case (None, _) => rest
        case (Some(n), None) => Some(n)
        case (Some(n), Some(m)) => Some(if n <= m then n else m)
  }

  // ----- Projections -----

  predicate FreeProjection(e: BoundExpr) {
    match e
    case CountAll(_) => true
    case RowNumber(_, _, _) => true
    case Scalar(_, _, _) => true
    case Binary(op, _, _) => op == Concat
    case Unary(op, _) => op == CastText
    case Case(_, _, _) => true
    case _ => false
  }

  /** A column the role sees only conditionally becomes a conditional output. */
  function PermitProjection(
    projection: BoundProjection, selected: Selected, session: TrustedSession, values: Bindings)
    : Result<(BoundProjection, Bindings), PolicyError>
  {
    match projection.expression
    case Column(column) =>
      if column.id.resource !in selected then Err(MissingPolicy)
      else
        var policy := selected[column.id.resource];
        if column.id in policy.regular then Ok((projection, values))
        else if column.id !in policy.conditional then Err(ForbiddenColumn)
        else
          var (visibleIf, values') :- Instantiate(policy.conditional[column.id], session, values);
          Ok((projection.(expression := ConditionalOutput(projection.expression, visibleIf)), values'))
    case _ => if FreeProjection(projection.expression) then Ok((projection, values)) else Err(ForbiddenColumnContext)
  }

  function PermitProjections(
    projections: seq<BoundProjection>, selected: Selected, session: TrustedSession, values: Bindings)
    : Result<(seq<BoundProjection>, Bindings), PolicyError>
  {
    if projections == [] then Ok(([], values))
    else
      var (first, values') :- PermitProjection(projections[0], selected, session, values);
      var (rest, values'') :- PermitProjections(projections[1..], selected, session, values');
      Ok(([first] + rest, values''))
  }

  /** A conditional output must be a direct column of a resource that no LEFT JOIN can null. */
  predicate OutputAllowed(e: BoundExpr, joins: seq<BoundJoin>) {
    e.ConditionalOutput? ==>
      e.value.Column? && !exists j | j in joins :: j.kind == Left && j.resource == e.value.column.id.resource
  }

  function CheckProjection(e: BoundExpr, selected: Selected, regular: set<ColumnId>): Result<(), PolicyError> {
    match e
    case CountAll(resource) =>
      if resource !in selected then Err(MissingPolicy)
      else if !selected[resource].allowAggregations then Err(UnsupportedCapability)
      else Ok(())
    case RowNumber(resource, partitionBy, orderBy) =>
      if resource !in selected then Err(MissingPolicy)
      else if !selected[resource].allowWindows
              || (exists column | column in partitionBy :: column.id !in regular)
              || ValidateOrders(orderBy, regular).Err? then Err(UnsupportedCapability)
      else Ok(())
    case _ => if FreeProjection(e) then ValidateClient(e, regular) else Ok(())
  }

  function CheckProjections(
    projections: seq<BoundProjection>, selected: Selected, regular: set<ColumnId>): Result<(), PolicyError>
  {
    if projections == [] then Ok(())
    else
      var _ :- CheckProjection(projections[0].expression, selected, regular);
      CheckProjections(projections[1..], selected, regular)
  }

  function ValidateJoins(joins: seq<BoundJoin>, regular: set<ColumnId>): Result<(), PolicyError> {
    if joins == [] then Ok(())
    else
      var _ :- ValidateClient(joins[0].on, regular);
      ValidateJoins(joins[1..], regular)
  }

  /** Inner-join filters go to WHERE, left-join filters to the join condition. */
  function ProtectJoins(
    joins: seq<BoundJoin>, current: BoundExpr, selected: Selected, session: TrustedSession, values: Bindings)
    : Result<(seq<BoundJoin>, BoundExpr, Bindings), PolicyError>
  {
    if joins == [] then Ok(([], current, values))
    else
      var join := joins[0];
      if join.resource !in selected then Err(MissingPolicy)
      else
        var (rows, values') :- Instantiate(selected[join.resource].rowFilter, session, values);
        match join.kind
        case Inner =>
          var (rest, current', values'') :-
            ProtectJoins(joins[1..], Binary(And, current, rows), selected, session, values');
          Ok(([join] + rest, current', values''))
        case Left =>
          var (rest, current', values'') :- ProtectJoins(joins[1..], current, selected, session, values');
          Ok(([join.(on := Binary(And, join.on, rows))] + rest, current', values''))
  }

  function CheckSelect(s: BoundSelect, projections: seq<BoundProjection>, selected: Selected): Result<(), PolicyError> {
    var regular := RegularColumns(selected);
    if exists p | p in projections :: !OutputAllowed(p.expression, s.joins) then Err(ForbiddenColumnContext)
    else
      var _ :- ValidateOption(s.filter, regular);
      var _ :- ValidateOrders(s.orderBy, regular);
      if exists column | column in s.groupBy :: column.id !in regular then Err(ForbiddenColumn)
      else
        var _ :- ValidateOption(s.having, regular);
        var _ :- CheckProjections(projections, selected, regular);
        ValidateJoins(s.joins, regular)
  }

  function CompileSelect(
    bundle: PolicyBundle, s: BoundSelect, session: TrustedSession): Result<ProtectedPlan<BoundSelect>, PolicyError>
  {
    var resources := QueryResources(s);
    var selected :- SelectPolicies(bundle, resources, session.role);
    var (projections, values0) :- PermitProjections(s.projections, selected, session, map[]);
    var _ :- CheckSelect(s, projections, selected);
    var (filter, values1) :- ProtectOption(s.filter, selected, session, values0);
    if s.resource !in selected then Err(MissingPolicy)
    else
      var (rows, values2) :- Instantiate(selected[s.resource].rowFilter, session, values1);
      var (joins, filter', values3) :-
        ProtectJoins(s.joins, AndOptional(filter, rows), selected, session, values2);
      var policyLimit := MinLimit(selected, resources);
      Ok(ProtectedPlan(
           s.(projections := projections, filter := Some(filter'), joins := joins,
              limit := LimitWith(s.limit, policyLimit)),
           values3, policyLimit, None, None))
  }

  // ----- Mutations -----

  predicate IsPreset(presets: seq<Preset>, column: ColumnId) {
    exists preset | preset in presets :: preset.column == column
  }

  function ValidateReturning(returning: seq<BoundProjection>, allowed: set<ColumnId>): Result<(), PolicyError> {
    if returning == [] then Ok(())
    else if !returning[0].expression.Column? then Err(ForbiddenColumnContext)
    else if returning[0].expression.column.id !in allowed then Err(ForbiddenColumn)
    else ValidateReturning(returning[1..], allowed)
  }

  /** Every column the caller assigns is writable and is not a preset. */
  predicate CallerColumnsAllowed(assignments: seq<BoundAssignment>, columns: set<ColumnId>, presets: seq<Preset>) {
    forall a | a in assignments :: a.column.id in columns && !IsPreset(presets, a.column.id)
  }

  function PresetAssignments(presets: seq<Preset>, session: TrustedSession, values: Bindings)
    : Result<(seq<BoundAssignment>, Bindings), PolicyError>
  {
    if presets == [] then Ok(([], values))
    else
      var (value, values') :- InstantiateOperand(presets[0].operand, presets[0].logicalType, session, values);
      var (rest, values'') :- PresetAssignments(presets[1..], session, values');
      Ok(([BoundAssignment(BoundColumn(presets[0].column, presets[0].logicalType), value)] + rest, values''))
  }

  function ProtectRows(rows: seq<seq<BoundAssignment>>, policy: InsertPolicy, session: TrustedSession, values: Bindings)
    : Result<(seq<seq<BoundAssignment>>, Bindings), PolicyError>
  {
    if rows == [] then Ok(([], values))
    else if !CallerColumnsAllowed(rows[0], policy.columns, policy.presets) then Err(ForbiddenColumn)
    else
      var (presets, values') :- PresetAssignments(policy.presets, session, values);
      var (rest, values'') :- ProtectRows(rows[1..], policy, session, values');
      Ok(([rows[0] + presets] + rest, values''))
  }

  function CompileInsert(
    bundle: PolicyBundle, insert: BoundInsert, session: TrustedSession): Result<ProtectedPlan<BoundInsert>, PolicyError>
  {
    var policy :- RolePolicy(bundle.insert, insert.resource, session.role);
    var _ :- ValidateReturning(insert.returning, policy.returning);
    var (rows, values1) :- ProtectRows(insert.rows, policy, session, map[]);
    var (check, values2) :- Instantiate(policy.check, session, values1);
    Ok(ProtectedPlan(insert.(rows := rows), values2, None, Some(check), Some(|rows|)))
  }

  function CompileUpdate(
    bundle: PolicyBundle, update: BoundUpdate, session: TrustedSession): Result<ProtectedPlan<BoundUpdate>, PolicyError>
  {
    var policy :- RolePolicy(bundle.update, update.resource, session.role);
    var _ :- ValidateReturning(update.returning, policy.returning);
    if !CallerColumnsAllowed(update.assignments, policy.columns, policy.presets) then Err(ForbiddenColumn)
    else
      var (presets, values1) :- PresetAssignments(policy.presets, session, map[]);
      var (rows, values2) :- Instantiate(policy.rowFilter, session, values1);
      var (check, values3) :- Instantiate(policy.check, session, values2);
      Ok(ProtectedPlan(
           update.(assignments := update.assignments + presets, filter := Some(AndOptional(update.filter, rows))),
           values3, None, Some(check), None))
  }

  function CompileDelete(
    bundle: PolicyBundle, delete: BoundDelete, session: TrustedSession): Result<ProtectedPlan<BoundDelete>, PolicyError>
  {
    var policy :- RolePolicy(bundle.delete, delete.resource, session.role);
    var _ :- ValidateReturning(delete.returning, policy.returning);
    var (rows, values) :- Instantiate(policy.rowFilter, session, map[]);
    Ok(ProtectedPlan(delete.(filter := Some(AndOptional(delete.filter, rows))), values, None, None, None))
  }
}
