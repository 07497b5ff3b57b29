/**
  * Which statements the compiler accepts: a statement is accepted exactly when the role's policies
  * allow everything it reads, writes and returns, and can be instantiated from the session.
  */
module Acceptance {
  import opened Core
  import opened Ir
  import opened Semantics
  import opened Policy
  import opened View
  import opened Compile
  import opened ViewTheorem
  import opened LimitTheorem

  // ----- Predicates that can be instantiated -----

  /** Session operands stand beside text columns and their entries exist; no connective is empty. */
  predicate Instantiable(p: PolicyPredicate, session: TrustedSession)
    decreases p
  {
    match p
    case Comparison(column, _, operand) => OperandReady(operand, column.logicalType, session)
    case Membership(_, _, _) => true
    case NullTest(_, _) => true
    case All(parts) => parts != [] && forall part | part in parts :: Instantiable(part, session)
    case Any(parts) => parts != [] && forall part | part in parts :: Instantiable(part, session)
    case Negation(part) => Instantiable(part, session)
  }

  predicate OperandReady(operand: PolicyOperand, expected: LogicalType, session: TrustedSession) {
    operand.Session? ==>
      expected == StringType && operand.key in session.values && CanonicalKey("session_" + operand.key)
  }

  lemma OperandExact(operand: PolicyOperand, expected: LogicalType, session: TrustedSession, values: Bindings)
    ensures InstantiateOperand(operand, expected, session, values).Ok? <==> OperandReady(operand, expected, session)
  {
  }

  lemma {:induction false} InstantiateExact(p: PolicyPredicate, session: TrustedSession, values: Bindings)
    ensures Instantiate(p, session, values).Ok? <==> Instantiable(p, session)
    decreases p
  {
    match p
    case Comparison(column, _, operand) => OperandExact(operand, column.logicalType, session, values);
    case All(parts) => FoldExact(parts, session, values, And);
    case Any(parts) => FoldExact(parts, session, values, Or);
    case Negation(part) => InstantiateExact(part, session, values);
    case _ =>
  }

  lemma {:induction false} FoldExact(
    parts: seq<PolicyPredicate>, session: TrustedSession, values: Bindings, op: BinaryOp)
    ensures FoldLogical(parts, session, values, op).Ok?
       <==> parts != [] && forall part | part in parts :: Instantiable(part, session)
    decreases parts, 1
  {
    if parts != [] {
      InstantiateExact(parts[0], session, values);
      assert parts == [parts[0]] + parts[1..];
      if Instantiate(parts[0], session, values).Ok? {
        var (first, values') := Instantiate(parts[0], session, values).value;
        RestExact(first, parts[1..], session, values', op);
      }
    }
  }

  lemma {:induction false} RestExact(
    output: BoundExpr, rest: seq<PolicyPredicate>, session: TrustedSession, values: Bindings, op: BinaryOp)
    ensures FoldRest(output, rest, session, values, op).Ok?
       <==> forall part | part in rest :: Instantiable(part, session)
    decreases rest, 0
  {
    if rest != [] {
      InstantiateExact(rest[0], session, values);
      assert rest == [rest[0]] + rest[1..];
      if Instantiate(rest[0], session, values).Ok? {
        var (next, values') := Instantiate(rest[0], session, values).value;
        RestExact(Binary(op, output, next), rest[1..], session, values', op);
      }
    }
  }

  // ----- Expressions over permitted columns -----

  /** Every column the expression mentions, at any depth, is in the set. */
  predicate ReadsOnly(e: BoundExpr, columns: set<ColumnId>)
    decreases e
  {
    match e
    case Column(column) => column.id in columns
    case Binary(_, left, right) => ReadsOnly(left, columns) && ReadsOnly(right, columns)
    case Unary(_, inner) => ReadsOnly(inner, columns)
    case In(expression, values, _) => ReadsOnly(expression, columns) && forall x | x in values :: ReadsOnly(x, columns)
    case Scalar(_, arguments, _) => forall x | x in arguments :: ReadsOnly(x, columns)
    case Case(branches, otherwise, _) =>
      && (forall b: Branch | b in branches :: ReadsOnly(b.condition, columns) && ReadsOnly(b.value, columns))
      && (otherwise.Some? ==> ReadsOnly(otherwise.value, columns))
    case Exists(select) =>
      && (forall p: BoundProjection | p in select.projections :: ReadsOnly(p.expression, columns))
      && (select.filter.Some? ==> ReadsOnly(select.filter.value, columns))
    case RowNumber(_, partitionBy, orderBy) =>
      && (forall column | column in partitionBy :: column.id in columns)
      && forall o: BoundOrder | o in orderBy :: ReadsOnly(o.expression, columns)
    case ConditionalOutput(_, _) => false
    case _ => true
  }

  predicate OptionReadsOnly(e: Option<BoundExpr>, columns: set<ColumnId>) {
    e.Some? ==> ReadsOnly(e.value, columns)
  }

  lemma {:induction false} ReadsExact(e: BoundExpr, columns: set<ColumnId>)
    ensures ValidateClient(e, columns).Ok? <==> ReadsOnly(e, columns)
    decreases e, 1
  {
    match e
    case Binary(_, left, right) =>
      ReadsExact(left, columns);
      ReadsExact(right, columns);
    case Unary(_, inner) => ReadsExact(inner, columns);
    case In(expression, values, _) =>
      ReadsExact(expression, columns);
      AllExact(values, columns);
    case Scalar(_, arguments, _) => AllExact(arguments, columns);
    case Case(branches, otherwise, _) =>
      BranchesExact(branches, columns);
      OptionExact(otherwise, columns);
    case Exists(select) =>
      assert e decreases to select;
      ProjectionsExact(select.projections, columns);
      OptionExact(select.filter, columns);
    case RowNumber(_, _, orderBy) => OrdersExact(orderBy, columns);
    case _ =>
  }

  lemma {:induction false} AllExact(es: seq<BoundExpr>, columns: set<ColumnId>)
    ensures ValidateAll(es, columns).Ok? <==> forall x | x in es :: ReadsOnly(x, columns)
    decreases es, 0
  {
    if es != [] {
      ReadsExact(es[0], columns);
      AllExact(es[1..], columns);
      assert es == [es[0]] + es[1..];
    }
  }

  lemma {:induction false} OptionExact(e: Option<BoundExpr>, columns: set<ColumnId>)
    ensures ValidateOption(e, columns).Ok? <==> OptionReadsOnly(e, columns)
    decreases e, 2
  {
    if e.Some? {
      ReadsExact(e.value, columns);
    }
  }

  lemma {:induction false} OrdersExact(orders: seq<BoundOrder>, columns: set<ColumnId>)
    ensures ValidateOrders(orders, columns).Ok?
       <==> forall o: BoundOrder | o in orders :: ReadsOnly(o.expression, columns)
    decreases orders, 0
  {
    if orders != [] {
      assert orders decreases to orders[0];
      ReadsExact(orders[0].expression, columns);
      OrdersExact(orders[1..], columns);
      assert orders == [orders[0]] + orders[1..];
    }
  }

  lemma {:induction false} ProjectionsExact(projections: seq<BoundProjection>, columns: set<ColumnId>)
    ensures ValidateProjections(projections, columns).Ok?
       <==> forall p: BoundProjection | p in projections :: ReadsOnly(p.expression, columns)
    decreases projections, 0
  {
    if projections != [] {
      assert projections decreases to projections[0];
      ReadsExact(projections[0].expression, columns);
      ProjectionsExact(projections[1..], columns);
      assert projections == [projections[0]] + projections[1..];
    }
  }

  lemma {:induction false} BranchesExact(branches: seq<Branch>, columns: set<ColumnId>)
    ensures ValidateBranches(branches, columns).Ok?
       <==> forall b: Branch | b in branches :: ReadsOnly(b.condition, columns) && ReadsOnly(b.value, columns)
    decreases branches, 0
  {
    if branches != [] {
      assert branches decreases to branches[0];
      ReadsExact(branches[0].condition, columns);
      ReadsExact(branches[0].value, columns);
      BranchesExact(branches[1..], columns);
      assert branches == [branches[0]] + branches[1..];
    }
  }

  // ----- Nested selects -----

  /** Every EXISTS reads a resource whose row filter can be instantiated. */
  predicate NestedReady(e: BoundExpr, selected: Selected, session: TrustedSession)
    decreases e
  {
    match e
    case Exists(select) =>
      && select.resource in selected && Instantiable(selected[select.resource].rowFilter, session)
      && (select.filter.Some? ==> NestedReady(select.filter.value, selected, session))
    case Binary(_, left, right) => NestedReady(left, selected, session) && NestedReady(right, selected, session)
    case ConditionalOutput(value, visibleIf) =>
      NestedReady(value, selected, session) && NestedReady(visibleIf, selected, session)
    case Unary(_, inner) => NestedReady(inner, selected, session)
    case Scalar(_, arguments, _) => forall x | x in arguments :: NestedReady(x, selected, session)
    case In(expression, values, _) =>
      NestedReady(expression, selected, session) && forall x | x in values :: NestedReady(x, selected, session)
    case Case(branches, otherwise, _) =>
      && (forall b: Branch | b in branches ::
            NestedReady(b.condition, selected, session) && NestedReady(b.value, selected, session))
      && (otherwise.Some? ==> NestedReady(otherwise.value, selected, session))
    case _ => true
  }

  lemma {:induction false} ProtectExact(e: BoundExpr, selected: Selected, session: TrustedSession, values: Bindings)
    ensures Protect(e, selected, session, values).Ok? <==> NestedReady(e, selected, session)
    decreases e, 1
  {
    match e
    case Exists(select) =>
      assert e decreases to select;
      NestedExact(select, selected, session, values);
    case Binary(_, _, _) => ProtectBothExact(e, e.left, e.right, selected, session, values);
    case ConditionalOutput(_, _) => ProtectBothExact(e, e.value, e.visibleIf, selected, session, values);
    case Unary(_, inner) => ProtectExact(inner, selected, session, values);
    case Scalar(_, arguments, _) => ProtectAllExact(arguments, selected, session, values);
    case In(_, _, _) => ProtectInExact(e, selected, session, values);
    case Case(_, _, _) => ProtectCaseExact(e, selected, session, values);
    case _ =>
  }

  lemma {:induction false} ProtectBothExact(
    e: BoundExpr, a: BoundExpr, b: BoundExpr, selected: Selected, session: TrustedSession, values: Bindings)
    requires (e.Binary? && a == e.left && b == e.right) || (e.ConditionalOutput? && a == e.value && b == e.visibleIf)
    ensures Protect(e, selected, session, values).Ok? <==> NestedReady(e, selected, session)
    decreases e, 0
  {
    ProtectExact(a, selected, session, values);
    if Protect(a, selected, session, values).Ok? {
      ProtectExact(b, selected, session, Protect(a, selected, session, values).value.1);
    }
  }

  lemma {:induction false} ProtectInExact(e: BoundExpr, selected: Selected, session: TrustedSession, values: Bindings)
    requires e.In?
    ensures Protect(e, selected, session, values).Ok? <==> NestedReady(e, selected, session)
    decreases e, 0
  {
    ProtectExact(e.expression, selected, session, values);
    if Protect(e.expression, selected, session, values).Ok? {
      ProtectAllExact(e.values, selected, session, Protect(e.expression, selected, session, values).value.1);
    }
  }

  lemma {:induction false} ProtectCaseExact(e: BoundExpr, selected: Selected, session: TrustedSession, values: Bindings)
    requires e.Case?
    ensures Protect(e, selected, session, values).Ok? <==> NestedReady(e, selected, session)
    decreases e, 0
  {
    ProtectBranchesExact(e.branches, selected, session, values);
    var branches := ProtectBranches(e.branches, selected, session, values);
    if branches.Ok? && e.otherwise.Some? {
      ProtectExact(e.otherwise.value, selected, session, branches.value.1);
    }
  }

  lemma {:induction false} NestedExact(s: BoundSelect, selected: Selected, session: TrustedSession, values: Bindings)
    ensures Protect(Exists(s), selected, session, values).Ok? <==> NestedReady(Exists(s), selected, session)
    decreases s, 2
  {
    if s.filter.Some? {
      ProtectExact(s.filter.value, selected, session, values);
    }
    var inner := ProtectOption(s.filter, selected, session, values);
    if inner.Ok? && s.resource in selected {
      InstantiateExact(selected[s.resource].rowFilter, session, inner.value.1);
    }
  }

  lemma {:induction false} ProtectAllExact(
    es: seq<BoundExpr>, selected: Selected, session: TrustedSession, values: Bindings)
    ensures ProtectAll(es, selected, session, values).Ok? <==> forall x | x in es :: NestedReady(x, selected, session)
    decreases es, 0
  {
    if es != [] {
      ProtectExact(es[0], selected, session, values);
      if Protect(es[0], selected, session, values).Ok? {
        ProtectAllExact(es[1..], selected, session, Protect(es[0], selected, session, values).value.1);
      }
      assert es == [es[0]] + es[1..];
    }
  }

  lemma {:induction false} ProtectBranchesExact(
    branches: seq<Branch>, selected: Selected, session: TrustedSession, values: Bindings)
    ensures ProtectBranches(branches, selected, session, values).Ok?
       <==> forall b: Branch | b in branches ::
              NestedReady(b.condition, selected, session) && NestedReady(b.value, selected, session)
    decreases branches, 0
  {
    if branches != [] {
      assert branches decreases to branches[0];
      ProtectExact(branches[0].condition, selected, session, values);
      if Protect(branches[0].condition, selected, session, values).Ok? {
        var values1 := Protect(branches[0].condition, selected, session, values).value.1;
        ProtectExact(branches[0].value, selected, session, values1);
        if Protect(branches[0].value, selected, session, values1).Ok? {
          ProtectBranchesExact(
            branches[1..], selected, session, Protect(branches[0].value, selected, session, values1).value.1);
        }
      }
      assert branches == [branches[0]] + branches[1..];
    }
  }

  // ----- Projections and joins -----

  /**
    * The role may see the column under no condition, or under one that can be instantiated where no
    * LEFT JOIN nulls it.
    */
  predicate ColumnAllowed(column: ColumnId, joins: seq<BoundJoin>, selected: Selected, session: TrustedSession) {
    && column.resource in selected
    && var policy := selected[column.resource];
       || column in policy.regular
       || (&& column in policy.conditional && Instantiable(policy.conditional[column], session)
           && !exists j: BoundJoin | j in joins :: j.kind == Left && j.resource == column.resource)
  }

  /** COUNT and ROW_NUMBER need the resource's permission; computed outputs read regular columns only. */
  predicate ProjectionAllowed(
    e: BoundExpr, joins: seq<BoundJoin>, selected: Selected, session: TrustedSession, regular: set<ColumnId>)
  {
    match e
    case Column(column) => ColumnAllowed(column.id, joins, selected, session)
    case CountAll(resource) => resource in selected && selected[resource].allowAggregations
    case RowNumber(resource, _, _) => resource in selected && selected[resource].allowWindows && ReadsOnly(e, regular)
    case Scalar(_, _, _) => ReadsOnly(e, regular)
    case Case(_, _, _) => ReadsOnly(e, regular)
    case Binary(Concat, _, _) => ReadsOnly(e, regular)
    case Unary(CastText, _) => ReadsOnly(e, regular)
    case _ => false
  }

  lemma ProjectionExact(
    p: BoundProjection, joins: seq<BoundJoin>, selected: Selected, session: TrustedSession, values: Bindings)
    ensures (&& PermitProjection(p, selected, session, values).Ok?
             && var out := PermitProjection(p, selected, session, values).value.0;
                OutputAllowed(out.expression, joins)
                && CheckProjection(out.expression, selected, RegularColumns(selected)).Ok?)
       <==> ProjectionAllowed(p.expression, joins, selected, session, RegularColumns(selected))
  {
    ReadsExact(p.expression, RegularColumns(selected));
    match p.expression
    case Column(column) =>
      if column.id.resource in selected && column.id in selected[column.id.resource].conditional {
        InstantiateExact(selected[column.id.resource].conditional[column.id], session, values);
      }
    case RowNumber(_, _, orderBy) => OrdersExact(orderBy, RegularColumns(selected));
    case _ =>
  }

  predicate AllowedOutputs(projections: seq<BoundProjection>, joins: seq<BoundJoin>) {
    !exists p: BoundProjection | p in projections :: !OutputAllowed(p.expression, joins)
  }

  lemma {:induction false} ProjectionsAllowedExact(
    projections: seq<BoundProjection>, joins: seq<BoundJoin>, selected: Selected, session: TrustedSession,
    values: Bindings)
    ensures (&& PermitProjections(projections, selected, session, values).Ok?
             && var out := PermitProjections(projections, selected, session, values).value.0;
                AllowedOutputs(out, joins) && CheckProjections(out, selected, RegularColumns(selected)).Ok?)
       <==> forall p: BoundProjection | p in projections ::
              ProjectionAllowed(p.expression, joins, selected, session, RegularColumns(selected))
    decreases |projections|
  {
    if projections != [] {
      assert projections == [projections[0]] + projections[1..];
      ProjectionExact(projections[0], joins, selected, session, values);
      if PermitProjection(projections[0], selected, session, values).Ok? {
        var (first, values') := PermitProjection(projections[0], selected, session, values).value;
        ProjectionsAllowedExact(projections[1..], joins, selected, session, values');
        if PermitProjections(projections[1..], selected, session, values').Ok? {
          var rest := PermitProjections(projections[1..], selected, session, values').value.0;
          OutputsCons(first, rest, joins, selected);
        }
      }
    }
  }

  lemma OutputsCons(first: BoundProjection, rest: seq<BoundProjection>, joins: seq<BoundJoin>, selected: Selected)
    ensures AllowedOutputs([first] + rest, joins)
       <==> OutputAllowed(first.expression, joins) && AllowedOutputs(rest, joins)
    ensures CheckProjections([first] + rest, selected, RegularColumns(selected)).Ok?
       <==> CheckProjection(first.expression, selected, RegularColumns(selected)).Ok?
            && CheckProjections(rest, selected, RegularColumns(selected)).Ok?
  {
    assert ([first] + rest)[1..] == rest;
    assert forall p | p in rest :: p in [first] + rest;
    assert first in [first] + rest;
  }

  lemma {:induction false} JoinsReadExact(joins: seq<BoundJoin>, columns: set<ColumnId>)
    ensures ValidateJoins(joins, columns).Ok? <==> forall j: BoundJoin | j in joins :: ReadsOnly(j.on, columns)
  {
    if joins != [] {
      ReadsExact(joins[0].on, columns);
      JoinsReadExact(joins[1..], columns);
      assert joins == [joins[0]] + joins[1..];
    }
  }

  predicate JoinReady(join: BoundJoin, selected: Selected, session: TrustedSession) {
    join.resource in selected && Instantiable(selected[join.resource].rowFilter, session)
  }

  lemma {:induction false} JoinsExact(
    joins: seq<BoundJoin>, current: BoundExpr, selected: Selected, session: TrustedSession, values: Bindings)
    ensures ProtectJoins(joins, current, selected, session, values).Ok?
       <==> forall j: BoundJoin | j in joins :: JoinReady(j, selected, session)
    decreases |joins|
  {
    if joins != [] {
      var join := joins[0];
      assert join in joins;
      assert forall j | j in joins :: j == join || j in joins[1..];
      if join.resource in selected {
        InstantiateExact(selected[join.resource].rowFilter, session, values);
        if Instantiate(selected[join.resource].rowFilter, session, values).Ok? {
          var (rows, values') := Instantiate(selected[join.resource].rowFilter, session, values).value;
          var next := if join.kind == Inner then Binary(And, current, rows) else current;
          JoinsExact(joins[1..], next, selected, session, values');
        }
      }
    }
  }

  // ----- SELECT -----

  /** The policies of the resources that the select reads. */
  function PoliciesRead(v: RoleView, s: BoundSelect): Selected {
    map r | r in v.policies && ReadBy(s, r) :: v.policies[r]
  }

  lemma ViewedPolicy(v: RoleView, bundle: PolicyBundle, r: ResourceId)
    requires v == ViewOf(bundle, v.engine, v.session)
    ensures RolePolicy(bundle.select, r, v.session.role)
            == if r in v.policies then Ok(v.policies[r]) else Err(MissingPolicy)
  {
  }

  lemma {:induction false} PoliciesExact(v: RoleView, bundle: PolicyBundle, resources: seq<ResourceId>)
    requires v == ViewOf(bundle, v.engine, v.session)
    ensures SelectPolicies(bundle, resources, v.session.role).Ok? <==> forall r | r in resources :: r in v.policies
    ensures SelectPolicies(bundle, resources, v.session.role).Ok? ==>
              SelectPolicies(bundle, resources, v.session.role).value
              == map r | r in v.policies && r in resources :: v.policies[r]
  {
    if resources != [] {
      PoliciesExact(v, bundle, resources[1..]);
      assert resources == [resources[0]] + resources[1..];
      ViewedPolicy(v, bundle, resources[0]);
    }
  }

  lemma SelectedExact(v: RoleView, bundle: PolicyBundle, s: BoundSelect)
    requires v == ViewOf(bundle, v.engine, v.session)
    ensures SelectPolicies(bundle, QueryResources(s), v.session.role).Ok?
       <==> forall r | ReadBy(s, r) :: r in v.policies
    ensures SelectPolicies(bundle, QueryResources(s), v.session.role).Ok? ==>
              SelectPolicies(bundle, QueryResources(s), v.session.role).value == PoliciesRead(v, s)
  {
    PoliciesExact(v, bundle, QueryResources(s));
    forall r
      ensures r in QueryResources(s) <==> ReadBy(s, r)
    {
      QueriedExactly(s, r);
    }
  }

  /** WHERE, HAVING, GROUP BY, ORDER BY and the join conditions read columns of the set only. */
  predicate ClausesReadOnly(s: BoundSelect, columns: set<ColumnId>) {
    && OptionReadsOnly(s.filter, columns) && OptionReadsOnly(s.having, columns)
    && (forall o: BoundOrder | o in s.orderBy :: ReadsOnly(o.expression, columns))
    && (forall column | column in s.groupBy :: column.id in columns)
    && forall j: BoundJoin | j in s.joins :: ReadsOnly(j.on, columns)
  }

  lemma CheckExact(s: BoundSelect, projections: seq<BoundProjection>, selected: Selected)
    ensures CheckSelect(s, projections, selected).Ok?
       <==> (&& AllowedOutputs(projections, s.joins)
             && CheckProjections(projections, selected, RegularColumns(selected)).Ok?
             && ClausesReadOnly(s, RegularColumns(selected)))
  {
    var regular := RegularColumns(selected);
    OptionExact(s.filter, regular);
    OptionExact(s.having, regular);
    OrdersExact(s.orderBy, regular);
    JoinsReadExact(s.joins, regular);
  }

  /** The filters of a select can be instantiated: nested ones, the root's, and those of the joins. */
  predicate FiltersReady(s: BoundSelect, selected: Selected, session: TrustedSession) {
    && (s.filter.Some? ==> NestedReady(s.filter.value, selected, session))
    && s.resource in selected && Instantiable(selected[s.resource].rowFilter, session)
    && forall j: BoundJoin | j in s.joins :: JoinReady(j, selected, session)
  }

  lemma FiltersExact(s: BoundSelect, selected: Selected, session: TrustedSession, values0: Bindings)
    ensures (&& ProtectOption(s.filter, selected, session, values0).Ok? && s.resource in selected
             && var (filter, values1) := ProtectOption(s.filter, selected, session, values0).value;
                && Instantiate(selected[s.resource].rowFilter, session, values1).Ok?
                && var (rows, values2) := Instantiate(selected[s.resource].rowFilter, session, values1).value;
                   ProtectJoins(s.joins, AndOptional(filter, rows), selected, session, values2).Ok?)
       <==> FiltersReady(s, selected, session)
  {
    if s.filter.Some? {
      ProtectExact(s.filter.value, selected, session, values0);
    }
    var option := ProtectOption(s.filter, selected, session, values0);
    if option.Ok? && s.resource in selected {
      var (filter, values1) := option.value;
      InstantiateExact(selected[s.resource].rowFilter, session, values1);
      if Instantiate(selected[s.resource].rowFilter, session, values1).Ok? {
        var (rows, values2) := Instantiate(selected[s.resource].rowFilter, session, values1).value;
        JoinsExact(s.joins, AndOptional(filter, rows), selected, session, values2);
      }
    }
  }

  /** Everything a select reads is permitted, and every filter it needs can be instantiated. */
  ghost predicate SelectAllowed(v: RoleView, s: BoundSelect) {
    var selected := PoliciesRead(v, s);
    var regular := RegularColumns(selected);
    && (forall r | ReadBy(s, r) :: r in v.policies)
    && (forall p: BoundProjection | p in s.projections ::
          ProjectionAllowed(p.expression, s.joins, selected, v.session, regular))
    && ClausesReadOnly(s, regular) && FiltersReady(s, selected, v.session)
  }

  /** A select is accepted exactly when everything it reads is permitted and its filters can be instantiated. */
  lemma SelectAcceptedExactly(v: RoleView, bundle: PolicyBundle, s: BoundSelect)
    requires v == ViewOf(bundle, v.engine, v.session)
    ensures CompileSelect(bundle, s, v.session).Ok? <==> SelectAllowed(v, s)
  {
    var selected := PoliciesRead(v, s);
    SelectedExact(v, bundle, s);
    ProjectionsAllowedExact(s.projections, s.joins, selected, v.session, map[]);
    var permitted := PermitProjections(s.projections, selected, v.session, map[]);
    if permitted.Ok? {
      CheckExact(s, permitted.value.0, selected);
      FiltersExact(s, selected, v.session, permitted.value.1);
    }
    assert ReadBy(s, s.resource);
  }

  lemma {:induction false} PoliciesRefused(bundle: PolicyBundle, resources: seq<ResourceId>, role: string)
    requires SelectPolicies(bundle, resources, role).Err?
    ensures SelectPolicies(bundle, resources, role) == Err(MissingPolicy)
  {
    if RolePolicy(bundle.select, resources[0], role).Ok? {
      PoliciesRefused(bundle, resources[1..], role);
    }
  }

  /** A missing policy is found before anything else is looked at. */
  lemma MissingPolicyFirst(v: RoleView, bundle: PolicyBundle, s: BoundSelect, r: ResourceId)
    requires v == ViewOf(bundle, v.engine, v.session) && ReadBy(s, r) && r !in v.policies
    ensures CompileSelect(bundle, s, v.session) == Err(MissingPolicy)
  {
    SelectedExact(v, bundle, s);
    PoliciesRefused(bundle, QueryResources(s), v.session.role);
  }

  // ----- INSERT, UPDATE and DELETE -----

  /** Only direct columns that the policy lets a mutation return. */
  predicate OnlyReturnable(returning: seq<BoundProjection>, allowed: set<ColumnId>) {
    forall p: BoundProjection | p in returning :: p.expression.Column? && p.expression.column.id in allowed
  }

  lemma {:induction false} ReturningExact(returning: seq<BoundProjection>, allowed: set<ColumnId>)
    ensures ValidateReturning(returning, allowed).Ok? <==> OnlyReturnable(returning, allowed)
  {
    if returning != [] {
      ReturningExact(returning[1..], allowed);
      assert returning == [returning[0]] + returning[1..];
    }
  }

  /** Every column the caller assigns is writable and has no preset. */
  predicate OnlyWritable(assignments: seq<BoundAssignment>, columns: set<ColumnId>, presets: seq<Preset>) {
    forall a: BoundAssignment | a in assignments ::
      a.column.id in columns && forall p: Preset | p in presets :: p.column != a.column.id
  }

  predicate PresetsReady(presets: seq<Preset>, session: TrustedSession) {
    forall p: Preset | p in presets :: OperandReady(p.operand, p.logicalType, session)
  }

  lemma {:induction false} PresetsExact(presets: seq<Preset>, session: TrustedSession, values: Bindings)
    ensures PresetAssignments(presets, session, values).Ok? <==> PresetsReady(presets, session)
  {
    if presets != [] {
      OperandExact(presets[0].operand, presets[0].logicalType, session, values);
      if InstantiateOperand(presets[0].operand, presets[0].logicalType, session, values).Ok? {
        var (_, values') := InstantiateOperand(presets[0].operand, presets[0].logicalType, session, values).value;
        PresetsExact(presets[1..], session, values');
      }
      assert presets == [presets[0]] + presets[1..];
    }
  }

  lemma CallerExact(row: seq<BoundAssignment>, columns: set<ColumnId>, presets: seq<Preset>)
    ensures CallerColumnsAllowed(row, columns, presets) <==> OnlyWritable(row, columns, presets)
  {
  }

  lemma {:induction false} RowsExact(
    rows: seq<seq<BoundAssignment>>, policy: InsertPolicy, session: TrustedSession, values: Bindings)
    ensures ProtectRows(rows, policy, session, values).Ok?
       <==> (rows != [] ==> PresetsReady(policy.presets, session))
            && forall row | row in rows :: OnlyWritable(row, policy.columns, policy.presets)
  {
    if rows != [] {
      assert rows == [rows[0]] + rows[1..];
      CallerExact(rows[0], policy.columns, policy.presets);
      PresetsExact(policy.presets, session, values);
      if PresetAssignments(policy.presets, session, values).Ok? {
        RowsExact(rows[1..], policy, session, PresetAssignments(policy.presets, session, values).value.1);
      }
    }
  }

  /** An INSERT is accepted exactly when what it writes and returns is permitted, and presets and check are ready. */
  lemma InsertAcceptedExactly(bundle: PolicyBundle, insert: BoundInsert, session: TrustedSession)
    ensures CompileInsert(bundle, insert, session).Ok?
       <==> && RolePolicy(bundle.insert, insert.resource, session.role).Ok?
            && var policy := RolePolicy(bundle.insert, insert.resource, session.role).value;
               && OnlyReturnable(insert.returning, policy.returning)
               && (forall row | row in insert.rows :: OnlyWritable(row, policy.columns, policy.presets))
               && (insert.rows != [] ==> PresetsReady(policy.presets, session))
               && Instantiable(policy.check, session)
  {
    var found := RolePolicy(bundle.insert, insert.resource, session.role);
    if found.Ok? {
      ReturningExact(insert.returning, found.value.returning);
      RowsExact(insert.rows, found.value, session, map[]);
      var rows := ProtectRows(insert.rows, found.value, session, map[]);
      if rows.Ok? {
        InstantiateExact(found.value.check, session, rows.value.1);
      }
    }
  }

  /** And so for UPDATE, whose row filter must be ready too. */
  lemma UpdateAcceptedExactly(bundle: PolicyBundle, update: BoundUpdate, session: TrustedSession)
    ensures CompileUpdate(bundle, update, session).Ok?
       <==> && RolePolicy(bundle.update, update.resource, session.role).Ok?
            && var policy := RolePolicy(bundle.update, update.resource, session.role).value;
               && OnlyReturnable(update.returning, policy.returning)
               && OnlyWritable(update.assignments, policy.columns, policy.presets)
               && PresetsReady(policy.presets, session)
               && Instantiable(policy.rowFilter, session) && Instantiable(policy.check, session)
  {
    var found := RolePolicy(bundle.update, update.resource, session.role);
    if found.Ok? {
      var policy := found.value;
      ReturningExact(update.returning, policy.returning);
      CallerExact(update.assignments, policy.columns, policy.presets);
      PresetsExact(policy.presets, session, map[]);
      if PresetAssignments(policy.presets, session, map[]).Ok? {
        var values1 := PresetAssignments(policy.presets, session, map[]).value.1;
        InstantiateExact(policy.rowFilter, session, values1);
        if Instantiate(policy.rowFilter, session, values1).Ok? {
          InstantiateExact(policy.check, session, Instantiate(policy.rowFilter, session, values1).value.1);
        }
      }
    }
  }

  /** And for DELETE. */
  lemma DeleteAcceptedExactly(bundle: PolicyBundle, delete: BoundDelete, session: TrustedSession)
    ensures CompileDelete(bundle, delete, session).Ok?
       <==> && RolePolicy(bundle.delete, delete.resource, session.role).Ok?
            && var policy := RolePolicy(bundle.delete, delete.resource, session.role).value;
               OnlyReturnable(delete.returning, policy.returning) && Instantiable(policy.rowFilter, session)
  {
    var found := RolePolicy(bundle.delete, delete.resource, session.role);
    if found.Ok? {
      ReturningExact(delete.returning, found.value.returning);
      InstantiateExact(found.value.rowFilter, session, map[]);
    }
  }
}
