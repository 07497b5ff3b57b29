/**
  * The view theorem: a compiled SELECT on the real database is the client's SELECT on the role's
  * view, environment by environment and value by value; and its consequence, noninterference.
  */
module ViewTheorem {
  import opened Core
  import opened Ir
  import opened Semantics
  import opened Policy
  import opened View
  import opened Compile
  import opened Instantiation
  import opened Protection
  import opened JoinView

  /** The view of a role under a bundle. */
  function ViewOf(bundle: PolicyBundle, engine: Engine, session: TrustedSession): RoleView {
    RoleView(engine, session,
             map r | r in bundle.select && session.role in bundle.select[r] :: bundle.select[r][session.role])
  }

  /** What the binder guarantees of a select, and that EXISTS occurs only in WHERE. */
  predicate WellBound(s: BoundSelect) {
    && (forall i | 0 <= i < |s.joins| :: s.joins[i].resource != s.resource)
    && (forall i, j | 0 <= i < j < |s.joins| :: s.joins[i].resource != s.joins[j].resource)
    && (s.filter.Some? ==> Shape(s.filter.value, true))
    && ExistsOnlyInWhere(s)
  }

  predicate ExistsOnlyInWhere(s: BoundSelect) {
    && (forall j: BoundJoin | j in s.joins :: Shape(j.on, false))
    && (forall p: BoundProjection | p in s.projections :: Shape(p.expression, false))
    && (forall o: BoundOrder | o in s.orderBy :: Shape(o.expression, false))
    && (s.having.Some? ==> Shape(s.having.value, false))
  }

  // ----- The pieces of a compiled select -----

  lemma {:induction false} SelectPoliciesWithin(
      bundle: PolicyBundle, resources: seq<ResourceId>, engine: Engine, session: TrustedSession)
    requires SelectPolicies(bundle, resources, session.role).Ok?
    ensures Within(SelectPolicies(bundle, resources, session.role).value, ViewOf(bundle, engine, session).policies)
  {
    if resources != [] {
      SelectPoliciesWithin(bundle, resources[1..], engine, session);
    }
  }

  lemma {:induction false} PermitKeeps(
    projections: seq<BoundProjection>, selected: Selected, session: TrustedSession, values: Bindings)
    requires SessionOnly(values, session) && PermitProjections(projections, selected, session, values).Ok?
    ensures var (out, values') := PermitProjections(projections, selected, session, values).value;
            SessionOnly(values', session) && Within(values, values') && |out| == |projections|
  {
    if projections != [] {
      var (_, values') := PermitProjection(projections[0], selected, session, values).value;
      var e := projections[0].expression;
      if e.Column? && e.column.id !in selected[e.column.id.resource].regular {
        InstantiateKeeps(selected[e.column.id.resource].conditional[e.column.id], session, values);
      }
      PermitKeeps(projections[1..], selected, session, values');
    }
  }

  /** A permitted projection on a real environment has the client projection's value on the view. */
  lemma PermitAgrees(
    v: RoleView, selected: Selected, params: Bindings, db: Database, projection: BoundProjection, values: Bindings,
    env: Env)
    requires v.Valid() && Within(selected, v.policies) && SessionOnly(values, v.session)
    requires Shape(projection.expression, false)
    requires PermitProjection(projection, selected, v.session, values).Ok?
    requires Within(PermitProjection(projection, selected, v.session, values).value.1, params)
    requires CheckProjection(PermitProjection(projection, selected, v.session, values).value.0.expression,
                             selected, RegularColumns(selected)).Ok?
    ensures Eval(RealCtx(v, params, db), PermitProjection(projection, selected, v.session, values).value.0.expression,
            env)
         == Eval(ViewCtx(v, params, db), projection.expression, v.EnvOf(env))
  {
    match projection.expression
    case Column(column) =>
      var r := column.id.resource;
      if column.id in selected[r].regular {
        CellAgrees(v, selected, env, column.id);
      } else {
        ConditionalAgrees(v, selected, params, db, column, values, env);
      }
    case RowNumber(_, partitionBy, orderBy) =>
      CellsAgree(v, selected, partitionBy, env);
      OrdersAgree(v, selected, RealCtx(v, params, db), ViewCtx(v, params, db), orderBy, env);
    case CountAll(_) =>
    case _ => FreeAgrees(v, selected, params, db, projection.expression, env);
  }

  /** A conditional column becomes a conditional output that shows what the view reveals. */
  lemma ConditionalAgrees(
    v: RoleView, selected: Selected, params: Bindings, db: Database, column: BoundColumn, values: Bindings, env: Env)
    requires v.Valid() && Within(selected, v.policies) && SessionOnly(values, v.session)
    requires var r := column.id.resource;
             r in selected && column.id !in selected[r].regular && column.id in selected[r].conditional &&
             Instantiate(selected[r].conditional[column.id], v.session, values).Ok? &&
             Within(Instantiate(selected[r].conditional[column.id], v.session, values).value.1, params)
    ensures var visibleIf := Instantiate(selected[column.id.resource].conditional[column.id], v.session,
            values).value.0;
            Eval(RealCtx(v, params, db), ConditionalOutput(Column(column), visibleIf), env)
            == Eval(ViewCtx(v, params, db), Column(column), v.EnvOf(env))
  {
    var r := column.id.resource;
    var visibleIf := selected[r].conditional[column.id];
    assert PolicyOwned(v.policies[r], r);
    InstantiateMeaning(visibleIf, r, v.session, values, RealCtx(v, params, db), env);
    assert v.Reveals(r, column.id.ordinal, RowOf(env, r))
      <==> PredicateTruth(v.engine, visibleIf, RowOf(env, r), v.session) == True;
  }

  lemma {:induction false} PermitAllAgree(
    v: RoleView, selected: Selected, params: Bindings, db: Database,
    projections: seq<BoundProjection>, values: Bindings, env: Env)
    requires v.Valid() && Within(selected, v.policies) && SessionOnly(values, v.session)
    requires forall p: BoundProjection | p in projections :: Shape(p.expression, false)
    requires PermitProjections(projections, selected, v.session, values).Ok?
    requires var (out, values') := PermitProjections(projections, selected, v.session, values).value;
             Within(values', params) && CheckProjections(out, selected, RegularColumns(selected)).Ok?
    ensures ProjectedValues(RealCtx(v, params, db),
            PermitProjections(projections, selected, v.session, values).value.0, env)
         == ProjectedValues(ViewCtx(v, params, db), projections, v.EnvOf(env))
  {
    if projections != [] {
      var (first, values') := PermitProjection(projections[0], selected, v.session, values).value;
      var (rest, _) := PermitProjections(projections[1..], selected, v.session, values').value;
      PermitKeeps([projections[0]], selected, v.session, values);
      PermitKeeps(projections[1..], selected, v.session, values');
      assert PermitProjections([projections[0]], selected, v.session, values).value.1 == values' by {
        assert [projections[0]][1..] == [];
      }
      assert ([first] + rest)[1..] == rest;
      PermitAgrees(v, selected, params, db, projections[0], values, env);
      PermitAllAgree(v, selected, params, db, projections[1..], values', env);
    }
  }

  // ----- What comes after WHERE can read -----

  function ProjectedValues(c: Ctx, projections: seq<BoundProjection>, env: Env): seq<LogicalValue> {
    if projections == [] then []
    else [Eval(c, projections[0].expression, env)] + ProjectedValues(c, projections[1..], env)
  }

  /** Everything the clauses after WHERE evaluate at one row environment. */
  datatype Observation = Observation(
    projected: seq<LogicalValue>, groups: seq<LogicalValue>, having: Option<LogicalValue>, keys: seq<SortKey>)

  function Observe(c: Ctx, s: BoundSelect, env: Env): Observation {
    Observation(ProjectedValues(c, s.projections, env), Cells(env, s.groupBy),
                EvalOption(c, s.having, env), EvalOrders(c, s.orderBy, env))
  }

  function ObserveAll(c: Ctx, s: BoundSelect, envs: seq<Env>): seq<Observation> {
    if envs == [] then [] else [Observe(c, s, envs[0])] + ObserveAll(c, s, envs[1..])
  }

  lemma {:induction false} FreeOrdersAgree(
    v: RoleView, selected: Selected, params: Bindings, db: Database, orders: seq<BoundOrder>, env: Env)
    requires v.Valid() && Within(selected, v.policies)
    requires forall o: BoundOrder | o in orders :: Shape(o.expression, false)
    requires ValidateOrders(orders, RegularColumns(selected)).Ok?
    ensures EvalOrders(RealCtx(v, params, db), orders, env) == EvalOrders(ViewCtx(v, params, db), orders, v.EnvOf(env))
  {
    if orders != [] {
      assert orders[0] in orders;
      FreeAgrees(v, selected, params, db, orders[0].expression, env);
      FreeOrdersAgree(v, selected, params, db, orders[1..], env);
    }
  }

  // ----- The theorem -----

  /** The protected WHERE holds where the client's does on the view and every required row filter does. */
  ghost predicate FilterAgrees(v: RoleView, c: Ctx, cv: Ctx, s: BoundSelect, after: BoundExpr) {
    forall env: Env {:trigger IsTrue(c, after, env)} ::
      IsTrue(c, after, env)
      <==> Satisfies(cv, s.filter, v.EnvOf(env)) && Admitted(v, {s.resource} + InnerResources(s.joins), env)
  }

  lemma FilterPieces(
    v: RoleView, selected: Selected, params: Bindings, db: Database, s: BoundSelect,
    values0: Bindings, filter: Option<BoundExpr>, values1: Bindings, rows: BoundExpr, values2: Bindings,
    after: BoundExpr)
    requires v.Valid() && Within(selected, v.policies) && s.resource in selected
    requires SessionOnly(values0, v.session)
    requires s.filter.Some? ==> Shape(s.filter.value, true)
    requires ValidateOption(s.filter, RegularColumns(selected)).Ok?
    requires ProtectOption(s.filter, selected, v.session, values0) == Ok((filter, values1))
    requires Instantiate(selected[s.resource].rowFilter, v.session, values1) == Ok((rows, values2))
    requires Within(values1, params) && Within(values2, params)
    requires Gained(v, RealCtx(v, params, db), s.joins, after, AndOptional(filter, rows))
    ensures FilterAgrees(v, RealCtx(v, params, db), ViewCtx(v, params, db), s, after)
  {
    var c, cv := RealCtx(v, params, db), ViewCtx(v, params, db);
    ProtectOptionKeeps(s.filter, selected, v.session, values0);
    forall env: Env
      ensures Satisfies(c, filter, env) <==> Satisfies(cv, s.filter, v.EnvOf(env))
      ensures IsTrue(c, rows, env) <==> v.Shows(s.resource, RowOf(env, s.resource))
    {
      InstantiateMeaning(selected[s.resource].rowFilter, s.resource, v.session, values1, c, env);
      if s.filter.Some? {
        ProtectAgrees(v, selected, params, db, s.filter.value, true, values0, env);
      }
    }
    FilterFrom(v, c, cv, s, filter, rows, after);
  }

  lemma FilterFrom(
    v: RoleView, c: Ctx, cv: Ctx, s: BoundSelect, filter: Option<BoundExpr>, rows: BoundExpr, after: BoundExpr)
    requires forall env: Env {:trigger Satisfies(c, filter, env)} :: Satisfies(c, filter, env) <==>
             Satisfies(cv, s.filter, v.EnvOf(env))
    requires forall env: Env {:trigger IsTrue(c, rows, env)} :: IsTrue(c, rows, env) <==>
             v.Shows(s.resource, RowOf(env, s.resource))
    requires Gained(v, c, s.joins, after, AndOptional(filter, rows))
    ensures FilterAgrees(v, c, cv, s, after)
  {
    forall env: Env
      ensures IsTrue(c, after, env)
         <==> Satisfies(cv, s.filter, v.EnvOf(env)) && Admitted(v, {s.resource} + InnerResources(s.joins), env)
    {
      AndOptionalTrue(c, filter, rows, env);
      AdmittedUnion(v, s.resource, InnerResources(s.joins), env);
      assert IsTrue(c, after, env)
        <==> IsTrue(c, AndOptional(filter, rows), env) && Admitted(v, InnerResources(s.joins), env);
      assert IsTrue(c, rows, env) <==> v.Shows(s.resource, RowOf(env, s.resource));
    }
  }

  lemma CompiledFilter(
    v: RoleView, bundle: PolicyBundle, s: BoundSelect, params: Bindings, db: Database, plan: ProtectedPlan<BoundSelect>)
    requires v == ViewOf(bundle, v.engine, v.session) && v.Valid() && WellBound(s)
    requires CompileSelect(bundle, s, v.session) == Ok(plan) && Within(plan.serverValues, params)
    ensures plan.statement.filter.Some? && plan.statement.resource == s.resource && s.resource in v.policies
    ensures FilterAgrees(v, RealCtx(v, params, db), ViewCtx(v, params, db), s, plan.statement.filter.value)
    ensures JoinsAgree(v, RealCtx(v, params, db), ViewCtx(v, params, db), plan.statement.joins, s.joins)
  {
    var p := PiecesOf(bundle, s, v.session);
    CompiledPieces(bundle, s, v.session, plan);
    CompiledValues(bundle, s, v.session, plan);
    CompiledWithin(v, bundle, s, params, plan);
    SelectChecked(s, plan.statement.projections, p.selected);
    CompiledFrom(v, p.selected, params, db, s, p.values0, p.filter, p.values1, p.rows, p.values2,
                 plan.statement.joins, plan.statement.filter.value, plan.serverValues);
  }

  /** The same from the steps, without looking into the compilation. */
  lemma CompiledFrom(
    v: RoleView, selected: Selected, params: Bindings, db: Database, s: BoundSelect,
    values0: Bindings, filter: Option<BoundExpr>, values1: Bindings, rows: BoundExpr, values2: Bindings,
    joins: seq<BoundJoin>, after: BoundExpr, values3: Bindings)
    requires v.Valid() && Within(selected, v.policies) && s.resource in selected && WellBound(s)
    requires SessionOnly(values0, v.session) && SessionOnly(values2, v.session)
    requires ValidateOption(s.filter, RegularColumns(selected)).Ok?
    requires ValidateJoins(s.joins, RegularColumns(selected)).Ok?
    requires ProtectOption(s.filter, selected, v.session, values0) == Ok((filter, values1))
    requires Instantiate(selected[s.resource].rowFilter, v.session, values1) == Ok((rows, values2))
    requires ProtectJoins(s.joins, AndOptional(filter, rows), selected, v.session, values2)
             == Ok((joins, after, values3))
    requires Within(values1, params) && Within(values2, params) && Within(values3, params)
    ensures FilterAgrees(v, RealCtx(v, params, db), ViewCtx(v, params, db), s, after)
    ensures JoinsAgree(v, RealCtx(v, params, db), ViewCtx(v, params, db), joins, s.joins)
  {
    ProtectJoinsMeaning(v, selected, params, db, s.joins, AndOptional(filter, rows), values2);
    FilterPieces(v, selected, params, db, s, values0, filter, values1, rows, values2, after);
  }

  /** The steps of a compilation: what each produced. */
  datatype Pieces = Pieces(
    selected: Selected, values0: Bindings, filter: Option<BoundExpr>, values1: Bindings, rows: BoundExpr,
    values2: Bindings)

  ghost function PiecesOf(bundle: PolicyBundle, s: BoundSelect, session: TrustedSession): Pieces
    requires CompileSelect(bundle, s, session).Ok?
  {
    var selected := SelectPolicies(bundle, QueryResources(s), session.role).value;
    var values0 := PermitProjections(s.projections, selected, session, map[]).value.1;
    var (filter, values1) := ProtectOption(s.filter, selected, session, values0).value;
    var (rows, values2) := Instantiate(selected[s.resource].rowFilter, session, values1).value;
    Pieces(selected, values0, filter, values1, rows, values2)
  }

  lemma CompiledPieces(bundle: PolicyBundle, s: BoundSelect, session: TrustedSession, plan: ProtectedPlan<BoundSelect>)
    requires CompileSelect(bundle, s, session) == Ok(plan)
    ensures var p := PiecesOf(bundle, s, session);
            && SelectPolicies(bundle, QueryResources(s), session.role) == Ok(p.selected) && s.resource in p.selected
            && PermitProjections(s.projections, p.selected, session, map[])
                == Ok((plan.statement.projections, p.values0))
            && CheckSelect(s, plan.statement.projections, p.selected).Ok?
            && ProtectOption(s.filter, p.selected, session, p.values0) == Ok((p.filter, p.values1))
            && Instantiate(p.selected[s.resource].rowFilter, session, p.values1) == Ok((p.rows, p.values2))
            && plan.statement.filter.Some?
            && ProtectJoins(s.joins, AndOptional(p.filter, p.rows), p.selected, session, p.values2)
               == Ok((plan.statement.joins, plan.statement.filter.value, plan.serverValues))
    ensures plan.statement.resource == s.resource && plan.statement.groupBy == s.groupBy
    ensures plan.statement.having == s.having && plan.statement.orderBy == s.orderBy
  {
    var p := PiecesOf(bundle, s, session);
    var permitted := PermitProjections(s.projections, p.selected, session, map[]).value;
    var filtered := ProtectOption(s.filter, p.selected, session, p.values0).value;
    var filter := Instantiate(p.selected[s.resource].rowFilter, session, p.values1).value;
    assert permitted == (permitted.0, permitted.1) && filtered == (filtered.0, filtered.1) &&
           filter == (filter.0, filter.1);
  }

  /** Every step binds only session values, all of them among the plan's. */
  lemma CompiledValues(bundle: PolicyBundle, s: BoundSelect, session: TrustedSession, plan: ProtectedPlan<BoundSelect>)
    requires CompileSelect(bundle, s, session) == Ok(plan)
    ensures var p := PiecesOf(bundle, s, session);
            && SessionOnly(p.values0, session) && SessionOnly(p.values1, session) && SessionOnly(p.values2, session)
            && SessionOnly(plan.serverValues, session)
            && Within(p.values0, plan.serverValues) && Within(p.values1, plan.serverValues)
            && Within(p.values2, plan.serverValues)
  {
    CompiledPieces(bundle, s, session, plan);
    var p := PiecesOf(bundle, s, session);
    PermitKeeps(s.projections, p.selected, session, map[]);
    ProtectOptionKeeps(s.filter, p.selected, session, p.values0);
    InstantiateKeeps(p.selected[s.resource].rowFilter, session, p.values1);
    ProtectJoinsKeeps(s.joins, AndOptional(p.filter, p.rows), p.selected, session, p.values2);
    WithinTransitive(p.values1, p.values2, plan.serverValues);
    WithinTransitive(p.values0, p.values1, plan.serverValues);
  }

  /** The policies of a compilation are the view's. */
  lemma CompiledWithin(
    v: RoleView, bundle: PolicyBundle, s: BoundSelect, params: Bindings, plan: ProtectedPlan<BoundSelect>)
    requires v == ViewOf(bundle, v.engine, v.session)
    requires CompileSelect(bundle, s, v.session) == Ok(plan) && Within(plan.serverValues, params)
    ensures var p := PiecesOf(bundle, s, v.session);
            && Within(p.selected, v.policies)
            && Within(p.values0, params) && Within(p.values1, params) && Within(p.values2, params)
  {
    var p := PiecesOf(bundle, s, v.session);
    CompiledPieces(bundle, s, v.session, plan);
    CompiledValues(bundle, s, v.session, plan);
    SelectPoliciesWithin(bundle, QueryResources(s), v.engine, v.session);
    WithinTransitive(p.values2, plan.serverValues, params);
    WithinTransitive(p.values1, plan.serverValues, params);
    WithinTransitive(p.values0, plan.serverValues, params);
  }

  lemma AdmittedUnion(v: RoleView, r: ResourceId, rest: set<ResourceId>, env: Env)
    ensures Admitted(v, {r} + rest, env) <==> v.Shows(r, RowOf(env, r)) && Admitted(v, rest, env)
  {
    assert r in {r} + rest;
    assert forall x | x in rest :: x in {r} + rest;
  }

  lemma {:induction false} EnvsOfPick(v: RoleView, envs: seq<Env>, p: Env -> bool, q: Env -> bool)
    requires forall env | env in envs :: p(env) <==> q(v.EnvOf(env))
    ensures v.EnvsOf(Pick(envs, p)) == Pick(v.EnvsOf(envs), q)
  {
    if envs != [] {
      var rest := envs[1..];
      EnvsOfPick(v, rest, p, q);
      PickCons(v.EnvOf(envs[0]), v.EnvsOf(rest), q);
      if p(envs[0]) {
        EnvsOfConcat(v, [envs[0]], Pick(rest, p));
      } else {
        assert Pick(envs, p) == Pick(rest, p);
      }
    }
  }

  /**
    * View theorem, row environments: what FROM, JOIN and WHERE of the compiled select produce on
    * the real database is, seen through the view, exactly what the client's select produces on it.
    */
  lemma ViewEnvironments(
    v: RoleView, bundle: PolicyBundle, s: BoundSelect, params: Bindings, db: Database, plan: ProtectedPlan<BoundSelect>)
    requires v == ViewOf(bundle, v.engine, v.session) && v.Valid() && WellBound(s)
    requires CompileSelect(bundle, s, v.session) == Ok(plan) && Within(plan.serverValues, params)
    ensures v.EnvsOf(SelectEnvs(RealCtx(v, params, db), plan.statement, db, map[]))
         == SelectEnvs(ViewCtx(v, params, db), s, v.DatabaseOf(db), map[])
  {
    CompiledFilter(v, bundle, s, params, db, plan);
    EnvironmentsFrom(v, RealCtx(v, params, db), ViewCtx(v, params, db), s, plan.statement, db);
  }

  lemma EnvironmentsFrom(v: RoleView, c: Ctx, cv: Ctx, s: BoundSelect, protected: BoundSelect, db: Database)
    requires protected.resource == s.resource && s.resource in v.policies
    requires forall i | 0 <= i < |s.joins| :: s.joins[i].resource != s.resource
    requires forall i, j | 0 <= i < j < |s.joins| :: s.joins[i].resource != s.joins[j].resource
    requires protected.filter.Some? && FilterAgrees(v, c, cv, s, protected.filter.value)
    requires JoinsAgree(v, c, cv, protected.joins, s.joins)
    ensures v.EnvsOf(SelectEnvs(c, protected, db, map[])) == SelectEnvs(cv, s, v.DatabaseOf(db), map[])
  {
    var start := Extend(map[], s.resource, Rows(db, s.resource));
    var joined := JoinAll(c, protected.joins, db, start);
    var admitted := AdmittedBy(v, {s.resource} + InnerResources(s.joins));
    var client := Passes(cv, s.filter);

    // The joins that show every required row are the joins on the view.
    JoinAllView(v, c, cv, protected.joins, s.joins, db, {s.resource}, start);
    RootView(v, s.resource, db);

    // The protected WHERE is "admitted, then the client's condition on the view".
    WhereView(v, c, cv, s, protected.filter.value, joined);
    WhereIsPick(cv, s.filter, v.EnvsOf(Pick(joined, admitted)));
  }

  lemma RootView(v: RoleView, r: ResourceId, db: Database)
    requires r in v.policies
    ensures v.EnvsOf(Pick(Extend(map[], r, Rows(db, r)), AdmittedBy(v, {r})))
         == Extend(map[], r, Rows(v.DatabaseOf(db), r))
  {
    var empty: Env := map[];
    var all := (e: Env) => true;
    var rows := v.RowsOf(r, Rows(db, r));
    forall row | row in Rows(db, r)
      ensures AdmittedBy(v, {r})(empty[r := row]) <==> v.Shows(r, row) && all(v.EnvOf(empty[r := row]))
    {
      assert RowOf(empty[r := row], r) == row;
    }
    PickView(v, AdmittedBy(v, {r}), all, r, Rows(db, r), empty);
    assert Rows(v.DatabaseOf(db), r) == rows;
    assert v.EnvOf(empty) == empty;
    PickAll(Extend(empty, r, rows), all);
  }

  lemma WhereView(v: RoleView, c: Ctx, cv: Ctx, s: BoundSelect, after: BoundExpr, envs: seq<Env>)
    requires FilterAgrees(v, c, cv, s, after)
    ensures v.EnvsOf(Keep(c, after, envs))
         == Pick(v.EnvsOf(Pick(envs, AdmittedBy(v, {s.resource} + InnerResources(s.joins)))), Passes(cv, s.filter))
  {
    var admitted := AdmittedBy(v, {s.resource} + InnerResources(s.joins));
    var client := Passes(cv, s.filter);
    var seen := (e: Env) => client(v.EnvOf(e));
    KeepIsPick(c, after, envs);
    forall env | env in envs
      ensures Passes(c, Some(after))(env) == Both(admitted, seen)(env)
    {
      assert IsTrue(c, after, env)
        <==> Satisfies(cv, s.filter, v.EnvOf(env)) && Admitted(v, {s.resource} + InnerResources(s.joins), env);
    }
    PickSame(envs, Passes(c, Some(after)), Both(admitted, seen));
    PickTwice(envs, admitted, seen);
    EnvsOfPick(v, Pick(envs, admitted), seen, client);
  }

  /** View theorem, values: projections, grouping, HAVING and ordering agree at every environment. */
  lemma ViewValues(
    v: RoleView, bundle: PolicyBundle, s: BoundSelect, params: Bindings, db: Database,
    plan: ProtectedPlan<BoundSelect>, env: Env)
    requires v == ViewOf(bundle, v.engine, v.session) && v.Valid() && WellBound(s)
    requires CompileSelect(bundle, s, v.session) == Ok(plan) && Within(plan.serverValues, params)
    ensures Observe(RealCtx(v, params, db), plan.statement, env) == Observe(ViewCtx(v, params, db), s, v.EnvOf(env))
  {
    var selected := PiecesOf(bundle, s, v.session).selected;
    CompiledPieces(bundle, s, v.session, plan);
    CompiledWithin(v, bundle, s, params, plan);
    SelectChecked(s, plan.statement.projections, selected);
    PermitAllAgree(v, selected, params, db, s.projections, map[], env);
    CellsAgree(v, selected, s.groupBy, env);
    FreeOrdersAgree(v, selected, params, db, s.orderBy, env);
    if s.having.Some? {
      FreeAgrees(v, selected, params, db, s.having.value, env);
    }
  }

  /** What an accepted select was checked for, besides its condition and joins. */
  lemma SelectChecked(s: BoundSelect, projections: seq<BoundProjection>, selected: Selected)
    requires CheckSelect(s, projections, selected).Ok?
    ensures ValidateOption(s.filter, RegularColumns(selected)).Ok?
    ensures ValidateOption(s.having, RegularColumns(selected)).Ok?
    ensures ValidateOrders(s.orderBy, RegularColumns(selected)).Ok?
    ensures ValidateJoins(s.joins, RegularColumns(selected)).Ok?
    ensures CheckProjections(projections, selected, RegularColumns(selected)).Ok?
    ensures forall column | column in s.groupBy :: column.id in RegularColumns(selected)
  {
  }

  lemma {:induction false} ObserveAllAgree(
    v: RoleView, bundle: PolicyBundle, s: BoundSelect, params: Bindings, db: Database,
    plan: ProtectedPlan<BoundSelect>, envs: seq<Env>)
    requires v == ViewOf(bundle, v.engine, v.session) && v.Valid() && WellBound(s)
    requires CompileSelect(bundle, s, v.session) == Ok(plan) && Within(plan.serverValues, params)
    ensures ObserveAll(RealCtx(v, params, db), plan.statement, envs)
         == ObserveAll(ViewCtx(v, params, db), s, v.EnvsOf(envs))
  {
    if envs != [] {
      ViewValues(v, bundle, s, params, db, plan, envs[0]);
      ObserveAllAgree(v, bundle, s, params, db, plan, envs[1..]);
    }
  }

  /** All that a compiled select lets anything after WHERE see. */
  function Answer(c: Ctx, s: BoundSelect, db: Database): seq<Observation> {
    ObserveAll(c, s, SelectEnvs(c, s, db, map[]))
  }

  /** The view theorem: the compiled select's answer on the real database is the client's answer on the view. */
  lemma ViewAnswer(
    v: RoleView, bundle: PolicyBundle, s: BoundSelect, params: Bindings, db: Database, plan: ProtectedPlan<BoundSelect>)
    requires v == ViewOf(bundle, v.engine, v.session) && v.Valid() && WellBound(s)
    requires CompileSelect(bundle, s, v.session) == Ok(plan) && Within(plan.serverValues, params)
    ensures Answer(RealCtx(v, params, db), plan.statement, db) == Answer(ViewCtx(v, params, db), s, v.DatabaseOf(db))
  {
    ViewEnvironments(v, bundle, s, params, db, plan);
    ObserveAllAgree(v, bundle, s, params, db, plan, SelectEnvs(RealCtx(v, params, db), plan.statement, db, map[]));
  }

  /** Two databases that look alike to the role give the same answer to every accepted select. */
  lemma Noninterference(
    v: RoleView, bundle: PolicyBundle, s: BoundSelect, params: Bindings, db1: Database, db2: Database,
    plan: ProtectedPlan<BoundSelect>)
    requires v == ViewOf(bundle, v.engine, v.session) && v.Valid() && WellBound(s)
    requires CompileSelect(bundle, s, v.session) == Ok(plan) && Within(plan.serverValues, params)
    requires v.DatabaseOf(db1) == v.DatabaseOf(db2)
    ensures Answer(RealCtx(v, params, db1), plan.statement, db1) == Answer(RealCtx(v, params, db2), plan.statement, db2)
  {
    ViewAnswer(v, bundle, s, params, db1, plan);
    ViewAnswer(v, bundle, s, params, db2, plan);
    SameNested(v, db1, db2);
  }

  lemma SameNested(v: RoleView, db1: Database, db2: Database)
    requires v.DatabaseOf(db1) == v.DatabaseOf(db2)
    ensures v.NestedOf(db1) == v.NestedOf(db2)
  {
    forall r
      ensures r in v.NestedOf(db1) <==> r in v.NestedOf(db2)
      ensures r in v.NestedOf(db1) ==> v.NestedOf(db1)[r] == v.NestedOf(db2)[r]
    {
      assert r in v.DatabaseOf(db1) <==> r in v.DatabaseOf(db2);
      assert r in v.DatabaseOf(db1) ==> v.DatabaseOf(db1)[r] == v.DatabaseOf(db2)[r];
    }
  }

  /** EXISTS reads the same view as FROM exactly when no resource with a limit of zero has a row the role sees. */
  lemma NestedViewIsView(v: RoleView, db: Database)
    ensures v.NestedOf(db) == v.DatabaseOf(db) <==> !v.HidesRows(db)
  {
    if v.NestedOf(db) == v.DatabaseOf(db) {
      forall r | r in db && r in v.policies && v.policies[r].limit == Some(0)
        ensures v.RowsOf(r, db[r]) == []
      {
        assert v.NestedOf(db)[r] == v.DatabaseOf(db)[r];
      }
    }
  }

  /** Then a compiled select is the client's select on the view throughout, nested selects included. */
  lemma WholeViewAnswer(
    v: RoleView, bundle: PolicyBundle, s: BoundSelect, params: Bindings, db: Database, plan: ProtectedPlan<BoundSelect>)
    requires v == ViewOf(bundle, v.engine, v.session) && v.Valid() && WellBound(s) && !v.HidesRows(db)
    requires CompileSelect(bundle, s, v.session) == Ok(plan) && Within(plan.serverValues, params)
    ensures Answer(RealCtx(v, params, db), plan.statement, db)
         == Answer(Ctx(v.engine, params, v.DatabaseOf(db)), s, v.DatabaseOf(db))
  {
    ViewAnswer(v, bundle, s, params, db, plan);
    NestedViewIsView(v, db);
  }

  // ----- The row limit -----

  /** The policy limit is the smallest limit of the resources the select reads. */
  lemma {:induction false} MinLimitIsLeast(selected: Selected, resources: seq<ResourceId>)
    ensures var limits := set r | r in resources && r in selected && selected[r].limit.Some? :: selected[r].limit.value;
            match MinLimit(selected, resources)
            case None => limits == {}
            case Some(n) => n in limits && forall m | m in limits :: n <= m
  {
    if resources != [] {
      MinLimitIsLeast(selected, resources[1..]);
      var rest := set r | r in resources[1..] && r in selected && selected[r].limit.Some? :: selected[r].limit.value;
      var first: set<nat> :=
        if resources[0] in selected && selected[resources[0]].limit.Some? then
          {selected[resources[0]].limit.value}
        else {};
      var limits := set r | r in resources && r in selected && selected[r].limit.Some? :: selected[r].limit.value;
      assert resources == [resources[0]] + resources[1..];
      assert limits == first + rest;
    }
  }

  /**
    * The rewritten limit cuts the client's own window to the policy limit, for every result, exactly
    * when the client's limit is not negative; a negative bound value switches both limits off.
    */
  lemma RewrittenLimit(c: Ctx, client: BoundExpr, policyLimit: nat, env: Env, offset: Option<LogicalValue>)
    requires Eval(c, client, env).Int64?
    ensures Eval(c, client, env).integer >= 0
       <==> forall items: seq<Env> ::
              Truncate(items, EvalOption(c, LimitWith(Some(client), Some(policyLimit)), env), offset)
              == Truncate(Truncate(items, EvalOption(c, Some(client), env), offset),
                  Some(Int64(PolicyBound(policyLimit))), None)
  {
    var n, bound := Eval(c, client, env).integer, PolicyBound(policyLimit);
    RewrittenLimitValue(c, client, policyLimit, env);
    assert EvalOption(c, Some(client), env) == Some(Int64(n));
    CutTwice(n, bound, offset);
  }

  lemma CutTwice(n: Integer64, bound: Integer64, offset: Option<LogicalValue>)
    requires bound >= 0
    ensures n >= 0
       <==> forall items: seq<Env> ::
              Truncate(items, Some(Int64(Smaller(n, bound))), offset)
              == Truncate(Truncate(items, Some(Int64(n)), offset), Some(Int64(bound)), None)
  {
    if n >= 0 {
      forall items: seq<Env>
        ensures Truncate(items, Some(Int64(Smaller(n, bound))), offset)
             == Truncate(Truncate(items, Some(Int64(n)), offset), Some(Int64(bound)), None)
      {
        TakeTwice(Truncate(items, None, offset), n, bound);
      }
    } else {
      NegativeLimitIsUnbounded(n, bound, offset);
    }
  }

  lemma TakeTwice<T>(items: seq<T>, n: Integer64, bound: Integer64)
    requires n >= 0 && bound >= 0
    ensures var first := if n < |items| then items[..n] else items;
            (if Smaller(n, bound) < |items| then items[..Smaller(n, bound)] else items)
            == if bound < |first| then first[..bound] else first
  {
  }

  function Smaller(a: Integer64, b: Integer64): Integer64 {
    if a <= b then a else b
  }

  lemma RewrittenLimitValue(c: Ctx, client: BoundExpr, policyLimit: nat, env: Env)
    requires Eval(c, client, env).Int64?
    ensures EvalOption(c, LimitWith(Some(client), Some(policyLimit)), env)
         == Some(Int64(Smaller(Eval(c, client, env).integer, PolicyBound(policyLimit))))
  {
    var bound := Literal(Int64(PolicyBound(policyLimit)));
    assert Eval(c, bound, env) == Int64(PolicyBound(policyLimit));
    if !(client.Literal? && client.literal.Int64?) {
      assert LimitWith(Some(client), Some(policyLimit)) == Some(Binary(Least, client, bound));
    }
  }

  lemma NegativeLimitIsUnbounded(n: Integer64, bound: Integer64, offset: Option<LogicalValue>)
    requires n < 0 <= bound
    ensures exists items: seq<Env> ::
              Truncate(items, Some(Int64(n)), offset)
              != Truncate(Truncate(items, Some(Int64(n)), offset), Some(Int64(bound)), None)
  {
    var empty: Env := map[];
    var skip := if offset.Some? && offset.value.Int64? && offset.value.integer > 0 then offset.value.integer else 0;
    var many := seq(bound + 1 + skip, i => empty);
    assert |Truncate(many, Some(Int64(n)), offset)| == bound + 1;
    assert |Truncate(Truncate(many, Some(Int64(n)), offset), Some(Int64(bound)), None)| == bound;
  }
}
