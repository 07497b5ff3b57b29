/**
  * The whole pipeline: a select is compiled, given aliases and emitted; evaluating the emitted tree
  * on two databases that look alike to the role yields the same rows, redaction flags included.
  */
module EndToEnd {
  import opened Core
  import opened Ir
  import opened Semantics
  import opened Policy
  import opened View
  import opened Compile
  import opened Instantiation
  import opened Protection
  import opened JoinView
  import opened ViewTheorem
  import opened Results
  import opened Alias
  import opened Emit
  import opened EmitInvariants
  import opened EmitMeaning
  import opened SqlSemantics
  import Sql

  // ----- The emitted result columns -----

  function ColumnNames(columns: seq<Sql.ResultColumn>): seq<string> {
    if columns == [] then []
    else (match columns[0] case Output(_, alias) => [alias] case Star => []) + ColumnNames(columns[1..])
  }

  /** The emitted select list has the layout that the adapter strips. */
  lemma {:induction false} EmittedLayout(em: Emitter, projections: seq<BoundProjection>, index: nat, st: EmitState)
    requires EmitProjections(em, projections, index, st).Ok?
    ensures ColumnNames(EmitProjections(em, projections, index, st).value.0) == EmittedColumns(projections, index)
  {
    if projections != [] {
      var e := projections[0].expression;
      var columns := EmitProjections(em, projections, index, st).value.0;
      var (x, st1) := EmitExpr(em, e, st).value;
      if e.ConditionalOutput? {
        var (condition, st2) := EmitExpr(em, e.visibleIf, st1).value;
        var rest := EmitProjections(em, projections[1..], index + 1, st2).value.0;
        EmittedLayout(em, projections[1..], index + 1, st2);
        assert columns == [columns[0]] + ([columns[1]] + rest);
        assert columns[1..] == [columns[1]] + rest && columns[1..][1..] == rest;
        assert ColumnNames(columns) == [projections[0].outputName] + ColumnNames(columns[1..]);
        assert ColumnNames(columns[1..]) == [VisibilityName(index)] + ColumnNames(rest);
      } else {
        EmittedLayout(em, projections[1..], index + 1, st1);
        assert columns[1..] == EmitProjections(em, projections[1..], index + 1, st1).value.0;
      }
    }
  }

  lemma FlagMeaning(sc: SqlCtx, condition: Sql.Expr, env: NamedEnv)
    ensures SqlEval(sc, FlagOf(condition), env) == Boolean(SqlIsTrue(sc, condition, env))
  {
    CaseMeaning(sc, condition, Sql.Literal(Sql.TrueToken), Sql.Literal(Sql.FalseToken), env);
    TokenMeaning(sc, Sql.TrueToken, env);
    TokenMeaning(sc, Sql.FalseToken, env);
  }

  lemma OutputCons(sc: SqlCtx, x: Sql.Expr, alias: string, rest: seq<Sql.ResultColumn>, env: NamedEnv)
    ensures OutputValues(sc, [Sql.Output(x, alias)] + rest, env) == [SqlEval(sc, x, env)] + OutputValues(sc, rest, env)
  {
    assert ([Sql.Output(x, alias)] + rest)[1..] == rest;
  }

  /** One projection's emitted columns: its value, and its flag if it is a conditional output. */
  lemma ConditionalOutputs(
    em: Emitter, e: BoundExpr, st: EmitState, c: Ctx, sc: SqlCtx, env: Env, named: NamedEnv)
    requires Agree(em, c, sc) && Good(st) && NamedEnvOf(em, env, named)
    requires e.ConditionalOutput? && EmitExpr(em, e, st).Ok?
    requires EmitExpr(em, e.visibleIf, EmitExpr(em, e, st).value.1).Ok?
    requires Within(EmitExpr(em, e.visibleIf, EmitExpr(em, e, st).value.1).value.1.serverParameters, c.params)
    ensures var (x, st1) := EmitExpr(em, e, st).value;
            var condition := EmitExpr(em, e.visibleIf, st1).value.0;
            && SqlEval(sc, x, named) == Eval(c, e, env)
            && SqlEval(sc, FlagOf(condition), named) == Boolean(IsTrue(c, e.visibleIf, env))
  {
    var (x, st1) := EmitExpr(em, e, st).value;
    var condition := EmitExpr(em, e.visibleIf, st1).value.0;
    ExprGrows(em, e, st);
    ExprGrows(em, e.visibleIf, st1);
    ExprMeaning(em, e, st, c, sc, env, named);
    ExprMeaning(em, e.visibleIf, st1, c, sc, env, named);
    FlagMeaning(sc, condition, named);
  }

  /** The emitted select list computes the physical row. */
  lemma {:induction false} OutputsMeaning(
    em: Emitter, projections: seq<BoundProjection>, index: nat, st: EmitState, c: Ctx, sc: SqlCtx, env: Env,
    named: NamedEnv)
    requires Agree(em, c, sc) && Good(st) && NamedEnvOf(em, env, named)
    requires EmitProjections(em, projections, index, st).Ok?
    requires Within(EmitProjections(em, projections, index, st).value.1.serverParameters, c.params)
    ensures OutputValues(sc, EmitProjections(em, projections, index, st).value.0, named)
            == PhysicalRow(c, projections, env)
  {
    if projections != [] {
      var e := projections[0].expression;
      assert projections[0] in projections;
      var st1 := EmitExpr(em, e, st).value.1;
      ExprGrows(em, e, st);
      if e.ConditionalOutput? {
        var st2 := EmitExpr(em, e.visibleIf, st1).value.1;
        ExprGrows(em, e.visibleIf, st1);
        OutputsMeaning(em, projections[1..], index + 1, st2, c, sc, env, named);
        ConditionalStep(em, projections, index, st, c, sc, env, named);
      } else {
        OutputsMeaning(em, projections[1..], index + 1, st1, c, sc, env, named);
        PlainStep(em, projections, index, st, c, sc, env, named);
      }
    }
  }

  lemma PlainEmitted(em: Emitter, projections: seq<BoundProjection>, index: nat, st: EmitState)
    requires projections != [] && !projections[0].expression.ConditionalOutput?
    requires EmitProjections(em, projections, index, st).Ok?
    ensures EmitExpr(em, projections[0].expression, st).Ok?
    ensures var (x, st1) := EmitExpr(em, projections[0].expression, st).value;
            && EmitProjections(em, projections[1..], index + 1, st1).Ok?
            && var (rest, st2) := EmitProjections(em, projections[1..], index + 1, st1).value;
               EmitProjections(em, projections, index, st)
                   == Ok(([Sql.Output(x, projections[0].outputName)] + rest, st2))
  {
  }

  lemma PlainValue(
      em: Emitter, e: BoundExpr, st: EmitState, out: EmitState, c: Ctx, sc: SqlCtx, env: Env, named: NamedEnv)
    requires Agree(em, c, sc) && Good(st) && NamedEnvOf(em, env, named) && EmitExpr(em, e, st).Ok?
    requires Within(EmitExpr(em, e, st).value.1.serverParameters, out.serverParameters)
    requires Within(out.serverParameters, c.params)
    ensures SqlEval(sc, EmitExpr(em, e, st).value.0, named) == Eval(c, e, env)
  {
    WithinTransitive(EmitExpr(em, e, st).value.1.serverParameters, out.serverParameters, c.params);
    ExprMeaning(em, e, st, c, sc, env, named);
  }

  lemma PlainStep(
    em: Emitter, projections: seq<BoundProjection>, index: nat, st: EmitState, c: Ctx, sc: SqlCtx, env: Env,
    named: NamedEnv)
    requires Agree(em, c, sc) && Good(st) && NamedEnvOf(em, env, named)
    requires projections != [] && !projections[0].expression.ConditionalOutput?
    requires EmitProjections(em, projections, index, st).Ok?
    requires Within(EmitProjections(em, projections, index, st).value.1.serverParameters, c.params)
    requires var st1 := EmitExpr(em, projections[0].expression, st).value.1;
             OutputValues(sc, EmitProjections(em, projections[1..], index + 1, st1).value.0, named)
             == PhysicalRow(c, projections[1..], env)
    ensures OutputValues(sc, EmitProjections(em, projections, index, st).value.0, named)
            == PhysicalRow(c, projections, env)
  {
    var e := projections[0].expression;
    PlainEmitted(em, projections, index, st);
    var (x, st1) := EmitExpr(em, e, st).value;
    var (rest, st2) := EmitProjections(em, projections[1..], index + 1, st1).value;
    ExprGrows(em, e, st);
    ProjectionsGrow(em, projections[1..], index + 1, st1);
    PlainValue(em, e, st, st2, c, sc, env, named);
    OutputCons(sc, x, projections[0].outputName, rest, named);
  }

  lemma ConditionalStep(
    em: Emitter, projections: seq<BoundProjection>, index: nat, st: EmitState, c: Ctx, sc: SqlCtx, env: Env,
    named: NamedEnv)
    requires Agree(em, c, sc) && Good(st) && NamedEnvOf(em, env, named)
    requires projections != [] && projections[0].expression.ConditionalOutput?
    requires EmitProjections(em, projections, index, st).Ok?
    requires Within(EmitProjections(em, projections, index, st).value.1.serverParameters, c.params)
    requires var st2 := EmitExpr(em, projections[0].expression.visibleIf,
             EmitExpr(em, projections[0].expression, st).value.1).value.1;
             OutputValues(sc, EmitProjections(em, projections[1..], index + 1, st2).value.0, named)
             == PhysicalRow(c, projections[1..], env)
    ensures OutputValues(sc, EmitProjections(em, projections, index, st).value.0, named)
            == PhysicalRow(c, projections, env)
  {
    var e, name := projections[0].expression, projections[0].outputName;
    var (x, st1) := EmitExpr(em, e, st).value;
    var (condition, st2) := EmitExpr(em, e.visibleIf, st1).value;
    var (rest, st3) := EmitProjections(em, projections[1..], index + 1, st2).value;
    ExprGrows(em, e, st);
    ExprGrows(em, e.visibleIf, st1);
    ProjectionsGrow(em, projections[1..], index + 1, st2);
    WithinTransitive(st2.serverParameters, st3.serverParameters, c.params);
    ConditionalOutputs(em, e, st, c, sc, env, named);
    OutputsPair(sc, x, name, FlagOf(condition), VisibilityName(index), rest, named);
  }

  lemma OutputsPair(
    sc: SqlCtx, x: Sql.Expr, name: string, flag: Sql.Expr, flagName: string, rest: seq<Sql.ResultColumn>, env: NamedEnv)
    ensures OutputValues(sc, [Sql.Output(x, name), Sql.Output(flag, flagName)] + rest, env)
         == [SqlEval(sc, x, env), SqlEval(sc, flag, env)] + OutputValues(sc, rest, env)
  {
    OutputCons(sc, x, name, [Sql.Output(flag, flagName)] + rest, env);
    OutputCons(sc, flag, flagName, rest, env);
    var a, b, others := SqlEval(sc, x, env), SqlEval(sc, flag, env), OutputValues(sc, rest, env);
    assert [a] + ([b] + others) == [a, b] + others;
    assert [Sql.Output(x, name), Sql.Output(flag, flagName)] + rest
           == [Sql.Output(x, name)] + ([Sql.Output(flag, flagName)] + rest);
  }

  /** What the database computes for one row environment, physical flags included. */
  function PhysicalObserve(c: Ctx, s: BoundSelect, env: Env): SqlObservation {
    SqlObservation(PhysicalRow(c, s.projections, env), Cells(env, s.groupBy),
                   EvalOption(c, s.having, env), EvalOrders(c, s.orderBy, env))
  }

  function PhysicalObserveAll(c: Ctx, s: BoundSelect, envs: seq<Env>): seq<SqlObservation> {
    if envs == [] then [] else [PhysicalObserve(c, s, envs[0])] + PhysicalObserveAll(c, s, envs[1..])
  }

  lemma ObserveMeaning(em: Emitter, s: BoundSelect, st: EmitState, c: Ctx, sc: SqlCtx, env: Env, named: NamedEnv)
    requires Agree(em, c, sc) && Good(st) && NamedEnvOf(em, env, named)
    requires EmitSelect(em, s, st).Ok?
    requires Within(EmitSelect(em, s, st).value.1.serverParameters, c.params)
    ensures SqlObserve(sc, EmitSelect(em, s, st).value.0, named) == PhysicalObserve(c, s, env)
  {
    SelectStates(em, s, st, c.params);
    var t := StatesOf(em, s, st);
    var st1, st2, st3, st4, st5, st6, st7 := t.joins, t.groupBy, t.orderBy, t.limit, t.offset, t.projections, t.filter;
    OutputsMeaning(em, s.projections, 0, st5, c, sc, env, named);
    OrdersMeaning(em, s.orderBy, st2, c, sc, env, named);
    var q := EmitSelect(em, s, st).value.0;
    SelectParts(em, s, st, st1, st2, st5);
    GroupObserved(em, s, st1, c, sc, env, named);
  }

  lemma GroupObserved(em: Emitter, s: BoundSelect, st1: EmitState, c: Ctx, sc: SqlCtx, env: Env, named: NamedEnv)
    requires Agree(em, c, sc) && Good(st1) && NamedEnvOf(em, env, named)
    requires EmitGroupBy(em, s.groupBy, s.having, st1).Ok?
    requires Within(EmitGroupBy(em, s.groupBy, s.having, st1).value.1.serverParameters, c.params)
    ensures var g := EmitGroupBy(em, s.groupBy, s.having, st1).value.0;
            && (match g case None => [] case Some(x) => SqlEvalAll(sc, x.exprs, named)) == Cells(env, s.groupBy)
            && (match g case None => None case Some(x) => SqlEvalOption(sc, x.having, named))
                == EvalOption(c, s.having, env)
  {
    if s.groupBy == [] && s.having.None? {
      assert Cells(env, s.groupBy) == [];
    } else {
      GroupMeaning(em, s, st1, c, sc, env, named);
    }
  }

  /** Where the pieces of an emitted select come from. */
  lemma SelectParts(em: Emitter, s: BoundSelect, st: EmitState, st1: EmitState, st2: EmitState, st5: EmitState)
    requires EmitSelect(em, s, st).Ok?
    requires EmitJoins(em, s.joins, st).Ok? && st1 == EmitJoins(em, s.joins, st).value.1
    requires EmitGroupBy(em, s.groupBy, s.having, st1).Ok? && st2 == EmitGroupBy(em, s.groupBy, s.having, st1).value.1
    requires EmitOrders(em, s.orderBy, st2).Ok? && EmitOption(em, s.limit, EmitOrders(em, s.orderBy, st2).value.1).Ok?
    requires EmitOption(em, s.offset, EmitOption(em, s.limit, EmitOrders(em, s.orderBy, st2).value.1).value.1).Ok?
    requires st5 == EmitOption(em, s.offset,
             EmitOption(em, s.limit, EmitOrders(em, s.orderBy, st2).value.1).value.1).value.1
    requires EmitProjections(em, s.projections, 0, st5).Ok?
    ensures var q := EmitSelect(em, s, st).value.0;
            && q.body.Query?
            && q.body.columns == EmitProjections(em, s.projections, 0, st5).value.0
            && q.body.groupBy == EmitGroupBy(em, s.groupBy, s.having, st1).value.0
            && q.orderBy == EmitOrders(em, s.orderBy, st2).value.0
  {
  }

  lemma GroupMeaning(em: Emitter, s: BoundSelect, st1: EmitState, c: Ctx, sc: SqlCtx, env: Env, named: NamedEnv)
    requires Agree(em, c, sc) && Good(st1) && NamedEnvOf(em, env, named)
    requires !(s.groupBy == [] && s.having.None?)
    requires EmitGroupBy(em, s.groupBy, s.having, st1).Ok?
    requires Within(EmitGroupBy(em, s.groupBy, s.having, st1).value.1.serverParameters, c.params)
    ensures var g := EmitGroupBy(em, s.groupBy, s.having, st1).value.0;
            && g.Some?
            && SqlEvalAll(sc, g.value.exprs, named) == Cells(env, s.groupBy)
            && SqlEvalOption(sc, g.value.having, named) == EvalOption(c, s.having, env)
  {
    ColumnsMeaning(em, s.groupBy, sc, env, named);
    if s.having.Some? {
      ExprMeaning(em, s.having.value, st1, c, sc, env, named);
    }
  }

  lemma {:induction false} ObserveAllMeaning(
    em: Emitter, s: BoundSelect, st: EmitState, c: Ctx, sc: SqlCtx, envs: seq<Env>, named: seq<NamedEnv>)
    requires Agree(em, c, sc) && Good(st) && NamedEnvsOf(em, envs, named)
    requires EmitSelect(em, s, st).Ok?
    requires Within(EmitSelect(em, s, st).value.1.serverParameters, c.params)
    ensures SqlObserveAll(sc, EmitSelect(em, s, st).value.0, named) == PhysicalObserveAll(c, s, envs)
  {
    if envs != [] {
      ObserveMeaning(em, s, st, c, sc, envs[0], named[0]);
      ObserveAllMeaning(em, s, st, c, sc, envs[1..], named[1..]);
    }
  }

  /** Emission preserves a whole select: the emitted query's answer is the bound select's, for any good start. */
  lemma EmissionPreservesAnswer(em: Emitter, s: BoundSelect, st: EmitState, c: Ctx, sc: SqlCtx)
    requires Agree(em, c, sc) && Good(st)
    requires EmitSelect(em, s, st).Ok?
    requires Within(EmitSelect(em, s, st).value.1.serverParameters, c.params)
    ensures SqlAnswer(sc, EmitSelect(em, s, st).value.0) == PhysicalObserveAll(c, s, SelectEnvs(c, s, c.nested, map[]))
  {
    var q := EmitSelect(em, s, st).value.0;
    EnvsMeaning(em, s, st, c, sc, map[], map[]);
    ObserveAllMeaning(em, s, st, c, sc, SelectEnvs(c, s, c.nested, map[]), QueryEnvs(sc, q, map[]));
  }

  // ----- Visibility flags are part of the view -----

  /** A row holds a cell for each of a resource's conditional columns. */
  predicate CompleteRow(policy: SelectPolicy, r: ResourceId, row: Row) {
    forall column | column in policy.conditional :: column.resource == r && column.ordinal in row
  }

  predicate CompleteRows(policy: SelectPolicy, r: ResourceId, rows: seq<Row>) {
    forall row | row in rows :: CompleteRow(policy, r, row)
  }

  /** Conditional columns are never NULL-able in the catalog, so their cells are always present. */
  predicate Complete(v: RoleView, db: Database) {
    forall r | r in v.policies :: CompleteRows(v.policies[r], r, Rows(db, r))
  }

  /** Each listed resource is bound to one of its rows. */
  ghost predicate BoundToRows(env: Env, resources: set<ResourceId>, db: Database) {
    forall r | r in resources :: r in env && env[r] in Rows(db, r)
  }

  lemma {:induction false} ExtendRows(env: Env, r: ResourceId, rows: seq<Row>)
    ensures forall e | e in Extend(env, r, rows) :: r in e && e[r] in rows
  {
    if rows != [] {
      ExtendRows(env, r, rows[1..]);
    }
  }

  lemma JoinEnvRows(c: Ctx, join: BoundJoin, db: Database, env: Env, resources: set<ResourceId>)
    requires join.resource !in resources && BoundToRows(env, resources, db)
    ensures forall e | e in JoinEnv(c, join, db, env) :: BoundToRows(e, Next(resources, join), db)
  {
    var rows := Extend(env, join.resource, Rows(db, join.resource));
    JoinEnvBinds(c, join, db, env);
    ExtendRows(env, join.resource, Rows(db, join.resource));
    KeepIsPick(c, join.on, rows);
    PickWithin(rows, Passes(c, Some(join.on)));
    forall e | e in JoinEnv(c, join, db, env)
      ensures BoundToRows(e, Next(resources, join), db)
    {
      assert OnlyBinds(e, env, join.resource);
    }
  }

  lemma {:induction false} JoinEachRows(
      c: Ctx, join: BoundJoin, db: Database, envs: seq<Env>, resources: set<ResourceId>)
    requires join.resource !in resources && forall env | env in envs :: BoundToRows(env, resources, db)
    ensures forall e | e in JoinEach(c, join, db, envs) :: BoundToRows(e, Next(resources, join), db)
  {
    if envs != [] {
      JoinEnvRows(c, join, db, envs[0], resources);
      JoinEachRows(c, join, db, envs[1..], resources);
    }
  }

  lemma {:induction false} JoinAllRows(
      c: Ctx, joins: seq<BoundJoin>, db: Database, envs: seq<Env>, resources: set<ResourceId>)
    requires forall env | env in envs :: BoundToRows(env, resources, db)
    requires forall i | 0 <= i < |joins| :: joins[i].resource !in resources
    requires forall i, j | 0 <= i < j < |joins| :: joins[i].resource != joins[j].resource
    ensures forall e | e in JoinAll(c, joins, db, envs) :: BoundToRows(e, resources + InnerResources(joins), db)
    decreases |joins|
  {
    if joins == [] {
      assert resources + InnerResources(joins) == resources;
    } else {
      JoinEachRows(c, joins[0], db, envs, resources);
      JoinAllRows(c, joins[1..], db, JoinEach(c, joins[0], db, envs), Next(resources, joins[0]));
      assert Next(resources, joins[0]) + InnerResources(joins[1..]) == resources + InnerResources(joins);
    }
  }

  /** In every environment of a select the root and each inner join are bound to real rows. */
  lemma SelectRows(c: Ctx, s: BoundSelect, db: Database)
    requires forall i | 0 <= i < |s.joins| :: s.joins[i].resource != s.resource
    requires forall i, j | 0 <= i < j < |s.joins| :: s.joins[i].resource != s.joins[j].resource
    ensures forall e | e in SelectEnvs(c, s, db, map[]) :: BoundToRows(e, {s.resource} + InnerResources(s.joins), db)
  {
    var start := Extend(map[], s.resource, Rows(db, s.resource));
    ExtendRows(map[], s.resource, Rows(db, s.resource));
    JoinAllRows(c, s.joins, db, start, {s.resource});
    WhereIsPick(c, s.filter, JoinAll(c, s.joins, db, start));
    PickWithin(JoinAll(c, s.joins, db, start), Passes(c, s.filter));
  }

  /** The binder resolves a projected column in the statement's own sources. */
  predicate ProjectionsInScope(s: BoundSelect) {
    forall p: BoundProjection | p in s.projections && p.expression.Column? ::
      InScope(s, p.expression.column.id.resource)
  }

  predicate InScope(s: BoundSelect, r: ResourceId) {
    r == s.resource || exists j | j in s.joins :: j.resource == r
  }

  /** A visible conditional cell is present in the view's row, so equal views give equal flags. */
  lemma FlagIsViewed(
    v: RoleView, selected: Selected, params: Bindings, db: Database, column: ColumnId, values: Bindings, env: Env)
    requires v.Valid() && Within(selected, v.policies) && SessionOnly(values, v.session) && Complete(v, db)
    requires column.resource in selected && column !in selected[column.resource].regular
    requires column in selected[column.resource].conditional
    requires BoundToRows(env, {column.resource}, db)
    requires Instantiate(selected[column.resource].conditional[column], v.session, values).Ok?
    requires Within(Instantiate(selected[column.resource].conditional[column], v.session, values).value.1, params)
    ensures IsTrue(RealCtx(v, params, db),
            Instantiate(selected[column.resource].conditional[column], v.session, values).value.0, env)
       <==> column.ordinal in RowOf(v.EnvOf(env), column.resource)
  {
    var r := column.resource;
    var visibleIf := selected[r].conditional[column];
    assert PolicyOwned(v.policies[r], r);
    InstantiateMeaning(visibleIf, r, v.session, values, RealCtx(v, params, db), env);
    assert r in env && env[r] in Rows(db, r);
    assert CompleteRows(v.policies[r], r, Rows(db, r)) && CompleteRow(v.policies[r], r, env[r]);
    assert ColumnId(r, column.ordinal) == column;
  }

  /** Resources whose conditional columns may be projected: the root and the inner joins. */
  lemma ConditionalIsInner(s: BoundSelect, r: ResourceId)
    requires InScope(s, r) && !exists j | j in s.joins :: j.kind == Left && j.resource == r
    ensures r in {s.resource} + InnerResources(s.joins)
  {
    if r != s.resource {
      var j :| j in s.joins && j.resource == r;
      InnerMember(s.joins, j);
    }
  }

  lemma {:induction false} InnerMember(joins: seq<BoundJoin>, j: BoundJoin)
    requires j in joins && j.kind == Inner
    ensures j.resource in InnerResources(joins)
  {
    if joins[0] != j {
      InnerMember(joins[1..], j);
    }
  }

  /** One permitted projection: equal views give equal values. */
  lemma PhysicalValueAgrees(
    v: RoleView, selected: Selected, params: Bindings, db1: Database, db2: Database,
    projection: BoundProjection, values: Bindings, env1: Env, env2: Env)
    requires v.Valid() && Within(selected, v.policies) && SessionOnly(values, v.session)
    requires v.NestedOf(db1) == v.NestedOf(db2) && Shape(projection.expression, false)
    requires PermitProjection(projection, selected, v.session, values).Ok?
    requires Within(PermitProjection(projection, selected, v.session, values).value.1, params)
    requires CheckProjection(PermitProjection(projection, selected, v.session, values).value.0.expression,
                             selected, RegularColumns(selected)).Ok?
    requires v.EnvOf(env1) == v.EnvOf(env2)
    ensures var e := PermitProjection(projection, selected, v.session, values).value.0.expression;
            Eval(RealCtx(v, params, db1), e, env1) == Eval(RealCtx(v, params, db2), e, env2)
  {
    PermitAgrees(v, selected, params, db1, projection, values, env1);
    PermitAgrees(v, selected, params, db2, projection, values, env2);
    assert ViewCtx(v, params, db1) == ViewCtx(v, params, db2);
  }

  /** And, for a conditional output, equal flags. */
  lemma PhysicalFlagAgrees(
    v: RoleView, selected: Selected, params: Bindings, db1: Database, db2: Database, s: BoundSelect,
    projection: BoundProjection, values: Bindings, env1: Env, env2: Env)
    requires v.Valid() && Within(selected, v.policies) && SessionOnly(values, v.session)
    requires Complete(v, db1) && Complete(v, db2)
    requires projection.expression.Column? ==> InScope(s, projection.expression.column.id.resource)
    requires PermitProjection(projection, selected, v.session, values).Ok?
    requires Within(PermitProjection(projection, selected, v.session, values).value.1, params)
    requires OutputAllowed(PermitProjection(projection, selected, v.session, values).value.0.expression, s.joins)
    requires v.EnvOf(env1) == v.EnvOf(env2)
    requires BoundToRows(env1, {s.resource} + InnerResources(s.joins), db1)
    requires BoundToRows(env2, {s.resource} + InnerResources(s.joins), db2)
    ensures var e := PermitProjection(projection, selected, v.session, values).value.0.expression;
            e.ConditionalOutput? ==>
              IsTrue(RealCtx(v, params, db1), e.visibleIf, env1) == IsTrue(RealCtx(v, params, db2), e.visibleIf, env2)
  {
    if PermitProjection(projection, selected, v.session, values).value.0.expression.ConditionalOutput? {
      var column := projection.expression.column.id;
      ConditionalPermit(projection, selected, v.session, values);
      ConditionalIsInner(s, column.resource);
      BoundNarrow(env1, column.resource, {s.resource} + InnerResources(s.joins), db1);
      BoundNarrow(env2, column.resource, {s.resource} + InnerResources(s.joins), db2);
      FlagsAgree(v, selected, params, db1, db2, column, values, env1, env2);
    }
  }

  lemma ConditionalPermit(projection: BoundProjection, selected: Selected, session: TrustedSession, values: Bindings)
    requires PermitProjection(projection, selected, session, values).Ok?
    requires PermitProjection(projection, selected, session, values).value.0.expression.ConditionalOutput?
    ensures projection.expression.Column?
    ensures var column := projection.expression.column.id;
            && column.resource in selected && column !in selected[column.resource].regular
            && column in selected[column.resource].conditional
            && var instance := Instantiate(selected[column.resource].conditional[column], session, values);
               && instance.Ok?
               && PermitProjection(projection, selected, session, values).value.1 == instance.value.1
               && PermitProjection(projection, selected, session, values).value.0.expression
                  == ConditionalOutput(projection.expression, instance.value.0)
  {
  }

  lemma BoundNarrow(env: Env, r: ResourceId, resources: set<ResourceId>, db: Database)
    requires r in resources && BoundToRows(env, resources, db)
    ensures BoundToRows(env, {r}, db)
  {
  }

  lemma FlagsAgree(
    v: RoleView, selected: Selected, params: Bindings, db1: Database, db2: Database,
    column: ColumnId, values: Bindings, env1: Env, env2: Env)
    requires v.Valid() && Within(selected, v.policies) && SessionOnly(values, v.session)
    requires Complete(v, db1) && Complete(v, db2)
    requires column.resource in selected && column !in selected[column.resource].regular
    requires column in selected[column.resource].conditional
    requires BoundToRows(env1, {column.resource}, db1) && BoundToRows(env2, {column.resource}, db2)
    requires Instantiate(selected[column.resource].conditional[column], v.session, values).Ok?
    requires Within(Instantiate(selected[column.resource].conditional[column], v.session, values).value.1, params)
    requires v.EnvOf(env1) == v.EnvOf(env2)
    ensures var visibleIf := Instantiate(selected[column.resource].conditional[column], v.session, values).value.0;
            IsTrue(RealCtx(v, params, db1), visibleIf, env1) == IsTrue(RealCtx(v, params, db2), visibleIf, env2)
  {
    FlagIsViewed(v, selected, params, db1, column, values, env1);
    FlagIsViewed(v, selected, params, db2, column, values, env2);
  }

  lemma {:induction false} PhysicalRowAgrees(
    v: RoleView, selected: Selected, params: Bindings, db1: Database, db2: Database, s: BoundSelect,
    projections: seq<BoundProjection>, values: Bindings, env1: Env, env2: Env)
    requires v.Valid() && Within(selected, v.policies) && SessionOnly(values, v.session)
    requires Complete(v, db1) && Complete(v, db2) && v.NestedOf(db1) == v.NestedOf(db2)
    requires forall p: BoundProjection | p in projections ::
               Shape(p.expression, false) && (p.expression.Column? ==> InScope(s, p.expression.column.id.resource))
    requires PermitProjections(projections, selected, v.session, values).Ok?
    requires Within(PermitProjections(projections, selected, v.session, values).value.1, params)
    requires CheckProjections(PermitProjections(projections, selected, v.session, values).value.0,
                              selected, RegularColumns(selected)).Ok?
    requires forall p: BoundProjection | p in PermitProjections(projections, selected, v.session, values).value.0 ::
               OutputAllowed(p.expression, s.joins)
    requires v.EnvOf(env1) == v.EnvOf(env2)
    requires BoundToRows(env1, {s.resource} + InnerResources(s.joins), db1)
    requires BoundToRows(env2, {s.resource} + InnerResources(s.joins), db2)
    ensures PhysicalRow(RealCtx(v, params, db1), PermitProjections(projections, selected, v.session, values).value.0,
            env1)
         == PhysicalRow(RealCtx(v, params, db2), PermitProjections(projections, selected, v.session, values).value.0,
             env2)
  {
    if projections != [] {
      var (first, values') := PermitProjection(projections[0], selected, v.session, values).value;
      var (rest, _) := PermitProjections(projections[1..], selected, v.session, values').value;
      var all := PermitProjections(projections, selected, v.session, values).value.0;
      assert all == [first] + rest && all[1..] == rest;
      PermitOneKeeps(projections[0], selected, v.session, values);
      PermitKeeps(projections[1..], selected, v.session, values');
      assert projections[0] in projections && first in all;
      assert forall p: BoundProjection | p in rest :: p in all;
      PhysicalValueAgrees(v, selected, params, db1, db2, projections[0], values, env1, env2);
      PhysicalFlagAgrees(v, selected, params, db1, db2, s, projections[0], values, env1, env2);
      PhysicalRowAgrees(v, selected, params, db1, db2, s, projections[1..], values', env1, env2);
    }
  }

  lemma PermitOneKeeps(projection: BoundProjection, selected: Selected, session: TrustedSession, values: Bindings)
    requires SessionOnly(values, session) && PermitProjection(projection, selected, session, values).Ok?
    ensures var values' := PermitProjection(projection, selected, session, values).value.1;
            SessionOnly(values', session) && Within(values, values')
  {
    var e := projection.expression;
    if e.Column? && e.column.id !in selected[e.column.id.resource].regular {
      InstantiateKeeps(selected[e.column.id.resource].conditional[e.column.id], session, values);
    }
  }

  // ----- The end-to-end theorem -----

  lemma PhysicalObserveAgrees(
    v: RoleView, bundle: PolicyBundle, s: BoundSelect, params: Bindings, db1: Database, db2: Database,
    plan: ProtectedPlan<BoundSelect>, env1: Env, env2: Env)
    requires v == ViewOf(bundle, v.engine, v.session) && v.Valid() && WellBound(s) && ProjectionsInScope(s)
    requires CompileSelect(bundle, s, v.session) == Ok(plan) && Within(plan.serverValues, params)
    requires Complete(v, db1) && Complete(v, db2) && v.NestedOf(db1) == v.NestedOf(db2)
    requires v.EnvOf(env1) == v.EnvOf(env2)
    requires BoundToRows(env1, {s.resource} + InnerResources(s.joins), db1)
    requires BoundToRows(env2, {s.resource} + InnerResources(s.joins), db2)
    ensures PhysicalObserve(RealCtx(v, params, db1), plan.statement, env1)
         == PhysicalObserve(RealCtx(v, params, db2), plan.statement, env2)
  {
    ViewValues(v, bundle, s, params, db1, plan, env1);
    ViewValues(v, bundle, s, params, db2, plan, env2);
    assert ViewCtx(v, params, db1) == ViewCtx(v, params, db2);
    PhysicalRowsAgree(v, bundle, s, params, db1, db2, plan, env1, env2);
  }

  lemma PhysicalRowsAgree(
    v: RoleView, bundle: PolicyBundle, s: BoundSelect, params: Bindings, db1: Database, db2: Database,
    plan: ProtectedPlan<BoundSelect>, env1: Env, env2: Env)
    requires v == ViewOf(bundle, v.engine, v.session) && v.Valid() && WellBound(s) && ProjectionsInScope(s)
    requires CompileSelect(bundle, s, v.session) == Ok(plan) && Within(plan.serverValues, params)
    requires Complete(v, db1) && Complete(v, db2) && v.NestedOf(db1) == v.NestedOf(db2)
    requires v.EnvOf(env1) == v.EnvOf(env2)
    requires BoundToRows(env1, {s.resource} + InnerResources(s.joins), db1)
    requires BoundToRows(env2, {s.resource} + InnerResources(s.joins), db2)
    ensures PhysicalRow(RealCtx(v, params, db1), plan.statement.projections, env1)
         == PhysicalRow(RealCtx(v, params, db2), plan.statement.projections, env2)
  {
    var selected := PiecesOf(bundle, s, v.session).selected;
    CompiledPieces(bundle, s, v.session, plan);
    CompiledWithin(v, bundle, s, params, plan);
    SelectChecked(s, plan.statement.projections, selected);
    PhysicalRowAgrees(v, selected, params, db1, db2, s, s.projections, map[], env1, env2);
  }

  lemma {:induction false} PhysicalAllAgree(
    v: RoleView, bundle: PolicyBundle, s: BoundSelect, params: Bindings, db1: Database, db2: Database,
    plan: ProtectedPlan<BoundSelect>, envs1: seq<Env>, envs2: seq<Env>)
    requires v == ViewOf(bundle, v.engine, v.session) && v.Valid() && WellBound(s) && ProjectionsInScope(s)
    requires CompileSelect(bundle, s, v.session) == Ok(plan) && Within(plan.serverValues, params)
    requires Complete(v, db1) && Complete(v, db2) && v.NestedOf(db1) == v.NestedOf(db2)
    requires v.EnvsOf(envs1) == v.EnvsOf(envs2)
    requires forall e | e in envs1 :: BoundToRows(e, {s.resource} + InnerResources(s.joins), db1)
    requires forall e | e in envs2 :: BoundToRows(e, {s.resource} + InnerResources(s.joins), db2)
    ensures PhysicalObserveAll(RealCtx(v, params, db1), plan.statement, envs1)
         == PhysicalObserveAll(RealCtx(v, params, db2), plan.statement, envs2)
  {
    EnvsOfLength(v, envs1);
    EnvsOfLength(v, envs2);
    if envs1 != [] {
      var rest1, rest2 := v.EnvsOf(envs1[1..]), v.EnvsOf(envs2[1..]);
      assert v.EnvsOf(envs1)[1..] == rest1 && v.EnvsOf(envs2)[1..] == rest2;
      assert v.EnvsOf(envs1)[0] == v.EnvOf(envs1[0]) && v.EnvsOf(envs2)[0] == v.EnvOf(envs2[0]);
      PhysicalObserveAgrees(v, bundle, s, params, db1, db2, plan, envs1[0], envs2[0]);
      PhysicalAllAgree(v, bundle, s, params, db1, db2, plan, envs1[1..], envs2[1..]);
    }
  }

  lemma {:induction false} EnvsOfLength(v: RoleView, envs: seq<Env>)
    ensures |v.EnvsOf(envs)| == |envs|
  {
    if envs != [] {
      EnvsOfLength(v, envs[1..]);
    }
  }

  lemma PlanJoins(
      bundle: PolicyBundle, s: BoundSelect, session: TrustedSession, plan: ProtectedPlan<BoundSelect>, v: RoleView)
    requires v == ViewOf(bundle, v.engine, v.session) && v.Valid() && v.session == session && WellBound(s)
    requires CompileSelect(bundle, s, session) == Ok(plan)
    ensures plan.statement.resource == s.resource && |plan.statement.joins| == |s.joins|
    ensures forall i | 0 <= i < |s.joins| ::
              plan.statement.joins[i].resource == s.joins[i].resource && plan.statement.joins[i].kind == s.joins[i].kind
    ensures InnerResources(plan.statement.joins) == InnerResources(s.joins)
  {
    CompiledFilter(v, bundle, s, plan.serverValues, map[], plan);
    var c, cv := RealCtx(v, plan.serverValues, map[]), ViewCtx(v, plan.serverValues, map[]);
    forall i | 0 <= i < |s.joins|
      ensures plan.statement.joins[i].resource == s.joins[i].resource && plan.statement.joins[i].kind == s.joins[i].kind
    {
      assert JoinAgrees(v, c, cv, plan.statement.joins[i], s.joins[i]);
    }
    SameInner(plan.statement.joins, s.joins);
  }

  lemma {:induction false} SameInner(a: seq<BoundJoin>, b: seq<BoundJoin>)
    requires |a| == |b|
    requires forall i | 0 <= i < |a| :: a[i].resource == b[i].resource && a[i].kind == b[i].kind
    ensures InnerResources(a) == InnerResources(b)
  {
    if a != [] {
      SameInner(a[1..], b[1..]);
    }
  }

  /** A compiled plan binds only session values, none of them under a literal name. */
  lemma PlanStartIsGood(v: RoleView, bundle: PolicyBundle, s: BoundSelect, plan: ProtectedPlan<BoundSelect>)
    requires CompileSelect(bundle, s, v.session) == Ok(plan)
    ensures SessionOnly(plan.serverValues, v.session) && Good(Start(plan.serverValues))
  {
    CompiledValues(bundle, s, v.session, plan);
    forall k: nat
      ensures LiteralName(k) !in plan.serverValues
    {
      LiteralIsNotSession(k);
    }
    StartIsGood(plan.serverValues);
  }

  lemma LiteralIsNotSession(k: nat)
    ensures !(SESSION_PREFIX <= LiteralName(k))
  {
    var i := |SERVER_PARAMETER_PREFIX|;
    assert SESSION_PREFIX[i] == 's';
    assert LiteralName(k)[i] == 'l';
  }

  /**
    * End to end. For every accepted select: emit the compiled statement with its own aliases and any
    * bindings of its parameters. On any two databases with the same view for the role, evaluating
    * the emitted tree over the physical tables gives the same answer, redaction flags included.
    */
  lemma EmittedNoninterference(
    v: RoleView, bundle: PolicyBundle, s: BoundSelect, plan: ProtectedPlan<BoundSelect>, em: Emitter,
    q: Sql.Select, out: EmitState, params: Bindings, db1: Database, db2: Database, sc1: SqlCtx, sc2: SqlCtx)
    requires v == ViewOf(bundle, v.engine, v.session) && v.Valid() && WellBound(s) && ProjectionsInScope(s)
    requires CompileSelect(bundle, s, v.session) == Ok(plan)
    requires em.aliases == AliasesFor(plan.statement)
    requires EmitSelect(em, plan.statement, Start(plan.serverValues)) == Ok((q, out))
    requires Within(out.serverParameters, params)
    requires Stores(v, em, params, db1, sc1) && Stores(v, em, params, db2, sc2)
    requires Complete(v, db1) && Complete(v, db2) && v.DatabaseOf(db1) == v.DatabaseOf(db2)
    ensures SqlAnswer(sc1, q) == SqlAnswer(sc2, q)
  {
    SameNested(v, db1, db2);
    var c1, c2 := RealCtx(v, params, db1), RealCtx(v, params, db2);
    PlanBound(v, bundle, s, plan, em, out, params);
    EmittedAnswer(v, bundle, s, plan, em, params, db1, sc1);
    EmittedAnswer(v, bundle, s, plan, em, params, db2, sc2);
    EmittedRows(v, bundle, s, plan, params, db1);
    EmittedRows(v, bundle, s, plan, params, db2);
    PhysicalAllAgree(v, bundle, s, params, db1, db2, plan,
                     SelectEnvs(c1, plan.statement, db1, map[]), SelectEnvs(c2, plan.statement, db2, map[]));
  }

  /** A physical database: the engine and parameters, the rows under their names, doubles as they are printed. */
  ghost predicate Stores(v: RoleView, em: Emitter, params: Bindings, db: Database, sc: SqlCtx) {
    sc.engine == v.engine && sc.params == params && Represents(em, db, sc) && ReadsDoubles(em, sc)
  }

  lemma PlanBound(
    v: RoleView, bundle: PolicyBundle, s: BoundSelect, plan: ProtectedPlan<BoundSelect>, em: Emitter,
    out: EmitState, params: Bindings)
    requires CompileSelect(bundle, s, v.session) == Ok(plan)
    requires EmitSelect(em, plan.statement, Start(plan.serverValues)).Ok?
    requires out == EmitSelect(em, plan.statement, Start(plan.serverValues)).value.1
    requires Within(out.serverParameters, params)
    ensures Within(plan.serverValues, params)
  {
    PlanStartIsGood(v, bundle, s, plan);
    SelectGrows(em, plan.statement, Start(plan.serverValues));
    WithinTransitive(plan.serverValues, out.serverParameters, params);
  }

  /** On one database the emitted query answers as the plan does. */
  lemma EmittedAnswer(
    v: RoleView, bundle: PolicyBundle, s: BoundSelect, plan: ProtectedPlan<BoundSelect>, em: Emitter,
    params: Bindings, db: Database, sc: SqlCtx)
    requires v == ViewOf(bundle, v.engine, v.session) && v.Valid() && WellBound(s)
    requires CompileSelect(bundle, s, v.session) == Ok(plan) && em.aliases == AliasesFor(plan.statement)
    requires EmitSelect(em, plan.statement, Start(plan.serverValues)).Ok?
    requires Within(EmitSelect(em, plan.statement, Start(plan.serverValues)).value.1.serverParameters, params)
    requires Stores(v, em, params, db, sc)
    ensures var c := RealCtx(v, params, db);
            SqlAnswer(sc, EmitSelect(em, plan.statement, Start(plan.serverValues)).value.0)
            == PhysicalObserveAll(c, plan.statement, SelectEnvs(c, plan.statement, db, map[]))
  {
    var st, c := Start(plan.serverValues), RealCtx(v, params, db);
    PlanStartIsGood(v, bundle, s, plan);
    PlanAliases(v, bundle, s, plan);
    EmissionPreservesAnswer(em, plan.statement, st, c, sc);
  }

  lemma PlanAliases(v: RoleView, bundle: PolicyBundle, s: BoundSelect, plan: ProtectedPlan<BoundSelect>)
    requires v == ViewOf(bundle, v.engine, v.session) && v.Valid() && WellBound(s)
    requires CompileSelect(bundle, s, v.session) == Ok(plan)
    ensures Injective(AliasesFor(plan.statement))
  {
    PlanJoins(bundle, s, v.session, plan, v);
    AliasesInjectiveAndTotal(plan.statement);
  }

  /** Its rows show as the client's query on the view, and bind the root and inner joins to real rows. */
  lemma EmittedRows(
    v: RoleView, bundle: PolicyBundle, s: BoundSelect, plan: ProtectedPlan<BoundSelect>, params: Bindings, db: Database)
    requires v == ViewOf(bundle, v.engine, v.session) && v.Valid() && WellBound(s)
    requires CompileSelect(bundle, s, v.session) == Ok(plan) && Within(plan.serverValues, params)
    ensures var envs := SelectEnvs(RealCtx(v, params, db), plan.statement, db, map[]);
            && v.EnvsOf(envs) == SelectEnvs(ViewCtx(v, params, db), s, v.DatabaseOf(db), map[])
            && forall e | e in envs :: BoundToRows(e, {s.resource} + InnerResources(s.joins), db)
  {
    PlanJoins(bundle, s, v.session, plan, v);
    ViewEnvironments(v, bundle, s, params, db, plan);
    SelectRows(RealCtx(v, params, db), plan.statement, db);
  }
}
