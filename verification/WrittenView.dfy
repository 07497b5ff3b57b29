/**
  * Whole queries as they are written: grouping, HAVING, ordering and limits included, what the
  * bound select shows at every row is what the written query means; and so a written query,
  * once it is bound, compiled and run on the real rows, answers what it means on the role's view.
  */
module WrittenView {
  import opened Core
  import opened Text
  import I = Ir
  import opened Semantics
  import opened Surface
  import opened Binder
  import opened Flatten
  import opened FlattenTheorem
  import opened FlattenBoundary
  import Policy
  import View
  import Compile
  import Protection
  import V = ViewTheorem
  import Z = ZeroLimit

  // ----- Ordering -----

  /**
    * A caller can check this of an ORDER BY name: if it is the alias of an output column, no
    * other column in scope has that name; if it is not, a column in scope has it.
    */
  predicate OrderKept(cat: Catalog, bs: seq<BindScope>, columns: seq<Column>, e: Expr) {
    e.Name? && e.qualifier.None? ==>
      match AliasAt(columns, e.name)
      case None => Resolve(bs, None, e.name).Ok?
      case Some(i) =>
        Resolve(bs, None, e.name).Ok? ==>
          BindProjected(cat, bs, columns[i].expression) == Ok(I.Column(Resolve(bs, None, e.name).value.column))
  }

  predicate OrdersKept(cat: Catalog, bs: seq<BindScope>, columns: seq<Column>, orders: seq<Order>) {
    forall i | 0 <= i < |orders| :: OrderKept(cat, bs, columns, orders[i].expression)
  }

  lemma {:induction false} ProjectionNamedIs(ps: seq<I.BoundProjection>, name: string, i: nat)
    requires UniqueNames(ps) && i < |ps| && LowerText(ps[i].outputName) == LowerText(name)
    ensures ProjectionNamed(ps, name) == Some(ps[i].expression)
  {
    if i > 0 {
      assert LowerText(ps[0].outputName) != LowerText(ps[i].outputName);
      assert ps[1..][i - 1] == ps[i];
      assert forall m, n | 0 <= m < n < |ps[1..]| :: ps[1..][m] == ps[m + 1] && ps[1..][n] == ps[n + 1];
      ProjectionNamedIs(ps[1..], name, i - 1);
    }
  }

  /** The bound key of a kept ORDER BY term has the value of what the term means. */
  lemma OrderTermAgrees(
    cat: Catalog, c: Ctx, bs: seq<BindScope>, columns: seq<Column>, ps: seq<I.BoundProjection>, e: Expr,
    ss: seq<Scope>, env: Env)
    requires ValidCatalog(cat) && Agree(bs, ss, env) && NoShadow(cat, bs, e) && ColumnsUnshadowed(cat, bs, columns)
    requires BindColumns(cat, bs, columns) == Ok(ps) && UniqueNames(ps)
    requires BindOrderTerm(bs, ps, e).Ok? && OrderKept(cat, bs, columns, e)
    ensures Eval(c, BindOrderTerm(bs, ps, e).value, env) == SEval(cat, c, OrderTerm(columns, e), ss)
  {
    if e.qualifier.None? && AliasAt(columns, e.name).Some? {
      var i := AliasAt(columns, e.name).value;
      BindColumnsAt(cat, bs, columns, i);
      BoundExpression(cat, bs, columns[i]);
      assert NoShadow(cat, bs, columns[i].expression);
      ProjectedAgrees(cat, c, bs, columns[i].expression, ss, env);
      ProjectionNamedIs(ps, e.name, i);
    } else {
      DirectAgrees(cat, c, bs, e, ss, env);
    }
  }

  lemma {:induction false} OrdersKeyed(
    cat: Catalog, c: Ctx, bs: seq<BindScope>, columns: seq<Column>, ps: seq<I.BoundProjection>, orders: seq<Order>,
    ss: seq<Scope>, env: Env)
    requires ValidCatalog(cat) && Agree(bs, ss, env) && ColumnsUnshadowed(cat, bs, columns)
    requires OrdersUnshadowed(cat, bs, orders) && OrdersKept(cat, bs, columns, orders)
    requires BindColumns(cat, bs, columns) == Ok(ps) && UniqueNames(ps) && BindOrders(bs, ps, orders).Ok?
    ensures EvalOrders(c, BindOrders(bs, ps, orders).value, env) == OrderKeys(cat, c, columns, orders, ss)
    decreases |orders|
  {
    if orders != [] {
      var x, rest := BindOrderTerm(bs, ps, orders[0].expression).value, BindOrders(bs, ps, orders[1..]).value;
      OrderTermAgrees(cat, c, bs, columns, ps, orders[0].expression, ss, env);
      assert forall i | 0 <= i < |orders[1..]| :: orders[1..][i] == orders[i + 1];
      OrdersKeyed(cat, c, bs, columns, ps, orders[1..], ss, env);
      OrdersFirst(c, I.BoundOrder(x, Direction(orders[0])), rest, env);
    }
  }

  /**
    * Where an ORDER BY name is both a column in scope and the alias of an output column, the
    * binder takes the column and SQL the output. They order alike, whatever the rows, exactly
    * when the output is that very column.
    */
  lemma OrderExact(cat: Catalog, c: Ctx, bs: seq<BindScope>, columns: seq<Column>, name: string, x: I.BoundColumn)
    requires ValidCatalog(cat) && AllOwn(bs) && Resolve(bs, None, name).Ok? && AliasAt(columns, name).Some?
    requires var e := columns[AliasAt(columns, name).value].expression;
             e.Name? && NoShadow(cat, bs, e) && BindDirect(bs, e).Ok? && BindDirect(bs, e).value.column == x
    ensures (forall env: Env ::
               Cell(env, Resolve(bs, None, name).value.column.id)
               == SEval(cat, c, OrderTerm(columns, Name(None, name)), ScopesIn(bs, env)))
       <==> x.id == Resolve(bs, None, name).value.column.id
  {
    var e, id := columns[AliasAt(columns, name).value].expression, Resolve(bs, None, name).value.column.id;
    forall env: Env
      ensures SEval(cat, c, OrderTerm(columns, Name(None, name)), ScopesIn(bs, env)) == Cell(env, x.id)
    {
      ScopesAgree(bs, env);
      DirectAgrees(cat, c, bs, e, ScopesIn(bs, env), env);
    }
    if x.id != id {
      var row: Semantics.Row := map[id.ordinal := Int64(1)];
      var env: Env := map[id.resource := row];
      assert Cell(env, id) == Int64(1) && Cell(env, x.id) == Null;
    }
  }

  /** SELECT a AS b FROM t ORDER BY b: the key is the table's column b, not the output column. */
  lemma ColumnBeforeAlias(b: BindScope, ps: seq<I.BoundProjection>, first: string, second: string)
    requires LowerText(first) in b.columns && LowerText(second) in b.columns && !IsRowId(second)
    ensures var columns := [Column(Name(None, first), Some(second))];
            && BindOrderTerm([b], ps, Name(None, second)) == Ok(I.Column(b.columns[LowerText(second)].column))
            && OrderTerm(columns, Name(None, second)) == Name(None, first)
  {
    assert Holders([b], LowerText(second)) == [b.columns[LowerText(second)]] by {
      assert [b][1..] == [] && Holders([], LowerText(second)) == [];
    }
  }

  // ----- What a written query shows -----

  function SObserve(cat: Catalog, c: Ctx, s: Select, scopes: seq<Scope>): V.Observation {
    V.Observation(
      SValues(cat, c, s.columns, scopes),
      SEvalAll(cat, c, s.clauses.groupBy, scopes),
      if s.clauses.having.None? then None else Some(SEval(cat, c, s.clauses.having.value, scopes)),
      OrderKeys(cat, c, s.columns, s.clauses.orderBy, scopes))
  }

  function SObserveAll(cat: Catalog, c: Ctx, s: Select, envs: seq<seq<Scope>>): seq<V.Observation> {
    if envs == [] then [] else [SObserve(cat, c, s, envs[0])] + SObserveAll(cat, c, s, envs[1..])
  }

  /** All that a written query shows on the rows of a database. */
  function WrittenAnswer(cat: Catalog, c: Ctx, s: Select): seq<V.Observation> {
    SObserveAll(cat, c, s, SelectScopes(cat, c, s))
  }

  predicate ClausesKept(cat: Catalog, bs: seq<BindScope>, s: Select) {
    && AllUnshadowed(cat, bs, s.clauses.groupBy) && OptionUnshadowed(cat, bs, s.clauses.having)
    && OrdersUnshadowed(cat, bs, s.clauses.orderBy) && OrdersKept(cat, bs, s.columns, s.clauses.orderBy)
  }

  lemma {:induction false} SameValues(c: Ctx, ps: seq<I.BoundProjection>, env: Env)
    ensures V.ProjectedValues(c, ps, env) == Values(c, ps, env)
  {
    if ps != [] {
      SameValues(c, ps[1..], env);
    }
  }

  /** What a bound select takes over from the written query. */
  lemma BoundParts(cat: Catalog, s: Select, bs: seq<BindScope>)
    requires BindSelect(cat, s).Ok? && SelectScope(cat, s) == Ok(bs)
    ensures var b := BindSelect(cat, s).value;
            && BindColumns(cat, bs, s.columns) == Ok(b.projections) && UniqueNames(b.projections)
            && BindDirects(bs, s.clauses.groupBy) == Ok(b.groupBy)
            && BindOption(cat, bs, s.clauses.having) == Ok(b.having)
            && BindOrders(bs, b.projections, s.clauses.orderBy) == Ok(b.orderBy)
  {
    var b := BindSelect(cat, s).value;
    ClauseParts(cat, bs, b.projections, s.clauses);
    assert BindColumns(cat, bs, s.columns) == Ok(b.projections);
  }

  lemma ClauseParts(cat: Catalog, bs: seq<BindScope>, ps: seq<I.BoundProjection>, clauses: Clauses)
    requires BindClauses(cat, bs, ps, clauses).Ok?
    ensures var tail := BindClauses(cat, bs, ps, clauses).value;
            && BindDirects(bs, clauses.groupBy) == Ok(tail.groupBy)
            && BindOption(cat, bs, clauses.having) == Ok(tail.having)
            && BindOrders(bs, ps, clauses.orderBy) == Ok(tail.orderBy)
  {
  }

  lemma ObserveAgrees(
    cat: Catalog, c: Ctx, s: Select, b: I.BoundSelect, bs: seq<BindScope>, ss: seq<Scope>, env: Env)
    requires ValidCatalog(cat) && Agree(bs, ss, env) && ColumnsUnshadowed(cat, bs, s.columns) && ClausesKept(cat, bs, s)
    requires BindColumns(cat, bs, s.columns) == Ok(b.projections) && UniqueNames(b.projections)
    requires BindDirects(bs, s.clauses.groupBy) == Ok(b.groupBy)
    requires BindOption(cat, bs, s.clauses.having) == Ok(b.having)
    requires BindOrders(bs, b.projections, s.clauses.orderBy) == Ok(b.orderBy)
    ensures V.Observe(c, b, env) == SObserve(cat, c, s, ss)
  {
    SameValues(c, b.projections, env);
    ValuesAgree(cat, c, bs, s.columns, ss, env);
    DirectsAgree(cat, c, bs, s.clauses.groupBy, ss, env);
    OrdersKeyed(cat, c, bs, s.columns, b.projections, s.clauses.orderBy, ss, env);
    if s.clauses.having.Some? {
      ExprAgrees(cat, c, bs, s.clauses.having.value, ss, env);
    }
  }

  lemma {:induction false} ObserveAllAgree(
    cat: Catalog, c: Ctx, s: Select, b: I.BoundSelect, bs: seq<BindScope>, scopes: seq<seq<Scope>>, envs: seq<Env>)
    requires ValidCatalog(cat) && AllAgree(bs, scopes, envs)
    requires ColumnsUnshadowed(cat, bs, s.columns) && ClausesKept(cat, bs, s)
    requires BindColumns(cat, bs, s.columns) == Ok(b.projections) && UniqueNames(b.projections)
    requires BindDirects(bs, s.clauses.groupBy) == Ok(b.groupBy)
    requires BindOption(cat, bs, s.clauses.having) == Ok(b.having)
    requires BindOrders(bs, b.projections, s.clauses.orderBy) == Ok(b.orderBy)
    ensures V.ObserveAll(c, b, envs) == SObserveAll(cat, c, s, scopes)
    decreases |envs|
  {
    if envs != [] {
      assert Agree(bs, scopes[0], envs[0]);
      ObserveAgrees(cat, c, s, b, bs, scopes[0], envs[0]);
      assert forall i | 0 <= i < |envs[1..]| :: Agree(bs, scopes[1..][i], envs[1..][i]);
      ObserveAllAgree(cat, c, s, b, bs, scopes[1..], envs[1..]);
    }
  }

  /** What the theorems ask of a written query, besides that it binds. */
  predicate Kept(cat: Catalog, s: Select) {
    && SelectUnshadowed(cat, s) && SourceKept(cat, s.source)
    && (SelectScope(cat, s).Ok? ==> ClausesKept(cat, SelectScope(cat, s).value, s))
  }

  /** The bound select shows at every row what the written query means, up to and including its order keys. */
  lemma BoundAnswersAsWritten(cat: Catalog, c: Ctx, s: Select)
    requires ValidCatalog(cat) && Kept(cat, s) && BindSelect(cat, s).Ok?
    ensures V.Answer(c, BindSelect(cat, s).value, c.nested) == WrittenAnswer(cat, c, s)
  {
    SelectAgrees(cat, c, s);
    var b, bs := BindSelect(cat, s).value, SelectScope(cat, s).value;
    BoundParts(cat, s, bs);
    ObserveAllAgree(cat, c, s, b, bs, SelectScopes(cat, c, s), SelectEnvs(c, b, c.nested, map[]));
  }

  /** LIMIT and OFFSET are the written ones. */
  lemma BoundLimits(cat: Catalog, c: Ctx, s: Select, env: Env)
    requires BindSelect(cat, s).Ok?
    ensures var b, limit := BindSelect(cat, s).value, s.clauses.limit;
            && EvalOption(c, b.limit, env)
               == (if limit.None? then None else Some(SEval(cat, c, limit.value.count, [])))
            && EvalOption(c, b.offset, env)
               == if limit.None? || limit.value.offset.None? then None
                  else Some(SEval(cat, c, limit.value.offset.value, []))
  {
    var limit := s.clauses.limit;
    if limit.Some? {
      LimitAgrees(cat, c, limit.value.count, env);
      if limit.value.offset.Some? {
        LimitAgrees(cat, c, limit.value.offset.value, env);
      }
    }
  }

  lemma LimitAgrees(cat: Catalog, c: Ctx, e: Expr, env: Env)
    requires BindLimit(e).Ok?
    ensures Eval(c, BindLimit(e).value, env) == SEval(cat, c, e, [])
  {
  }

  /**
    * From the written text to the real rows: a query that binds and is accepted answers on the
    * real database what it means, as it is written, on the role's view.
    */
  lemma WrittenOnView(
    v: View.RoleView, bundle: Policy.PolicyBundle, cat: Catalog, s: Select, params: Bindings, db: Database,
    plan: Compile.ProtectedPlan<I.BoundSelect>)
    requires v == V.ViewOf(bundle, v.engine, v.session) && v.Valid() && ValidCatalog(cat)
    requires Kept(cat, s) && BindSelect(cat, s).Ok? && V.WellBound(BindSelect(cat, s).value)
    requires Compile.CompileSelect(bundle, BindSelect(cat, s).value, v.session) == Ok(plan)
    requires Within(plan.serverValues, params) && forall r, q :: !Z.HiddenPair(v, db, r, q)
    ensures V.Answer(Protection.RealCtx(v, params, db), plan.statement, db)
         == WrittenAnswer(cat, Ctx(v.engine, params, v.DatabaseOf(db)), s)
  {
    Z.BoundAvoidsRoot(cat, s);
    Z.NoPairAnswers(v, bundle, BindSelect(cat, s).value, params, db, plan);
    BoundAnswersAsWritten(cat, Ctx(v.engine, params, v.DatabaseOf(db)), s);
  }
}
