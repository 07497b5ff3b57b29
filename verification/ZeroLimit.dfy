/**
  * A row limit of zero. A nested select under it sees nothing, while the client's own EXISTS on
  * the view would. Which databases show the difference, over every select that can be bound.
  */
module ZeroLimit {
  import opened Core
  import opened Ir
  import opened Semantics
  import opened Policy
  import opened View
  import opened Compile
  import opened Instantiation
  import opened Protection
  import opened ViewTheorem
  import opened EndToEnd
  import opened Boundary
  import opened LimitTheorem
  import opened Acceptance
  import opened Text
  import B = Binder
  import S = Surface

  // ----- Which resources EXISTS reads -----

  /** No EXISTS at any depth reads a resource of the set. */
  predicate Avoids(e: BoundExpr, hidden: set<ResourceId>)
    decreases e
  {
    match e
    case Exists(select) => select.resource !in hidden && (select.filter.Some? ==> Avoids(select.filter.value, hidden))
    case Binary(_, left, right) => Avoids(left, hidden) && Avoids(right, hidden)
    case ConditionalOutput(value, visibleIf) => Avoids(value, hidden) && Avoids(visibleIf, hidden)
    case Unary(_, inner) => Avoids(inner, hidden)
    case Scalar(_, arguments, _) => forall x | x in arguments :: Avoids(x, hidden)
    case In(expression, values, _) => Avoids(expression, hidden) && forall x | x in values :: Avoids(x, hidden)
    case Case(branches, otherwise, _) =>
      && (forall b: Branch | b in branches :: Avoids(b.condition, hidden) && Avoids(b.value, hidden))
      && (otherwise.Some? ==> Avoids(otherwise.value, hidden))
    case _ => true
  }

  /** The binder refuses an EXISTS that reads a resource in scope, the root of the select among them. */
  predicate AvoidsRoot(s: BoundSelect) {
    s.filter.Some? ==> Avoids(s.filter.value, {s.resource})
  }

  /** The role has a policy for the resource, and its row filter can be instantiated. */
  predicate Queryable(v: RoleView, r: ResourceId) {
    r in v.policies && Instantiate(v.policies[r].rowFilter, v.session, map[]).Ok?
  }

  /** Whether a predicate can be instantiated does not depend on what is bound already. */
  lemma {:induction false} InstantiatesAlike(p: PolicyPredicate, session: TrustedSession, a: Bindings, b: Bindings)
    requires Instantiate(p, session, a).Ok?
    ensures Instantiate(p, session, b).Ok?
    decreases p
  {
    match p
    case All(parts) =>
      InstantiatesAlike(parts[0], session, a, b);
      var (x, a') := Instantiate(parts[0], session, a).value;
      var (y, b') := Instantiate(parts[0], session, b).value;
      RestAlike(x, y, parts[1..], session, a', b', And);
    case Any(parts) =>
      InstantiatesAlike(parts[0], session, a, b);
      var (x, a') := Instantiate(parts[0], session, a).value;
      var (y, b') := Instantiate(parts[0], session, b).value;
      RestAlike(x, y, parts[1..], session, a', b', Or);
    case Negation(part) => InstantiatesAlike(part, session, a, b);
    case _ =>
  }

  lemma {:induction false} RestAlike(
    x: BoundExpr, y: BoundExpr, rest: seq<PolicyPredicate>, session: TrustedSession, a: Bindings, b: Bindings,
    op: BinaryOp)
    requires FoldRest(x, rest, session, a, op).Ok?
    ensures FoldRest(y, rest, session, b, op).Ok?
    decreases rest
  {
    if rest != [] {
      InstantiatesAlike(rest[0], session, a, b);
      var (nextX, a') := Instantiate(rest[0], session, a).value;
      var (nextY, b') := Instantiate(rest[0], session, b).value;
      RestAlike(Binary(op, x, nextX), Binary(op, y, nextY), rest[1..], session, a', b', op);
    }
  }

  // ----- What an accepted EXISTS reads -----

  /** Rewriting succeeds only over queryable resources, so it avoids every other one. */
  lemma {:induction false} ProtectAvoids(
    v: RoleView, selected: Selected, e: BoundExpr, values: Bindings, root: ResourceId, hidden: set<ResourceId>)
    requires Within(selected, v.policies) && Protect(e, selected, v.session, values).Ok? && Avoids(e, {root})
    requires forall r | r in hidden && Queryable(v, r) :: r == root
    ensures Avoids(e, hidden)
    decreases e, 0
  {
    match e
    case Exists(select) =>
      assert e decreases to select;
      NestedAvoids(v, selected, select, values, root, hidden);
    case Binary(_, left, right) =>
      ProtectAvoids(v, selected, left, values, root, hidden);
      ProtectAvoids(v, selected, right, Protect(left, selected, v.session, values).value.1, root, hidden);
    case ConditionalOutput(value, visibleIf) =>
      ProtectAvoids(v, selected, value, values, root, hidden);
      ProtectAvoids(v, selected, visibleIf, Protect(value, selected, v.session, values).value.1, root, hidden);
    case Unary(_, inner) => ProtectAvoids(v, selected, inner, values, root, hidden);
    case Scalar(_, arguments, _) => ProtectAllAvoids(v, selected, arguments, values, root, hidden);
    case In(expression, members, _) =>
      ProtectAvoids(v, selected, expression, values, root, hidden);
      ProtectAllAvoids(v, selected, members, Protect(expression, selected, v.session, values).value.1, root, hidden);
    case Case(branches, otherwise, _) =>
      ProtectBranchesAvoid(v, selected, branches, values, root, hidden);
      if otherwise.Some? {
        ProtectAvoids(v, selected, otherwise.value, ProtectBranches(branches, selected, v.session, values).value.1,
            root, hidden);
      }
    case _ =>
  }

  lemma {:induction false} NestedAvoids(
    v: RoleView, selected: Selected, s: BoundSelect, values: Bindings, root: ResourceId, hidden: set<ResourceId>)
    requires Within(selected, v.policies) && Protect(Exists(s), selected, v.session, values).Ok?
    requires Avoids(Exists(s), {root})
    requires forall r | r in hidden && Queryable(v, r) :: r == root
    ensures Avoids(Exists(s), hidden)
    decreases s, 0
  {
    if s.filter.Some? {
      ProtectAvoids(v, selected, s.filter.value, values, root, hidden);
    }
    var values' := ProtectOption(s.filter, selected, v.session, values).value.1;
    InstantiatesAlike(v.policies[s.resource].rowFilter, v.session, values', map[]);
    assert Queryable(v, s.resource);
  }

  lemma {:induction false} ProtectAllAvoids(
    v: RoleView, selected: Selected, es: seq<BoundExpr>, values: Bindings, root: ResourceId, hidden: set<ResourceId>)
    requires Within(selected, v.policies) && ProtectAll(es, selected, v.session, values).Ok?
    requires forall x | x in es :: Avoids(x, {root})
    requires forall r | r in hidden && Queryable(v, r) :: r == root
    ensures forall x | x in es :: Avoids(x, hidden)
    decreases es, 0
  {
    if es != [] {
      ProtectAvoids(v, selected, es[0], values, root, hidden);
      ProtectAllAvoids(v, selected, es[1..], Protect(es[0], selected, v.session, values).value.1, root, hidden);
      assert es == [es[0]] + es[1..];
    }
  }

  lemma {:induction false} ProtectBranchesAvoid(
    v: RoleView, selected: Selected, branches: seq<Branch>, values: Bindings, root: ResourceId, hidden: set<ResourceId>)
    requires Within(selected, v.policies) && ProtectBranches(branches, selected, v.session, values).Ok?
    requires forall b: Branch | b in branches :: Avoids(b.condition, {root}) && Avoids(b.value, {root})
    requires forall r | r in hidden && Queryable(v, r) :: r == root
    ensures forall b: Branch | b in branches :: Avoids(b.condition, hidden) && Avoids(b.value, hidden)
    decreases branches, 0
  {
    if branches != [] {
      assert branches decreases to branches[0];
      var (_, values1) := Protect(branches[0].condition, selected, v.session, values).value;
      var (_, values2) := Protect(branches[0].value, selected, v.session, values1).value;
      ProtectAvoids(v, selected, branches[0].condition, values, root, hidden);
      ProtectAvoids(v, selected, branches[0].value, values1, root, hidden);
      ProtectBranchesAvoid(v, selected, branches[1..], values2, root, hidden);
      assert branches == [branches[0]] + branches[1..];
    }
  }

  // ----- Databases that differ only where EXISTS does not read -----

  /** The contexts differ at most in the rows of hidden resources. */
  ghost predicate AgreeOutside(c: Ctx, d: Ctx, hidden: set<ResourceId>) {
    c.engine == d.engine && c.params == d.params && forall r | r !in hidden :: Rows(c.nested, r) == Rows(d.nested, r)
  }

  lemma {:induction false} SameEval(c: Ctx, d: Ctx, e: BoundExpr, nesting: bool, hidden: set<ResourceId>, env: Env)
    requires AgreeOutside(c, d, hidden) && Shape(e, nesting) && (nesting ==> Avoids(e, hidden))
    ensures Eval(c, e, env) == Eval(d, e, env)
    decreases e, 1
  {
    match e
    case Binary(_, left, right) =>
      SameEval(c, d, left, nesting, hidden, env);
      SameEval(c, d, right, nesting, hidden, env);
    case ConditionalOutput(value, visibleIf) =>
      SameEval(c, d, value, nesting, hidden, env);
      SameEval(c, d, visibleIf, nesting, hidden, env);
    case Unary(_, inner) => SameEval(c, d, inner, nesting, hidden, env);
    case Scalar(_, arguments, _) => SameEvalAll(c, d, arguments, nesting, hidden, env);
    case In(expression, values, _) =>
      SameEval(c, d, expression, nesting, hidden, env);
      SameEvalAll(c, d, values, nesting, hidden, env);
    case Case(_, _, _) => SameCase(c, d, e, nesting, hidden, env);
    case Exists(select) =>
      assert e decreases to select;
      SameExists(c, d, select, hidden, env);
    case RowNumber(_, _, orderBy) => SameColumnOrders(c, d, orderBy, env);
    case _ =>
  }

  lemma {:induction false} SameCase(c: Ctx, d: Ctx, e: BoundExpr, nesting: bool, hidden: set<ResourceId>, env: Env)
    requires e.Case? && AgreeOutside(c, d, hidden) && Shape(e, nesting) && (nesting ==> Avoids(e, hidden))
    ensures Eval(c, e, env) == Eval(d, e, env)
    decreases e, 0
  {
    SameEvalBranches(c, d, e.branches, nesting, hidden, env);
    if e.otherwise.Some? {
      SameEval(c, d, e.otherwise.value, nesting, hidden, env);
    }
  }

  lemma {:induction false} SameEvalAll(
      c: Ctx, d: Ctx, es: seq<BoundExpr>, nesting: bool, hidden: set<ResourceId>, env: Env)
    requires AgreeOutside(c, d, hidden) && forall x | x in es :: Shape(x, nesting) && (nesting ==> Avoids(x, hidden))
    ensures EvalAll(c, es, env) == EvalAll(d, es, env)
    decreases es, 0
  {
    if es != [] {
      SameEval(c, d, es[0], nesting, hidden, env);
      SameEvalAll(c, d, es[1..], nesting, hidden, env);
    }
  }

  lemma {:induction false} SameEvalBranches(
    c: Ctx, d: Ctx, branches: seq<Branch>, nesting: bool, hidden: set<ResourceId>, env: Env)
    requires AgreeOutside(c, d, hidden)
    requires forall b: Branch | b in branches :: Shape(b.condition, nesting) && Shape(b.value, nesting)
    requires nesting ==> forall b: Branch | b in branches :: Avoids(b.condition, hidden) && Avoids(b.value, hidden)
    ensures EvalBranches(c, branches, env) == EvalBranches(d, branches, env)
    decreases branches, 0
  {
    if branches != [] {
      assert branches decreases to branches[0];
      assert branches[0] in branches;
      SameEval(c, d, branches[0].condition, nesting, hidden, env);
      SameEval(c, d, branches[0].value, nesting, hidden, env);
      SameEvalBranches(c, d, branches[1..], nesting, hidden, env);
    }
  }

  lemma {:induction false} SameColumnOrders(c: Ctx, d: Ctx, orders: seq<BoundOrder>, env: Env)
    requires forall o: BoundOrder | o in orders :: o.expression.Column?
    ensures EvalOrders(c, orders, env) == EvalOrders(d, orders, env)
  {
    if orders != [] {
      assert orders[0] in orders;
      SameColumnOrders(c, d, orders[1..], env);
    }
  }

  lemma {:induction false} SameKeep(
      c: Ctx, d: Ctx, e: BoundExpr, nesting: bool, hidden: set<ResourceId>, envs: seq<Env>)
    requires AgreeOutside(c, d, hidden) && Shape(e, nesting) && (nesting ==> Avoids(e, hidden))
    ensures Keep(c, e, envs) == Keep(d, e, envs)
    decreases e, 2, |envs|
  {
    if envs != [] {
      SameEval(c, d, e, nesting, hidden, envs[0]);
      SameKeep(c, d, e, nesting, hidden, envs[1..]);
    }
  }

  lemma {:induction false} SameWhere(
    c: Ctx, d: Ctx, filter: Option<BoundExpr>, nesting: bool, hidden: set<ResourceId>, envs: seq<Env>)
    requires AgreeOutside(c, d, hidden)
    requires filter.Some? ==> Shape(filter.value, nesting) && (nesting ==> Avoids(filter.value, hidden))
    ensures Where(c, filter, envs) == Where(d, filter, envs)
    decreases filter, 3
  {
    if filter.Some? {
      assert filter decreases to filter.value;
      SameKeep(c, d, filter.value, nesting, hidden, envs);
    }
  }

  lemma {:induction false} SameExists(c: Ctx, d: Ctx, s: BoundSelect, hidden: set<ResourceId>, env: Env)
    requires AgreeOutside(c, d, hidden) && NestedShape(s) && Avoids(Exists(s), hidden)
    ensures Eval(c, Exists(s), env) == Eval(d, Exists(s), env)
    decreases s, 4
  {
    PlainEnvs(c, s, c.nested, env);
    PlainEnvs(d, s, d.nested, env);
    SameWhere(c, d, s.filter, true, hidden, Extend(env, s.resource, Rows(c.nested, s.resource)));
    NestedEval(c, s, env, None);
    NestedEval(d, s, env, None);
  }

  lemma {:induction false} SameJoinEach(
    c: Ctx, d: Ctx, join: BoundJoin, hidden: set<ResourceId>, source: Database, envs: seq<Env>)
    requires AgreeOutside(c, d, hidden) && Shape(join.on, false)
    ensures JoinEach(c, join, source, envs) == JoinEach(d, join, source, envs)
    decreases |envs|
  {
    if envs != [] {
      SameKeep(c, d, join.on, false, hidden, Extend(envs[0], join.resource, Rows(source, join.resource)));
      SameJoinEach(c, d, join, hidden, source, envs[1..]);
    }
  }

  lemma {:induction false} SameJoinAll(
    c: Ctx, d: Ctx, joins: seq<BoundJoin>, hidden: set<ResourceId>, source: Database, envs: seq<Env>)
    requires AgreeOutside(c, d, hidden) && forall j: BoundJoin | j in joins :: Shape(j.on, false)
    ensures JoinAll(c, joins, source, envs) == JoinAll(d, joins, source, envs)
    decreases |joins|
  {
    if joins != [] {
      assert joins[0] in joins;
      SameJoinEach(c, d, joins[0], hidden, source, envs);
      SameJoinAll(c, d, joins[1..], hidden, source, JoinEach(d, joins[0], source, envs));
    }
  }

  lemma {:induction false} SameProjected(
    c: Ctx, d: Ctx, projections: seq<BoundProjection>, hidden: set<ResourceId>, env: Env)
    requires AgreeOutside(c, d, hidden) && forall p: BoundProjection | p in projections :: Shape(p.expression, false)
    ensures ProjectedValues(c, projections, env) == ProjectedValues(d, projections, env)
  {
    if projections != [] {
      assert projections[0] in projections;
      SameEval(c, d, projections[0].expression, false, hidden, env);
      SameProjected(c, d, projections[1..], hidden, env);
    }
  }

  lemma {:induction false} SameOrders(c: Ctx, d: Ctx, orders: seq<BoundOrder>, hidden: set<ResourceId>, env: Env)
    requires AgreeOutside(c, d, hidden) && forall o: BoundOrder | o in orders :: Shape(o.expression, false)
    ensures EvalOrders(c, orders, env) == EvalOrders(d, orders, env)
  {
    if orders != [] {
      assert orders[0] in orders;
      SameEval(c, d, orders[0].expression, false, hidden, env);
      SameOrders(c, d, orders[1..], hidden, env);
    }
  }

  lemma {:induction false} SameObserved(c: Ctx, d: Ctx, s: BoundSelect, hidden: set<ResourceId>, envs: seq<Env>)
    requires AgreeOutside(c, d, hidden) && WellBound(s)
    ensures ObserveAll(c, s, envs) == ObserveAll(d, s, envs)
  {
    if envs != [] {
      SameProjected(c, d, s.projections, hidden, envs[0]);
      SameOrders(c, d, s.orderBy, hidden, envs[0]);
      if s.having.Some? {
        SameEval(c, d, s.having.value, false, hidden, envs[0]);
      }
      SameObserved(c, d, s, hidden, envs[1..]);
    }
  }

  lemma SameAnswer(c: Ctx, d: Ctx, s: BoundSelect, hidden: set<ResourceId>, source: Database)
    requires AgreeOutside(c, d, hidden) && WellBound(s) && (s.filter.Some? ==> Avoids(s.filter.value, hidden))
    ensures Answer(c, s, source) == Answer(d, s, source)
  {
    var roots := Extend(map[], s.resource, Rows(source, s.resource));
    SameJoinAll(c, d, s.joins, hidden, source, roots);
    SameWhere(c, d, s.filter, true, hidden, JoinAll(c, s.joins, source, roots));
    SameObserved(c, d, s, hidden, SelectEnvs(c, s, source, map[]));
  }

  /** A select over a source without rows has no rows. */
  lemma {:induction false} NoRootNoRows(c: Ctx, joins: seq<BoundJoin>, source: Database)
    ensures JoinAll(c, joins, source, []) == []
    decreases |joins|
  {
    if joins != [] {
      assert JoinEach(c, joins[0], source, []) == [];
      NoRootNoRows(c, joins[1..], source);
    }
  }

  lemma EmptyAnswer(c: Ctx, s: BoundSelect, source: Database)
    requires Rows(source, s.resource) == []
    ensures Answer(c, s, source) == []
  {
    NoRootNoRows(c, s.joins, source);
    assert Where(c, s.filter, []) == [];
  }

  // ----- The exact condition -----

  /** A visible row of a resource under a limit of zero, and a visible row of another resource to ask from. */
  predicate HiddenPair(v: RoleView, db: Database, r: ResourceId, q: ResourceId) {
    && r != q && Queryable(v, r) && Queryable(v, q) && v.policies[r].limit == Some(0)
    && v.RowsOf(r, Rows(db, r)) != [] && v.RowsOf(q, Rows(db, q)) != []
  }

  /** The compiled select's answer is the client's on the view, with EXISTS reading the view too. */
  ghost predicate AnswersOnView(v: RoleView, bundle: PolicyBundle, s: BoundSelect, params: Bindings, db: Database) {
    var plan := CompileSelect(bundle, s, v.session);
    WellBound(s) && plan.Ok? && Within(plan.value.serverValues, params) ==>
      Answer(RealCtx(v, params, db), plan.value.statement, db)
      == Answer(Ctx(v.engine, params, v.DatabaseOf(db)), s, v.DatabaseOf(db))
  }

  /** Resources that EXISTS sees without rows although the view has some. */
  function Hidden(v: RoleView, db: Database): set<ResourceId> {
    set r | r in v.policies && v.policies[r].limit == Some(0) && v.RowsOf(r, Rows(db, r)) != []
  }

  lemma OutsideHidden(v: RoleView, params: Bindings, db: Database)
    ensures AgreeOutside(ViewCtx(v, params, db), Ctx(v.engine, params, v.DatabaseOf(db)), Hidden(v, db))
  {
  }

  /** Without such a pair every accepted select is answered on the view. */
  lemma NoPairAnswers(
    v: RoleView, bundle: PolicyBundle, s: BoundSelect, params: Bindings, db: Database, plan: ProtectedPlan<BoundSelect>)
    requires v == ViewOf(bundle, v.engine, v.session) && v.Valid() && WellBound(s) && AvoidsRoot(s)
    requires CompileSelect(bundle, s, v.session) == Ok(plan) && Within(plan.serverValues, params)
    requires forall r, q :: !HiddenPair(v, db, r, q)
    ensures Answer(RealCtx(v, params, db), plan.statement, db)
         == Answer(Ctx(v.engine, params, v.DatabaseOf(db)), s, v.DatabaseOf(db))
  {
    var seen, p := v.DatabaseOf(db), PiecesOf(bundle, s, v.session);
    var cv, cd := ViewCtx(v, params, db), Ctx(v.engine, params, seen);
    ViewAnswer(v, bundle, s, params, db, plan);
    CompiledPieces(bundle, s, v.session, plan);
    CompiledWithin(v, bundle, s, params, plan);
    InstantiatesAlike(v.policies[s.resource].rowFilter, v.session, p.values1, map[]);
    assert Rows(seen, s.resource) == v.RowsOf(s.resource, Rows(db, s.resource));
    if Rows(seen, s.resource) == [] {
      EmptyAnswer(cv, s, seen);
      EmptyAnswer(cd, s, seen);
    } else {
      forall r | r in Hidden(v, db) && Queryable(v, r)
        ensures r == s.resource
      {
        assert !HiddenPair(v, db, r, s.resource);
      }
      if s.filter.Some? {
        ProtectAvoids(v, p.selected, s.filter.value, p.values0, s.resource, Hidden(v, db));
      }
      OutsideHidden(v, params, db);
      SameAnswer(cv, cd, s, Hidden(v, db), seen);
    }
  }

  // ----- The failing select -----

  /** SELECT CAST(1 AS TEXT) AS one FROM q WHERE EXISTS (SELECT 1 FROM r). */
  function WhileAnyRow(q: ResourceId, r: ResourceId): BoundSelect {
    BoundSelect(q, [], [ONE], Some(Exists(AnyRowOf(r))), [], None, [], None, None)
  }

  const ONE := BoundProjection(Unary(CastText, Literal(Int64(1))), "one")

  /**
    * Under a row limit of zero on `r` the compiled query never finds a row, while the client's own
    * query on the view finds every visible row of `q` if one of `r` is visible.
    */
  lemma ZeroLimitHidesRows(
    v: RoleView, bundle: PolicyBundle, q: ResourceId, r: ResourceId, params: Bindings, db: Database,
    plan: ProtectedPlan<BoundSelect>)
    requires v == ViewOf(bundle, v.engine, v.session) && v.Valid()
    requires q in v.policies && r in v.policies && v.policies[r].limit == Some(0)
    requires CompileSelect(bundle, WhileAnyRow(q, r), v.session) == Ok(plan) && Within(plan.serverValues, params)
    ensures WellBound(WhileAnyRow(q, r))
    ensures SelectEnvs(RealCtx(v, params, db), plan.statement, db, map[]) == []
    ensures var seen := v.DatabaseOf(db);
            |SelectEnvs(Ctx(v.engine, params, seen), WhileAnyRow(q, r), seen, map[])|
            == if v.RowsOf(r, Rows(db, r)) == [] then 0 else |v.RowsOf(q, Rows(db, q))|
  {
    var s, seen := WhileAnyRow(q, r), v.DatabaseOf(db);
    WitnessWellBound(q, r);
    ViewEnvironments(v, bundle, s, params, db, plan);
    var cv := ViewCtx(v, params, db);
    assert Rows(cv.nested, r) == [];
    AllOrNothing(cv, q, r, seen);
    EnvsOfLength(v, SelectEnvs(RealCtx(v, params, db), plan.statement, db, map[]));
    AllOrNothing(Ctx(v.engine, params, seen), q, r, seen);
    assert Rows(seen, r) == v.RowsOf(r, Rows(db, r)) && Rows(seen, q) == v.RowsOf(q, Rows(db, q));
  }

  lemma WitnessWellBound(q: ResourceId, r: ResourceId)
    ensures WellBound(WhileAnyRow(q, r)) && (q != r ==> AvoidsRoot(WhileAnyRow(q, r)))
  {
    assert Shape(Exists(AnyRowOf(r)), true);
  }

  /** The query keeps every row of its source if EXISTS has one, and otherwise none. */
  lemma AllOrNothing(c: Ctx, q: ResourceId, r: ResourceId, source: Database)
    ensures |SelectEnvs(c, WhileAnyRow(q, r), source, map[])|
         == if Rows(c.nested, r) == [] then 0 else |Rows(source, q)|
  {
    var s := WhileAnyRow(q, r);
    var envs := Extend(map[], q, Rows(source, q));
    PlainEnvs(c, s, source, map[]);
    KeepIsPick(c, s.filter.value, envs);
    var found := Rows(c.nested, r) != [];
    forall env | env in envs
      ensures Passes(c, s.filter)(env) == found
    {
      PlainEnvs(c, AnyRowOf(r), c.nested, env);
      assert Rows(c.nested, r) == [] <==> Extend(env, r, Rows(c.nested, r)) == [];
      NestedEval(c, AnyRowOf(r), env, None);
    }
    PickSame(envs, Passes(c, s.filter), (e: Env) => found);
    PickConstant(envs, found);
    ExtendLength(map[], q, Rows(source, q));
  }

  // ----- The failing select is accepted -----

  lemma WitnessResources(q: ResourceId, r: ResourceId)
    ensures forall x :: x in QueryResources(WhileAnyRow(q, r)) <==> x == q || x == r
  {
    CollectAnyRow(r);
    assert [q] + seq(0, i requires 0 <= i < 0 => 0) + [r] == [q, r];
    SortedMembers([q, r]);
  }

  lemma WitnessChecked(q: ResourceId, r: ResourceId, selected: Selected, session: TrustedSession)
    ensures PermitProjections([ONE], selected, session, map[]) == Ok(([ONE], map[]))
    ensures CheckSelect(WhileAnyRow(q, r), [ONE], selected) == Ok(())
  {
    var regular := RegularColumns(selected);
    assert [ONE][1..] == [];
    assert PermitProjections([], selected, session, map[]) == Ok(([], map[]));
    assert PermitProjection(ONE, selected, session, map[]) == Ok((ONE, map[]));
    assert [ONE] + [] == [ONE];
    AnyRowValid(r, regular);
    assert ValidateClient(ONE.expression, regular) == Ok(());
    assert CheckProjections([ONE], selected, regular) == Ok(());
  }

  lemma WitnessCompiles(v: RoleView, bundle: PolicyBundle, q: ResourceId, r: ResourceId)
    requires v == ViewOf(bundle, v.engine, v.session) && Queryable(v, q) && Queryable(v, r)
    ensures CompileSelect(bundle, WhileAnyRow(q, r), v.session).Ok?
  {
    var s := WhileAnyRow(q, r);
    WitnessResources(q, r);
    PoliciesExact(v, bundle, QueryResources(s));
    var selected := SelectPolicies(bundle, QueryResources(s), v.session.role).value;
    SelectPoliciesWithin(bundle, QueryResources(s), v.engine, v.session);
    WitnessChecked(q, r, selected, v.session);
    WitnessProtected(v, selected, r);
    var values := ProtectOption(s.filter, selected, v.session, map[]).value.1;
    InstantiatesAlike(v.policies[q].rowFilter, v.session, map[], values);
  }

  lemma WitnessProtected(v: RoleView, selected: Selected, r: ResourceId)
    requires Within(selected, v.policies) && r in selected && Queryable(v, r)
    ensures ProtectOption(Some(Exists(AnyRowOf(r))), selected, v.session, map[]).Ok?
  {
    assert ProtectOption(None, selected, v.session, map[]) == Ok((None, map[]));
    assert Protect(Exists(AnyRowOf(r)), selected, v.session, map[]).Ok?;
  }

  lemma {:induction false} AnswerLength(c: Ctx, s: BoundSelect, envs: seq<Env>)
    ensures |ObserveAll(c, s, envs)| == |envs|
  {
    if envs != [] {
      AnswerLength(c, s, envs[1..]);
    }
  }

  lemma PairDiffers(v: RoleView, bundle: PolicyBundle, q: ResourceId, r: ResourceId, db: Database)
    requires v == ViewOf(bundle, v.engine, v.session) && v.Valid() && HiddenPair(v, db, r, q)
    ensures var s := WhileAnyRow(q, r);
            && CompileSelect(bundle, s, v.session).Ok?
            && !AnswersOnView(v, bundle, s, CompileSelect(bundle, s, v.session).value.serverValues, db)
  {
    var s := WhileAnyRow(q, r);
    WitnessCompiles(v, bundle, q, r);
    var plan := CompileSelect(bundle, s, v.session).value;
    var params, seen := plan.serverValues, v.DatabaseOf(db);
    ZeroLimitHidesRows(v, bundle, q, r, params, db, plan);
    AnswerLength(RealCtx(v, params, db), plan.statement, SelectEnvs(RealCtx(v, params, db), plan.statement, db, map[]));
    AnswerLength(Ctx(v.engine, params, seen), s, SelectEnvs(Ctx(v.engine, params, seen), s, seen, map[]));
  }

  /**
    * Every accepted select whose EXISTS do not read its root is answered on the view, nested
    * selects included, exactly when there is no such pair of resources.
    */
  lemma ZeroLimitExact(v: RoleView, bundle: PolicyBundle, db: Database)
    requires v == ViewOf(bundle, v.engine, v.session) && v.Valid()
    ensures (forall s: BoundSelect, params: Bindings | AvoidsRoot(s) :: AnswersOnView(v, bundle, s, params, db))
       <==> forall r, q :: !HiddenPair(v, db, r, q)
  {
    if forall r, q :: !HiddenPair(v, db, r, q) {
      forall s: BoundSelect, params: Bindings | AvoidsRoot(s)
        ensures AnswersOnView(v, bundle, s, params, db)
      {
        AcceptedAnswers(v, bundle, s, params, db);
      }
    } else {
      var r, q :| HiddenPair(v, db, r, q);
      PairDiffers(v, bundle, q, r, db);
      WitnessWellBound(q, r);
      assert AvoidsRoot(WhileAnyRow(q, r));
    }
  }

  lemma AcceptedAnswers(v: RoleView, bundle: PolicyBundle, s: BoundSelect, params: Bindings, db: Database)
    requires v == ViewOf(bundle, v.engine, v.session) && v.Valid() && AvoidsRoot(s)
    requires forall r, q :: !HiddenPair(v, db, r, q)
    ensures AnswersOnView(v, bundle, s, params, db)
  {
    var plan := CompileSelect(bundle, s, v.session);
    if WellBound(s) && plan.Ok? && Within(plan.value.serverValues, params) {
      NoPairAnswers(v, bundle, s, params, db, plan.value);
    }
  }

  // ----- The same over written queries -----

  /** Whatever the binder accepts reads no resource in scope with EXISTS. */
  lemma {:induction false} BoundAvoids(cat: S.Catalog, scopes: seq<B.BindScope>, e: S.Expr, r: ResourceId)
    requires B.InScope(scopes, r) && B.BindExpr(cat, scopes, e).Ok?
    ensures Avoids(B.BindExpr(cat, scopes, e).value, {r})
    decreases e, 1
  {
    match e
    case Infix(_, left, right) =>
      BoundAvoids(cat, scopes, left, r);
      BoundAvoids(cat, scopes, right, r);
    case Prefix(_, inner) => BoundAvoids(cat, scopes, inner, r);
    case Among(expression, values, _) =>
      BoundAvoids(cat, scopes, expression, r);
      BoundAllAvoid(cat, scopes, values, r);
    case Call(_, arguments, _) => BoundAllAvoid(cat, scopes, arguments, r);
    case Choice(arms, otherwise, _) =>
      BoundArmsAvoid(cat, scopes, arms, r);
      BoundOptionAvoids(cat, scopes, otherwise, r);
    case ExistsIn(table, alias, filter) =>
      var source := B.BindTable(cat, table, alias).value;
      var i :| 0 <= i < |scopes| && scopes[i].resource == r;
      assert (scopes + [source])[i].resource == r;
      BoundOptionAvoids(cat, scopes + [source], filter, r);
    case _ =>
  }

  lemma {:induction false} BoundAllAvoid(cat: S.Catalog, scopes: seq<B.BindScope>, es: seq<S.Expr>, r: ResourceId)
    requires B.InScope(scopes, r) && B.BindAll(cat, scopes, es).Ok?
    ensures forall x | x in B.BindAll(cat, scopes, es).value :: Avoids(x, {r})
    decreases es, 0
  {
    if es != [] {
      assert es decreases to es[0];
      BoundAvoids(cat, scopes, es[0], r);
      BoundAllAvoid(cat, scopes, es[1..], r);
    }
  }

  lemma {:induction false} BoundArmsAvoid(cat: S.Catalog, scopes: seq<B.BindScope>, arms: seq<S.Arm>, r: ResourceId)
    requires B.InScope(scopes, r) && B.BindArms(cat, scopes, arms).Ok?
    ensures forall b: Branch | b in B.BindArms(cat, scopes, arms).value ::
            Avoids(b.condition, {r}) && Avoids(b.value, {r})
    decreases arms, 0
  {
    if arms != [] {
      assert arms decreases to arms[0];
      BoundAvoids(cat, scopes, arms[0].condition, r);
      BoundAvoids(cat, scopes, arms[0].value, r);
      BoundArmsAvoid(cat, scopes, arms[1..], r);
    }
  }

  lemma {:induction false} BoundOptionAvoids(cat: S.Catalog, scopes: seq<B.BindScope>, e: Option<S.Expr>, r: ResourceId)
    requires B.InScope(scopes, r) && B.BindOption(cat, scopes, e).Ok?
    ensures var bound := B.BindOption(cat, scopes, e).value; bound.Some? ==> Avoids(bound.value, {r})
    decreases e, 1
  {
    if e.Some? {
      assert e decreases to e.value;
      BoundAvoids(cat, scopes, e.value, r);
    }
  }

  lemma {:induction false} JoinScopes(cat: S.Catalog, scopes: seq<B.BindScope>, joins: seq<S.Join>, r: ResourceId)
    requires B.InScope(scopes, r) && B.BindJoins(cat, scopes, joins).Ok?
    ensures B.InScope(B.BindJoins(cat, scopes, joins).value.1, r)
    decreases |joins|
  {
    if joins != [] {
      var joined := B.BindTable(cat, joins[0].table, joins[0].alias).value;
      var i :| 0 <= i < |scopes| && scopes[i].resource == r;
      assert (scopes + [joined])[i].resource == r;
      JoinScopes(cat, scopes + [joined], joins[1..], r);
    }
  }

  /** Conditions inherited from derived tables included. */
  lemma {:induction false} BoundAvoidsRoot(cat: S.Catalog, written: S.Select)
    requires B.BindSelect(cat, written).Ok?
    ensures AvoidsRoot(B.BindSelect(cat, written).value)
    decreases written, 1
  {
    var (root, inherited) := B.BindSource(cat, written.source).value;
    InheritedAvoids(cat, written.source);
    var scopes := B.BindJoins(cat, [root], written.joins).value.1;
    assert [root][0].resource == root.resource;
    JoinScopes(cat, [root], written.joins, root.resource);
    BoundOptionAvoids(cat, scopes, written.filter, root.resource);
  }

  lemma {:induction false} InheritedAvoids(cat: S.Catalog, source: S.Source)
    requires B.BindSource(cat, source).Ok?
    ensures var (root, inherited) := B.BindSource(cat, source).value;
            inherited.Some? ==> Avoids(inherited.value, {root.resource})
    decreases source, 0
  {
    if source.Derived? {
      BoundAvoidsRoot(cat, source.query);
    }
  }

  /** The failing select, as it is written. */
  function WrittenWitness(first: string, second: string): S.Select {
    S.Select(S.Table(first, None), [], [S.Column(S.Prefix(CastText, S.Constant(Int64(1))), Some("one"))],
             Some(S.ExistsIn(second, None, None)), S.PLAIN)
  }

  lemma WitnessBinds(cat: S.Catalog, first: string, second: string)
    requires LowerText(first) in cat.tables && LowerText(second) in cat.tables
    requires cat.tables[LowerText(first)].id != cat.tables[LowerText(second)].id
    ensures B.BindSelect(cat, WrittenWitness(first, second))
         == Ok(WhileAnyRow(cat.tables[LowerText(first)].id, cat.tables[LowerText(second)].id))
  {
    var root := B.BindTable(cat, first, None).value;
    var w := WrittenWitness(first, second);
    assert w.columns[1..] == [];
    assert B.BindColumns(cat, [root], []) == Ok([]);
    assert B.BindColumn(cat, [root], w.columns[0]) == Ok(ONE);
    assert B.BindColumns(cat, [root], w.columns) == Ok([ONE]) by { assert [ONE] + [] == [ONE]; }
    assert LowerText("one") == "one" by { LowerOne(); }
    AnyRowBinds(cat, root, second);
  }

  lemma LowerOne()
    ensures LowerText("one") == "one"
  {
    assert "one"[1..] == "ne" && "ne"[1..] == "e" && "e"[1..] == "";
  }

  /** Every resource with a policy has a table by which a query can name it. */
  ghost predicate Named(cat: S.Catalog, v: RoleView) {
    forall r | r in v.policies :: exists t: string :: LowerText(t) in cat.tables && cat.tables[LowerText(t)].id == r
  }

  ghost predicate WrittenAnswers(
    v: RoleView, bundle: PolicyBundle, cat: S.Catalog, written: S.Select, params: Bindings, db: Database)
  {
    B.BindSelect(cat, written).Ok? ==> AnswersOnView(v, bundle, B.BindSelect(cat, written).value, params, db)
  }

  /** And so is every query that binds and is accepted, exactly under the same condition. */
  lemma ZeroLimitWritten(v: RoleView, bundle: PolicyBundle, cat: S.Catalog, db: Database)
    requires v == ViewOf(bundle, v.engine, v.session) && v.Valid() && Named(cat, v)
    ensures (forall written: S.Select, params: Bindings :: WrittenAnswers(v, bundle, cat, written, params, db))
       <==> forall r, q :: !HiddenPair(v, db, r, q)
  {
    if forall r, q :: !HiddenPair(v, db, r, q) {
      forall written: S.Select, params: Bindings
        ensures WrittenAnswers(v, bundle, cat, written, params, db)
      {
        if B.BindSelect(cat, written).Ok? {
          BoundAvoidsRoot(cat, written);
          AcceptedAnswers(v, bundle, B.BindSelect(cat, written).value, params, db);
        }
      }
    } else {
      var r, q :| HiddenPair(v, db, r, q);
      WrittenDiffers(v, bundle, cat, q, r, db);
    }
  }

  lemma WrittenDiffers(v: RoleView, bundle: PolicyBundle, cat: S.Catalog, q: ResourceId, r: ResourceId, db: Database)
    requires v == ViewOf(bundle, v.engine, v.session) && v.Valid() && Named(cat, v) && HiddenPair(v, db, r, q)
    ensures exists written: S.Select, params: Bindings :: !WrittenAnswers(v, bundle, cat, written, params, db)
  {
    var first: string :| LowerText(first) in cat.tables && cat.tables[LowerText(first)].id == q;
    var second: string :| LowerText(second) in cat.tables && cat.tables[LowerText(second)].id == r;
    WitnessBinds(cat, first, second);
    PairDiffers(v, bundle, q, r, db);
    var s := WhileAnyRow(q, r);
    assert !WrittenAnswers(v, bundle, cat, WrittenWitness(first, second),
           CompileSelect(bundle, s, v.session).value.serverValues, db);
  }

  lemma {:induction false} PickConstant<T>(items: seq<T>, kept: bool)
    ensures Pick(items, (x: T) => kept) == if kept then items else []
  {
    if items != [] {
      PickConstant(items[1..], kept);
    }
  }

  lemma {:induction false} ExtendLength(env: Env, r: ResourceId, rows: seq<Row>)
    ensures |Extend(env, r, rows)| == |rows|
  {
    if rows != [] {
      ExtendLength(env, r, rows[1..]);
    }
  }
}
