/** Rewriting EXISTS: a protected expression on the real rows equals the client's on the view. */
module Protection {
  import opened Core
  import opened Ir
  import opened Semantics
  import opened Policy
  import opened View
  import opened Compile
  import opened Instantiation

  /**
    * The shapes the binder produces: windows order by direct columns, and a nested select has no
    * joins, grouping, ordering or truncation. Without `nesting` there is no EXISTS at all.
    */
  predicate Shape(e: BoundExpr, nesting: bool)
    decreases e
  {
    match e
    case Binary(_, left, right) => Shape(left, nesting) && Shape(right, nesting)
    case ConditionalOutput(value, visibleIf) => Shape(value, nesting) && Shape(visibleIf, nesting)
    case Unary(_, inner) => Shape(inner, nesting)
    case In(expression, values, _) => Shape(expression, nesting) && forall x | x in values :: Shape(x, nesting)
    case Scalar(_, arguments, _) => forall x | x in arguments :: Shape(x, nesting)
    case Case(branches, otherwise, _) =>
      && (forall b: Branch | b in branches :: Shape(b.condition, nesting) && Shape(b.value, nesting))
      && (otherwise.Some? ==> Shape(otherwise.value, nesting))
    case Exists(select) => nesting && NestedShape(select)
    case RowNumber(_, _, orderBy) => forall o: BoundOrder | o in orderBy :: o.expression.Column?
    case _ => true
  }

  predicate NestedShape(s: BoundSelect)
    decreases s
  {
    && s.joins == [] && s.groupBy == [] && s.having == None && s.orderBy == []
    && s.limit == None && s.offset == None
    && (s.filter.Some? ==> Shape(s.filter.value, true))
  }

  function RealCtx(v: RoleView, params: Bindings, db: Database): Ctx {
    Ctx(v.engine, params, db)
  }

  function ViewCtx(v: RoleView, params: Bindings, db: Database): Ctx {
    Ctx(v.engine, params, v.NestedOf(db))
  }

  // ----- Server values only accumulate -----

  lemma {:induction false} ProtectKeeps(e: BoundExpr, selected: Selected, session: TrustedSession, values: Bindings)
    requires SessionOnly(values, session) && Protect(e, selected, session, values).Ok?
    ensures var out := Protect(e, selected, session, values).value.1; SessionOnly(out, session) && Within(values, out)
    decreases e, 0
  {
    match e
    case Exists(select) =>
      assert e decreases to select;
      ProtectOptionKeeps(select.filter, selected, session, values);
      var (inner, values') := ProtectOption(select.filter, selected, session, values).value;
      InstantiateKeeps(selected[select.resource].rowFilter, session, values');
    case Binary(_, left, right) =>
      ProtectKeeps(left, selected, session, values);
      ProtectKeeps(right, selected, session, Protect(left, selected, session, values).value.1);
    case ConditionalOutput(value, visibleIf) =>
      ProtectKeeps(value, selected, session, values);
      ProtectKeeps(visibleIf, selected, session, Protect(value, selected, session, values).value.1);
    case Unary(_, inner) => ProtectKeeps(inner, selected, session, values);
    case Scalar(_, arguments, _) => ProtectAllKeeps(arguments, selected, session, values);
    case In(expression, members, _) =>
      ProtectKeeps(expression, selected, session, values);
      ProtectAllKeeps(members, selected, session, Protect(expression, selected, session, values).value.1);
    case Case(branches, otherwise, _) =>
      ProtectBranchesKeeps(branches, selected, session, values);
      ProtectOptionKeeps(otherwise, selected, session, ProtectBranches(branches, selected, session, values).value.1);
    case _ =>
  }

  lemma {:induction false} ProtectOptionKeeps(
      e: Option<BoundExpr>, selected: Selected, session: TrustedSession, values: Bindings)
    requires SessionOnly(values, session) && ProtectOption(e, selected, session, values).Ok?
    ensures var out := ProtectOption(e, selected, session, values).value.1;
            SessionOnly(out, session) && Within(values, out)
    decreases e, 0
  {
    if e.Some? {
      ProtectKeeps(e.value, selected, session, values);
    }
  }

  lemma {:induction false} ProtectAllKeeps(
      es: seq<BoundExpr>, selected: Selected, session: TrustedSession, values: Bindings)
    requires SessionOnly(values, session) && ProtectAll(es, selected, session, values).Ok?
    ensures var out := ProtectAll(es, selected, session, values).value.1;
            SessionOnly(out, session) && Within(values, out)
    decreases es, 0
  {
    if es != [] {
      ProtectKeeps(es[0], selected, session, values);
      ProtectAllKeeps(es[1..], selected, session, Protect(es[0], selected, session, values).value.1);
    }
  }

  lemma {:induction false} ProtectBranchesKeeps(
      branches: seq<Branch>, selected: Selected, session: TrustedSession, values: Bindings)
    requires SessionOnly(values, session) && ProtectBranches(branches, selected, session, values).Ok?
    ensures var out := ProtectBranches(branches, selected, session, values).value.1;
            SessionOnly(out, session) && Within(values, out)
    decreases branches, 0
  {
    if branches != [] {
      assert branches decreases to branches[0];
      var (_, values1) := Protect(branches[0].condition, selected, session, values).value;
      var (_, values2) := Protect(branches[0].value, selected, session, values1).value;
      ProtectKeeps(branches[0].condition, selected, session, values);
      ProtectKeeps(branches[0].value, selected, session, values1);
      ProtectBranchesKeeps(branches[1..], selected, session, values2);
    }
  }

  // ----- Without EXISTS there is nothing to protect -----

  lemma {:induction false} ProtectIdentity(e: BoundExpr, selected: Selected, session: TrustedSession, values: Bindings)
    requires Shape(e, false)
    ensures Protect(e, selected, session, values) == Ok((e, values))
    decreases e, 0
  {
    match e
    case Binary(_, left, right) =>
      ProtectIdentity(left, selected, session, values);
      ProtectIdentity(right, selected, session, values);
    case ConditionalOutput(value, visibleIf) =>
      ProtectIdentity(value, selected, session, values);
      ProtectIdentity(visibleIf, selected, session, values);
    case Unary(_, inner) => ProtectIdentity(inner, selected, session, values);
    case Scalar(_, arguments, _) => ProtectAllIdentity(arguments, selected, session, values);
    case In(expression, members, _) =>
      ProtectIdentity(expression, selected, session, values);
      ProtectAllIdentity(members, selected, session, values);
    case Case(branches, otherwise, _) =>
      ProtectBranchesIdentity(branches, selected, session, values);
      if otherwise.Some? {
        ProtectIdentity(otherwise.value, selected, session, values);
      }
    case _ =>
  }

  lemma {:induction false} ProtectAllIdentity(
      es: seq<BoundExpr>, selected: Selected, session: TrustedSession, values: Bindings)
    requires forall x | x in es :: Shape(x, false)
    ensures ProtectAll(es, selected, session, values) == Ok((es, values))
    decreases es, 0
  {
    if es != [] {
      ProtectIdentity(es[0], selected, session, values);
      ProtectAllIdentity(es[1..], selected, session, values);
      assert es == [es[0]] + es[1..];
    }
  }

  lemma {:induction false} ProtectBranchesIdentity(
      branches: seq<Branch>, selected: Selected, session: TrustedSession, values: Bindings)
    requires forall b: Branch | b in branches :: Shape(b.condition, false) && Shape(b.value, false)
    ensures ProtectBranches(branches, selected, session, values) == Ok((branches, values))
    decreases branches, 0
  {
    if branches != [] {
      assert branches decreases to branches[0];
      ProtectIdentity(branches[0].condition, selected, session, values);
      ProtectIdentity(branches[0].value, selected, session, values);
      ProtectBranchesIdentity(branches[1..], selected, session, values);
      assert branches == [branches[0]] + branches[1..];
    }
  }

  // ----- Agreement with the view -----

  lemma EnvOfUpdate(v: RoleView, env: Env, r: ResourceId, row: Row)
    ensures v.EnvOf(env[r := row]) == v.EnvOf(env)[r := v.Redact(r, row)]
  {
  }

  lemma {:induction false} KeepIsPick(c: Ctx, e: BoundExpr, envs: seq<Env>)
    ensures Keep(c, e, envs) == Pick(envs, Passes(c, Some(e)))
  {
    if envs != [] {
      KeepIsPick(c, e, envs[1..]);
    }
  }

  lemma {:induction false} PickAll<T>(items: seq<T>, p: T -> bool)
    requires forall x | x in items :: p(x)
    ensures Pick(items, p) == items
  {
    if items != [] {
      PickAll(items[1..], p);
    }
  }

  lemma WhereIsPick(c: Ctx, filter: Option<BoundExpr>, envs: seq<Env>)
    ensures Where(c, filter, envs) == Pick(envs, Passes(c, filter))
  {
    if filter.Some? {
      KeepIsPick(c, filter.value, envs);
    } else {
      PickAll(envs, Passes(c, filter));
    }
  }

  lemma {:induction false} PickSame<T>(items: seq<T>, p: T -> bool, q: T -> bool)
    requires forall x | x in items :: p(x) == q(x)
    ensures Pick(items, p) == Pick(items, q)
  {
    if items != [] {
      PickSame(items[1..], p, q);
    }
  }

  /** Picking extended environments, then viewing them, is picking the extensions by the view's rows. */
  lemma {:induction false} PickView(
      v: RoleView, p: Env -> bool, q: Env -> bool, r: ResourceId, rows: seq<Row>, env: Env)
    requires forall row | row in rows :: p(env[r := row]) <==> v.Shows(r, row) && q(v.EnvOf(env[r := row]))
    ensures v.EnvsOf(Pick(Extend(env, r, rows), p)) == Pick(Extend(v.EnvOf(env), r, v.RowsOf(r, rows)), q)
  {
    if rows != [] {
      var row, rest := rows[0], rows[1..];
      EnvOfUpdate(v, env, r, row);
      PickView(v, p, q, r, rest, env);
      var tail := Extend(env, r, rest);
      PickCons(env[r := row], tail, p);
      if v.Shows(r, row) {
        var seen := Extend(v.EnvOf(env), r, v.RowsOf(r, rest));
        assert ([v.Redact(r, row)] + v.RowsOf(r, rest))[1..] == v.RowsOf(r, rest);
        assert Extend(v.EnvOf(env), r, v.RowsOf(r, rows)) == [v.EnvOf(env[r := row])] + seen;
        PickCons(v.EnvOf(env[r := row]), seen, q);
        assert ([env[r := row]] + Pick(tail, p))[1..] == Pick(tail, p);
      } else {
        assert v.RowsOf(r, rows) == v.RowsOf(r, rest);
      }
    }
  }

  lemma PickCons<T>(x: T, items: seq<T>, p: T -> bool)
    ensures Pick([x] + items, p) == if p(x) then [x] + Pick(items, p) else Pick(items, p)
  {
    assert ([x] + items)[1..] == items;
  }

  lemma CellAgrees(v: RoleView, selected: Selected, env: Env, id: ColumnId)
    requires v.Valid() && Within(selected, v.policies) && id in RegularColumns(selected)
    ensures Cell(env, id) == Cell(v.EnvOf(env), id)
  {
    var r :| r in selected && id in selected[r].regular;
    assert PolicyOwned(v.policies[r], r);
  }

  lemma {:induction false} OrdersAgree(
      v: RoleView, selected: Selected, c: Ctx, cv: Ctx, orders: seq<BoundOrder>, env: Env)
    requires v.Valid() && Within(selected, v.policies)
    requires forall o: BoundOrder | o in orders :: o.expression.Column?
    requires ValidateOrders(orders, RegularColumns(selected)).Ok?
    ensures EvalOrders(c, orders, env) == EvalOrders(cv, orders, v.EnvOf(env))
  {
    if orders != [] {
      assert orders[0].expression.Column?;
      CellAgrees(v, selected, env, orders[0].expression.column.id);
      OrdersAgree(v, selected, c, cv, orders[1..], env);
    }
  }

  lemma CellsAgree(v: RoleView, selected: Selected, columns: seq<BoundColumn>, env: Env)
    requires v.Valid() && Within(selected, v.policies)
    requires forall column | column in columns :: column.id in RegularColumns(selected)
    ensures Cells(env, columns) == Cells(v.EnvOf(env), columns)
  {
    forall i | 0 <= i < |columns|
      ensures Cell(env, columns[i].id) == Cell(v.EnvOf(env), columns[i].id)
    {
      CellAgrees(v, selected, env, columns[i].id);
    }
  }

  /**
    * The rewritten client expression, on any real environment, has the value of the client's own
    * expression on the view of that environment.
    */
  lemma {:induction false} ProtectAgrees(
    v: RoleView, selected: Selected, params: Bindings, db: Database, e: BoundExpr, nesting: bool, values: Bindings,
    env: Env)
    requires v.Valid() && Within(selected, v.policies) && SessionOnly(values, v.session)
    requires Shape(e, nesting) && ValidateClient(e, RegularColumns(selected)).Ok?
    requires Protect(e, selected, v.session, values).Ok?
    requires Within(Protect(e, selected, v.session, values).value.1, params)
    ensures Eval(RealCtx(v, params, db), Protect(e, selected, v.session, values).value.0, env)
         == Eval(ViewCtx(v, params, db), e, v.EnvOf(env))
    decreases e, 1
  {
    match e
    case Column(column) => CellAgrees(v, selected, env, column.id);
    case Binary(_, _, _) => ProtectBinaryAgrees(v, selected, params, db, e, nesting, values, env);
    case Unary(_, _) => ProtectUnaryAgrees(v, selected, params, db, e, nesting, values, env);
    case Scalar(_, _, _) => ProtectScalarAgrees(v, selected, params, db, e, nesting, values, env);
    case In(_, _, _) => ProtectInAgrees(v, selected, params, db, e, nesting, values, env);
    case Case(_, _, _) => ProtectCaseAgrees(v, selected, params, db, e, nesting, values, env);
    case Exists(select) =>
      assert e decreases to select;
      ProtectNestedAgrees(v, selected, params, db, select, values, env);
    case RowNumber(_, _, _) => ProtectRankAgrees(v, selected, params, db, e, env);
    case _ =>
  }

  lemma ProtectRankAgrees(v: RoleView, selected: Selected, params: Bindings, db: Database, e: BoundExpr, env: Env)
    requires v.Valid() && Within(selected, v.policies)
    requires e.RowNumber? && Shape(e, false) && ValidateClient(e, RegularColumns(selected)).Ok?
    ensures Eval(RealCtx(v, params, db), e, env) == Eval(ViewCtx(v, params, db), e, v.EnvOf(env))
  {
    CellsAgree(v, selected, e.partitionBy, env);
    OrdersAgree(v, selected, RealCtx(v, params, db), ViewCtx(v, params, db), e.orderBy, env);
  }

  lemma {:induction false} ProtectUnaryAgrees(
    v: RoleView, selected: Selected, params: Bindings, db: Database, e: BoundExpr, nesting: bool, values: Bindings,
    env: Env)
    requires v.Valid() && Within(selected, v.policies) && SessionOnly(values, v.session)
    requires e.Unary? && Shape(e, nesting) && ValidateClient(e, RegularColumns(selected)).Ok?
    requires Protect(e, selected, v.session, values).Ok?
    requires Within(Protect(e, selected, v.session, values).value.1, params)
    ensures Eval(RealCtx(v, params, db), Protect(e, selected, v.session, values).value.0, env)
         == Eval(ViewCtx(v, params, db), e, v.EnvOf(env))
    decreases e, 0
  {
    ProtectAgrees(v, selected, params, db, e.inner, nesting, values, env);
  }

  lemma {:induction false} ProtectScalarAgrees(
    v: RoleView, selected: Selected, params: Bindings, db: Database, e: BoundExpr, nesting: bool, values: Bindings,
    env: Env)
    requires v.Valid() && Within(selected, v.policies) && SessionOnly(values, v.session)
    requires e.Scalar? && Shape(e, nesting) && ValidateClient(e, RegularColumns(selected)).Ok?
    requires Protect(e, selected, v.session, values).Ok?
    requires Within(Protect(e, selected, v.session, values).value.1, params)
    ensures Eval(RealCtx(v, params, db), Protect(e, selected, v.session, values).value.0, env)
         == Eval(ViewCtx(v, params, db), e, v.EnvOf(env))
    decreases e, 0
  {
    ProtectAllAgrees(v, selected, params, db, e.arguments, nesting, values, env);
  }

  lemma {:induction false} ProtectBinaryAgrees(
    v: RoleView, selected: Selected, params: Bindings, db: Database, e: BoundExpr, nesting: bool, values: Bindings,
    env: Env)
    requires v.Valid() && Within(selected, v.policies) && SessionOnly(values, v.session)
    requires e.Binary? && Shape(e, nesting) && ValidateClient(e, RegularColumns(selected)).Ok?
    requires Protect(e, selected, v.session, values).Ok?
    requires Within(Protect(e, selected, v.session, values).value.1, params)
    ensures Eval(RealCtx(v, params, db), Protect(e, selected, v.session, values).value.0, env)
         == Eval(ViewCtx(v, params, db), e, v.EnvOf(env))
    decreases e, 0
  {
    var values' := Protect(e.left, selected, v.session, values).value.1;
    ProtectKeeps(e.left, selected, v.session, values);
    ProtectKeeps(e.right, selected, v.session, values');
    ProtectAgrees(v, selected, params, db, e.left, nesting, values, env);
    ProtectAgrees(v, selected, params, db, e.right, nesting, values', env);
  }

  lemma {:induction false} ProtectInAgrees(
    v: RoleView, selected: Selected, params: Bindings, db: Database, e: BoundExpr, nesting: bool, values: Bindings,
    env: Env)
    requires v.Valid() && Within(selected, v.policies) && SessionOnly(values, v.session)
    requires e.In? && Shape(e, nesting) && ValidateClient(e, RegularColumns(selected)).Ok?
    requires Protect(e, selected, v.session, values).Ok?
    requires Within(Protect(e, selected, v.session, values).value.1, params)
    ensures Eval(RealCtx(v, params, db), Protect(e, selected, v.session, values).value.0, env)
         == Eval(ViewCtx(v, params, db), e, v.EnvOf(env))
    decreases e, 0
  {
    var values' := Protect(e.expression, selected, v.session, values).value.1;
    ProtectKeeps(e.expression, selected, v.session, values);
    ProtectAllKeeps(e.values, selected, v.session, values');
    ProtectAgrees(v, selected, params, db, e.expression, nesting, values, env);
    ProtectAllAgrees(v, selected, params, db, e.values, nesting, values', env);
  }

  lemma {:induction false} ProtectCaseAgrees(
    v: RoleView, selected: Selected, params: Bindings, db: Database, e: BoundExpr, nesting: bool, values: Bindings,
    env: Env)
    requires v.Valid() && Within(selected, v.policies) && SessionOnly(values, v.session)
    requires e.Case? && Shape(e, nesting) && ValidateClient(e, RegularColumns(selected)).Ok?
    requires Protect(e, selected, v.session, values).Ok?
    requires Within(Protect(e, selected, v.session, values).value.1, params)
    ensures Eval(RealCtx(v, params, db), Protect(e, selected, v.session, values).value.0, env)
         == Eval(ViewCtx(v, params, db), e, v.EnvOf(env))
    decreases e, 0
  {
    var values' := ProtectBranches(e.branches, selected, v.session, values).value.1;
    ProtectBranchesKeeps(e.branches, selected, v.session, values);
    ProtectOptionKeeps(e.otherwise, selected, v.session, values');
    ProtectBranchesAgrees(v, selected, params, db, e.branches, nesting, values, env);
    if e.otherwise.Some? {
      ProtectAgrees(v, selected, params, db, e.otherwise.value, nesting, values', env);
    }
  }

  lemma {:induction false} ProtectAllAgrees(
    v: RoleView, selected: Selected, params: Bindings, db: Database, es: seq<BoundExpr>, nesting: bool,
    values: Bindings, env: Env)
    requires v.Valid() && Within(selected, v.policies) && SessionOnly(values, v.session)
    requires forall x | x in es :: Shape(x, nesting)
    requires ValidateAll(es, RegularColumns(selected)).Ok?
    requires ProtectAll(es, selected, v.session, values).Ok?
    requires Within(ProtectAll(es, selected, v.session, values).value.1, params)
    ensures EvalAll(RealCtx(v, params, db), ProtectAll(es, selected, v.session, values).value.0, env)
         == EvalAll(ViewCtx(v, params, db), es, v.EnvOf(env))
    decreases es, 0
  {
    if es != [] {
      var (first, values') := Protect(es[0], selected, v.session, values).value;
      var (rest, _) := ProtectAll(es[1..], selected, v.session, values').value;
      ProtectKeeps(es[0], selected, v.session, values);
      ProtectAllKeeps(es[1..], selected, v.session, values');
      ProtectAgrees(v, selected, params, db, es[0], nesting, values, env);
      ProtectAllAgrees(v, selected, params, db, es[1..], nesting, values', env);
      assert ([first] + rest)[1..] == rest;
    }
  }

  lemma {:induction false} ProtectBranchesAgrees(
    v: RoleView, selected: Selected, params: Bindings, db: Database, branches: seq<Branch>, nesting: bool,
    values: Bindings, env: Env)
    requires v.Valid() && Within(selected, v.policies) && SessionOnly(values, v.session)
    requires forall b: Branch | b in branches :: Shape(b.condition, nesting) && Shape(b.value, nesting)
    requires ValidateBranches(branches, RegularColumns(selected)).Ok?
    requires ProtectBranches(branches, selected, v.session, values).Ok?
    requires Within(ProtectBranches(branches, selected, v.session, values).value.1, params)
    ensures EvalBranches(RealCtx(v, params, db), ProtectBranches(branches, selected, v.session, values).value.0, env)
         == EvalBranches(ViewCtx(v, params, db), branches, v.EnvOf(env))
    decreases branches, 0
  {
    if branches != [] {
      assert branches decreases to branches[0];
      var (condition, values1) := Protect(branches[0].condition, selected, v.session, values).value;
      var (value, values2) := Protect(branches[0].value, selected, v.session, values1).value;
      var (rest, _) := ProtectBranches(branches[1..], selected, v.session, values2).value;
      ProtectKeeps(branches[0].condition, selected, v.session, values);
      ProtectKeeps(branches[0].value, selected, v.session, values1);
      ProtectBranchesKeeps(branches[1..], selected, v.session, values2);
      ProtectAgrees(v, selected, params, db, branches[0].condition, nesting, values, env);
      ProtectAgrees(v, selected, params, db, branches[0].value, nesting, values1, env);
      ProtectBranchesAgrees(v, selected, params, db, branches[1..], nesting, values2, env);
      assert ([Branch(condition, value)] + rest)[1..] == rest;
    }
  }

  /** At one row the protected condition is the view's row filter together with the client's condition. */
  ghost predicate RowAgrees(
    v: RoleView, c: Ctx, cv: Ctx, protected: BoundExpr, client: Option<BoundExpr>, r: ResourceId, env: Env, row: Row)
  {
    IsTrue(c, protected, env[r := row])
    <==> v.Shows(r, row) && Satisfies(cv, client, v.EnvOf(env[r := row]))
  }

  /** Row by row: keeping the protected condition's rows, then viewing them, is filtering the view. */
  lemma KeepView(
    v: RoleView, c: Ctx, cv: Ctx, protected: BoundExpr, client: Option<BoundExpr>, r: ResourceId,
    rows: seq<Row>, env: Env)
    requires forall row | row in rows :: RowAgrees(v, c, cv, protected, client, r, env, row)
    ensures v.EnvsOf(Keep(c, protected, Extend(env, r, rows)))
         == Where(cv, client, Extend(v.EnvOf(env), r, v.RowsOf(r, rows)))
  {
    var p, q := Passes(c, Some(protected)), Passes(cv, client);
    forall row | row in rows
      ensures p(env[r := row]) <==> v.Shows(r, row) && q(v.EnvOf(env[r := row]))
    {
      assert RowAgrees(v, c, cv, protected, client, r, env, row);
    }
    PickView(v, p, q, r, rows, env);
    KeepIsPick(c, protected, Extend(env, r, rows));
    WhereIsPick(cv, client, Extend(v.EnvOf(env), r, v.RowsOf(r, rows)));
  }

  /** `AndOptional` adds a condition: it is True exactly when both are. */
  lemma AndOptionalTrue(c: Ctx, current: Option<BoundExpr>, required: BoundExpr, env: Env)
    ensures IsTrue(c, AndOptional(current, required), env)
       <==> Satisfies(c, current, env) && IsTrue(c, required, env)
  {
  }

  lemma {:induction false} ProtectNestedAgrees(
    v: RoleView, selected: Selected, params: Bindings, db: Database, s: BoundSelect, values: Bindings, env: Env)
    requires v.Valid() && Within(selected, v.policies) && SessionOnly(values, v.session)
    requires NestedShape(s) && ValidateOption(s.filter, RegularColumns(selected)).Ok?
    requires Protect(Exists(s), selected, v.session, values).Ok?
    requires Within(Protect(Exists(s), selected, v.session, values).value.1, params)
    ensures Eval(RealCtx(v, params, db), Protect(Exists(s), selected, v.session, values).value.0, env)
         == Eval(ViewCtx(v, params, db), Exists(s), v.EnvOf(env))
    decreases s, 1
  {
    var c, cv := RealCtx(v, params, db), ViewCtx(v, params, db);
    var (inner, values') := ProtectOption(s.filter, selected, v.session, values).value;
    var r, policy := s.resource, selected[s.resource];
    var (filter, _) := Instantiate(policy.rowFilter, v.session, values').value;
    var protected := AndOptional(inner, filter);
    ProtectOptionKeeps(s.filter, selected, v.session, values);
    InstantiateKeeps(policy.rowFilter, v.session, values');
    forall row | row in Rows(db, r)
      ensures RowAgrees(v, c, cv, protected, s.filter, r, env, row)
    {
      AndOptionalTrue(c, inner, filter, env[r := row]);
      InstantiateMeaning(policy.rowFilter, r, v.session, values', c, env[r := row]);
      if s.filter.Some? {
        ProtectAgrees(v, selected, params, db, s.filter.value, true, values, env[r := row]);
      }
    }
    KeepView(v, c, cv, protected, s.filter, r, Rows(db, r), env);
    NestedResult(v, c, cv, s, protected, policy, db, env);
  }

  /** The policy limit of a nested select matters only when it is zero. */
  lemma NestedResult(
    v: RoleView, c: Ctx, cv: Ctx, s: BoundSelect, protected: BoundExpr, policy: SelectPolicy, db: Database, env: Env)
    requires s.joins == [] && s.limit == None && s.offset == None
    requires c.nested == db && cv.nested == v.NestedOf(db)
    requires s.resource in v.policies && v.policies[s.resource] == policy
    requires v.EnvsOf(Keep(c, protected, Extend(env, s.resource, Rows(db, s.resource))))
          == Where(cv, s.filter, Extend(v.EnvOf(env), s.resource, v.RowsOf(s.resource, Rows(db, s.resource))))
    ensures var s' := s.(filter := Some(protected), limit := LimitWith(s.limit, policy.limit));
            Eval(c, Exists(s'), env) == Eval(cv, Exists(s), v.EnvOf(env))
  {
    var s' := s.(filter := Some(protected), limit := LimitWith(s.limit, policy.limit));
    var kept := SelectEnvs(c, s', db, env);
    var rows := Extend(env, s.resource, Rows(db, s.resource));
    PlainEnvs(c, s', db, env);
    PlainEnvs(cv, s, cv.nested, v.EnvOf(env));
    assert kept == Keep(c, protected, rows);
    NestedEval(c, s', env, policy.limit);
    NestedEval(cv, s, v.EnvOf(env), None);
    assert v.EnvsOf(kept) == [] <==> kept == [];
    var seen := SelectEnvs(cv, s, cv.nested, v.EnvOf(env));
    if policy.limit == Some(0) {
      assert Rows(cv.nested, s.resource) == [];
      assert seen == [];
    } else {
      assert Rows(cv.nested, s.resource) == v.RowsOf(s.resource, Rows(db, s.resource));
      assert seen == v.EnvsOf(kept);
    }
  }

  lemma PlainEnvs(c: Ctx, s: BoundSelect, source: Database, outer: Env)
    requires s.joins == []
    ensures SelectEnvs(c, s, source, outer) == Where(c, s.filter, Extend(outer, s.resource, Rows(source, s.resource)))
  {
    assert JoinAll(c, s.joins, source, Extend(outer, s.resource, Rows(source, s.resource)))
        == Extend(outer, s.resource, Rows(source, s.resource));
  }

  /** A nested select under a policy limit is true when it has a row and the limit is not zero. */
  lemma NestedEval(c: Ctx, s: BoundSelect, env: Env, limit: Option<nat>)
    requires s.limit == LimitWith(None, limit) && s.offset == None
    ensures Eval(c, Exists(s), env) == Boolean(SelectEnvs(c, s, c.nested, env) != [] && limit != Some(0))
  {
    if limit.Some? {
      assert EvalOption(c, s.limit, env) == Some(Int64(PolicyBound(limit.value)));
    }
  }
}
