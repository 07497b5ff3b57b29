/**
  * Where the view theorems stop: an EXISTS outside WHERE is not rewritten.
  */
module Boundary {
  import opened Core
  import opened Ir
  import opened Semantics
  import opened Policy
  import opened View
  import opened Compile
  import opened Protection
  import opened ViewTheorem
  import opened Results
  import opened Alias
  import opened Emit
  import opened EmitInvariants
  import opened EmitMeaning
  import opened SqlSemantics
  import opened EndToEnd
  import opened Text
  import B = Binder
  import S = Surface

  // ----- EXISTS outside WHERE -----

  const EVERY_ROW := NullTest(BoundColumn(ColumnId(1, 0), Int64Type), false)
  const NO_ROW := NullTest(BoundColumn(ColumnId(2, 0), Int64Type), true)

  /** A role that sees resource 1 where it has a value, and resource 2 only where it has none. */
  const SAMPLE_BUNDLE := PolicyBundle(
    map[1 := map["reader" := SelectPolicy({ColumnId(1, 0)}, map[], EVERY_ROW, None, false, false)],
        2 := map["reader" := SelectPolicy({ColumnId(2, 0)}, map[], NO_ROW, None, false, false)]],
    map[], map[], map[])

  const SAMPLE_SESSION := TrustedSession("reader", map[])

  /** SELECT 1 FROM resource. */
  function AnyRowOf(r: ResourceId): BoundSelect {
    BoundSelect(r, [], [BoundProjection(Literal(Int64(1)), "exists_value")], None, [], None, [], None, None)
  }

  const SAMPLE_CASE := Case([Branch(Exists(AnyRowOf(2)), Literal(Int64(1)))], None, Int64Type)

  /** SELECT CASE WHEN EXISTS (SELECT 1 FROM 2) THEN 1 END FROM 1 WHERE NOT EXISTS (SELECT 1 FROM 2). */
  const SAMPLE_SELECT := BoundSelect(
    1, [], [BoundProjection(SAMPLE_CASE, "seen")], Some(Unary(Not, Exists(AnyRowOf(2)))), [], None, [], None, None)

  const SHOWN := Unary(Not, Unary(IsNull, Column(BoundColumn(ColumnId(1, 0), Int64Type))))
  const HIDDEN := Unary(IsNull, Column(BoundColumn(ColumnId(2, 0), Int64Type)))
  const SAMPLE_FILTER := Unary(Not, Exists(AnyRowOf(2).(filter := Some(HIDDEN))))

  /** The compiled sample: both row filters were added in WHERE, none in the projection. */
  const SAMPLE_PROTECTED := SAMPLE_SELECT.(filter := Some(Binary(And, SAMPLE_FILTER, SHOWN)))

  function SampleDatabase(row: Row, hidden: seq<Row>): Database {
    map[1 := [row], 2 := hidden]
  }

  /**
    * The sample is accepted and emitted, because its WHERE gives resource 2 an alias; the emitted
    * query then answers differently on two databases that look alike to the role.
    */
  lemma ExistsOutsideWhereLeaks(v: RoleView, em: Emitter, params: Bindings, row: Row, sc1: SqlCtx, sc2: SqlCtx)
    requires v == ViewOf(SAMPLE_BUNDLE, v.engine, SAMPLE_SESSION) && row == map[0 := Int64(7)]
    requires em.aliases == AliasesFor(SAMPLE_PROTECTED) && Catalogued(em)
    requires Stores(v, em, params, SampleDatabase(row, []), sc1)
    requires Stores(v, em, params, SampleDatabase(row, [row]), sc2)
    ensures v.Valid() && v.DatabaseOf(SampleDatabase(row, [])) == v.DatabaseOf(SampleDatabase(row, [row]))
    ensures CompileSelect(SAMPLE_BUNDLE, SAMPLE_SELECT, SAMPLE_SESSION)
         == Ok(ProtectedPlan(SAMPLE_PROTECTED, map[], None, None, None))
    ensures EmitSelect(em, SAMPLE_PROTECTED, Start(map[])).Ok?
    ensures var q := EmitSelect(em, SAMPLE_PROTECTED, Start(map[])).value.0; SqlAnswer(sc1, q) != SqlAnswer(sc2, q)
  {
    SampleView(v, row);
    SampleCompiles();
    SampleAliases();
    SampleEmits(em);
    StartIsGood(map[]);
    SampleAnswer(v, em, params, row, [], sc1);
    SampleAnswer(v, em, params, row, [row], sc2);
  }

  /** The catalog knows both tables and the column each row filter reads. */
  predicate Catalogued(em: Emitter) {
    1 in em.catalog && 2 in em.catalog && 0 in em.catalog[1].columns && 0 in em.catalog[2].columns
  }

  lemma SampleView(v: RoleView, row: Row)
    requires v == ViewOf(SAMPLE_BUNDLE, v.engine, SAMPLE_SESSION)
    requires row == map[0 := Int64(7)]
    ensures v.Valid() && v.DatabaseOf(SampleDatabase(row, [])) == v.DatabaseOf(SampleDatabase(row, [row]))
  {
    assert v.policies.Keys == {1, 2};
    SamplePoliciesOwned();
    SameSampleView(v, row);
  }

  lemma SamplePoliciesOwned()
    ensures PolicyOwned(SAMPLE_BUNDLE.select[1]["reader"], 1) && PolicyOwned(SAMPLE_BUNDLE.select[2]["reader"], 2)
  {
    assert Owned(EVERY_ROW, 1);
    assert Owned(NO_ROW, 2);
  }

  lemma SameSampleView(v: RoleView, row: Row)
    requires v.policies.Keys == {1, 2} && v.policies[2].rowFilter == NO_ROW
    requires row == map[0 := Int64(7)]
    ensures v.DatabaseOf(SampleDatabase(row, [])) == v.DatabaseOf(SampleDatabase(row, [row]))
  {
    assert PredicateTruth(v.engine, NO_ROW, row, v.session) == False;
    var one: seq<Row> := [row];
    assert one[1..] == [];
    assert v.RowsOf(2, one) == [];
    assert v.RowsOf(2, []) == [];
  }

  // ----- The sample is what a written query binds to -----

  function Written(first: string, second: string): S.Select {
    var any := S.ExistsIn(second, None, None);
    var seen := S.Choice([S.Arm(any, S.Constant(Int64(1)))], None, Int64Type);
    S.Select(S.Table(first, None), [], [S.Column(seen, Some("seen"))], Some(S.Prefix(Not, any)), S.PLAIN)
  }

  lemma WrittenBinds(cat: S.Catalog, first: string, second: string)
    requires LowerText(first) in cat.tables && LowerText(second) in cat.tables
    requires cat.tables[LowerText(first)].id == 1 && cat.tables[LowerText(second)].id == 2
    ensures B.BindSelect(cat, Written(first, second)) == Ok(SAMPLE_SELECT)
  {
    var root := B.BindTable(cat, first, None).value;
    var w := Written(first, second);
    WrittenCaseBinds(cat, root, second);
    assert w.columns[1..] == [];
    assert B.BindColumns(cat, [root], []) == Ok([]);
    var p := SAMPLE_SELECT.projections[0];
    assert B.BindColumn(cat, [root], w.columns[0]) == Ok(p);
    assert B.BindColumns(cat, [root], w.columns) == Ok([p]) by { assert [p] + [] == [p]; }
    LowerSeen();
    AnyRowBinds(cat, root, second);
    assert B.BindOption(cat, [root], w.filter) == Ok(SAMPLE_SELECT.filter);
  }

  lemma AnyRowBinds(cat: S.Catalog, root: B.BindScope, table: string)
    requires LowerText(table) in cat.tables && cat.tables[LowerText(table)].id != root.resource
    ensures B.BindExpr(cat, [root], S.ExistsIn(table, None, None))
            == Ok(Exists(AnyRowOf(cat.tables[LowerText(table)].id)))
  {
    var source := B.BindTable(cat, table, None).value;
    assert !B.InScope([root], source.resource);
    assert B.BindOption(cat, [root] + [source], None) == Ok(None);
  }

  lemma WrittenCaseBinds(cat: S.Catalog, root: B.BindScope, second: string)
    requires root.resource == 1 && LowerText(second) in cat.tables && cat.tables[LowerText(second)].id == 2
    ensures B.BindExpr(cat, [root], Written("", second).columns[0].expression) == Ok(SAMPLE_CASE)
  {
    AnyRowBinds(cat, root, second);
    var arms := Written("", second).columns[0].expression.arms;
    assert arms[1..] == [];
    assert B.BindArms(cat, [root], []) == Ok([]) && B.BindOption(cat, [root], None) == Ok(None);
    var branch := Branch(Exists(AnyRowOf(2)), Literal(Int64(1)));
    assert B.BindArms(cat, [root], arms) == Ok([branch]) by { assert [branch] + [] == [branch]; }
  }

  lemma LowerSeen()
    ensures LowerText("seen") == "seen"
  {
    assert "seen"[1..] == "een" && "een"[1..] == "en" && "en"[1..] == "n" && "n"[1..] == "";
  }

  // ----- The sample compiles -----

  const SAMPLE_SELECTED: Selected :=
    map[1 := SAMPLE_BUNDLE.select[1]["reader"], 2 := SAMPLE_BUNDLE.select[2]["reader"]]

  lemma SampleResources()
    ensures QueryResources(SAMPLE_SELECT) == [1, 2]
  {
    assert [1, 2][1..] == [2] && [2][1..] == [];
    CollectAnyRow(2);
    assert Collect(SAMPLE_SELECT.filter.value) == [2];
    assert [1] + seq(0, i requires 0 <= i < 0 => 0) + [2] == [1, 2];
    assert SortDedup([2]) == [2];
    assert SortDedup([1, 2]) == [1, 2];
  }

  lemma SamplePolicies()
    ensures SelectPolicies(SAMPLE_BUNDLE, [1, 2], "reader") == Ok(SAMPLE_SELECTED)
  {
    var second := SAMPLE_BUNDLE.select[2]["reader"];
    assert [1, 2][1..] == [2] && [2][1..] == [];
    assert SelectPolicies(SAMPLE_BUNDLE, [], "reader") == Ok(map[]);
    assert SelectPolicies(SAMPLE_BUNDLE, [2], "reader") == Ok(map[2 := second]);
    assert map[2 := second][1 := SAMPLE_BUNDLE.select[1]["reader"]] == SAMPLE_SELECTED;
  }

  lemma SampleLimit()
    ensures MinLimit(SAMPLE_SELECTED, [1, 2]) == None
  {
    assert [1, 2][1..] == [2] && [2][1..] == [];
    assert MinLimit(SAMPLE_SELECTED, []) == None;
    assert MinLimit(SAMPLE_SELECTED, [2]) == None;
  }

  lemma CollectAnyRow(r: ResourceId)
    ensures Collect(Exists(AnyRowOf(r))) == [r]
  {
    var ps := AnyRowOf(r).projections;
    assert ps[1..] == [];
    assert CollectProjections(ps) == [];
  }

  lemma AnyRowValid(r: ResourceId, regular: set<ColumnId>)
    ensures ValidateClient(Exists(AnyRowOf(r)), regular) == Ok(())
  {
    var ps := AnyRowOf(r).projections;
    assert ps[1..] == [];
    assert ValidateProjections(ps, regular) == Ok(());
  }

  lemma SampleChecked(projections: seq<BoundProjection>)
    requires projections == SAMPLE_SELECT.projections
    ensures PermitProjections(projections, SAMPLE_SELECTED, SAMPLE_SESSION, map[]) == Ok((projections, map[]))
    ensures CheckSelect(SAMPLE_SELECT, projections, SAMPLE_SELECTED) == Ok(())
  {
    var regular := RegularColumns(SAMPLE_SELECTED);
    assert projections[1..] == [];
    assert PermitProjections([], SAMPLE_SELECTED, SAMPLE_SESSION, map[]) == Ok(([], map[]));
    assert PermitProjection(projections[0], SAMPLE_SELECTED, SAMPLE_SESSION, map[]) == Ok((projections[0], map[]));
    assert projections == [projections[0]] + [];
    AnyRowValid(2, regular);
    var branches := SAMPLE_CASE.branches;
    assert branches[1..] == [];
    assert ValidateBranches(branches, regular) == Ok(());
    assert ValidateClient(SAMPLE_CASE, regular) == Ok(());
    assert CheckProjections(projections, SAMPLE_SELECTED, regular) == Ok(());
  }

  lemma SampleCompiles()
    ensures CompileSelect(SAMPLE_BUNDLE, SAMPLE_SELECT, SAMPLE_SESSION)
         == Ok(ProtectedPlan(SAMPLE_PROTECTED, map[], None, None, None))
  {
    SampleResources();
    SamplePolicies();
    SampleLimit();
    SampleChecked(SAMPLE_SELECT.projections);
    assert Instantiate(NO_ROW, SAMPLE_SESSION, map[]) == Ok((HIDDEN, map[]));
    assert Instantiate(EVERY_ROW, SAMPLE_SESSION, map[]) == Ok((SHOWN, map[]));
    assert Protect(Exists(AnyRowOf(2)), SAMPLE_SELECTED, SAMPLE_SESSION, map[])
        == Ok((SAMPLE_FILTER.inner, map[]));
    assert ProtectOption(SAMPLE_SELECT.filter, SAMPLE_SELECTED, SAMPLE_SESSION, map[])
           == Ok((Some(SAMPLE_FILTER), map[]));
  }

  // ----- The sample is emitted -----

  lemma SampleAliases()
    ensures Injective(AliasesFor(SAMPLE_PROTECTED)) && 1 in AliasesFor(SAMPLE_PROTECTED)
    ensures 2 in AliasesFor(SAMPLE_PROTECTED)
  {
    AliasesInjectiveAndTotal(SAMPLE_PROTECTED);
    assert Covered(SAMPLE_FILTER, AliasesFor(SAMPLE_PROTECTED));
  }

  lemma AnyRowEmits(em: Emitter, r: ResourceId, filter: Option<BoundExpr>, st: EmitState)
    requires r in em.catalog && r in em.aliases && EmitOption(em, filter, st).Ok?
    requires EmitOption(em, filter, st).value.1 == st
    ensures EmitSelect(em, AnyRowOf(r).(filter := filter), st).Ok?
    ensures EmitSelect(em, AnyRowOf(r).(filter := filter), st).value.1 == st
  {
    var s := AnyRowOf(r).(filter := filter);
    PlainParts(em, st);
    OneProjection(em, s.projections[0], st);
  }

  /** Absent clauses are emitted as absent. */
  lemma PlainParts(em: Emitter, st: EmitState)
    ensures EmitJoins(em, [], st) == Ok(([], st)) && EmitGroupBy(em, [], None, st) == Ok((None, st))
    ensures EmitOrders(em, [], st) == Ok(([], st)) && EmitOption(em, None, st) == Ok((None, st))
  {
  }

  lemma OneProjection(em: Emitter, p: BoundProjection, st: EmitState)
    requires !p.expression.ConditionalOutput? && EmitExpr(em, p.expression, st).Ok?
    requires EmitExpr(em, p.expression, st).value.1 == st
    ensures EmitProjections(em, [p], 0, st).Ok? && EmitProjections(em, [p], 0, st).value.1 == st
  {
    assert [p][1..] == [];
    assert EmitProjections(em, [], 1, st) == Ok(([], st));
  }

  lemma SampleEmits(em: Emitter)
    requires Catalogued(em) && 1 in em.aliases && 2 in em.aliases
    ensures EmitSelect(em, SAMPLE_PROTECTED, Start(map[])).Ok?
    ensures EmitSelect(em, SAMPLE_PROTECTED, Start(map[])).value.1 == Start(map[])
  {
    var st := Start(map[]);
    SampleCaseEmits(em, st);
    SampleFilterEmits(em, st);
    PlainParts(em, st);
    OneProjection(em, SAMPLE_SELECT.projections[0], st);
  }

  lemma SampleCaseEmits(em: Emitter, st: EmitState)
    requires 2 in em.catalog && 2 in em.aliases
    ensures EmitExpr(em, SAMPLE_CASE, st).Ok? && EmitExpr(em, SAMPLE_CASE, st).value.1 == st
  {
    PlainParts(em, st);
    AnyRowEmits(em, 2, None, st);
    assert AnyRowOf(2).(filter := None) == AnyRowOf(2);
    var branches := SAMPLE_CASE.branches;
    assert branches[1..] == [];
    assert EmitBranches(em, [], st) == Ok(([], st));
    assert EmitExpr(em, branches[0].condition, st).Ok? && EmitExpr(em, branches[0].condition, st).value.1 == st;
    assert EmitBranches(em, branches, st).Ok? && EmitBranches(em, branches, st).value.1 == st;
  }

  lemma SampleFilterEmits(em: Emitter, st: EmitState)
    requires Catalogued(em) && 1 in em.aliases && 2 in em.aliases
    ensures EmitOption(em, SAMPLE_PROTECTED.filter, st).Ok? && EmitOption(em, SAMPLE_PROTECTED.filter, st).value.1 == st
  {
    NullTestsEmit(em, st);
    AnyRowEmits(em, 2, Some(HIDDEN), st);
    assert EmitExpr(em, SAMPLE_FILTER, st).Ok? && EmitExpr(em, SAMPLE_FILTER, st).value.1 == st;
  }

  lemma NullTestsEmit(em: Emitter, st: EmitState)
    requires Catalogued(em) && 1 in em.aliases && 2 in em.aliases
    ensures EmitExpr(em, SHOWN, st).Ok? && EmitExpr(em, SHOWN, st).value.1 == st
    ensures EmitExpr(em, HIDDEN, st).Ok? && EmitExpr(em, HIDDEN, st).value.1 == st
    ensures EmitOption(em, Some(HIDDEN), st).Ok? && EmitOption(em, Some(HIDDEN), st).value.1 == st
  {
  }

  // ----- The sample's answer -----

  /** The emitted sample's answer is 1 when resource 2 has rows and NULL when it has none. */
  lemma SampleAnswer(v: RoleView, em: Emitter, params: Bindings, row: Row, hidden: seq<Row>, sc: SqlCtx)
    requires row == map[0 := Int64(7)] && (hidden == [] || hidden == [row])
    requires Catalogued(em) && Injective(em.aliases) && 1 in em.aliases && 2 in em.aliases
    requires Stores(v, em, params, SampleDatabase(row, hidden), sc) && Good(Start(map[]))
    ensures EmitSelect(em, SAMPLE_PROTECTED, Start(map[])).Ok?
    ensures SqlAnswer(sc, EmitSelect(em, SAMPLE_PROTECTED, Start(map[])).value.0)
         == [SqlObservation([if hidden == [] then Null else Int64(1)], [], None, [])]
  {
    var db := SampleDatabase(row, hidden);
    var c := RealCtx(v, params, db);
    var env: Env := map[1 := row];
    SampleEmits(em);
    EmissionPreservesAnswer(em, SAMPLE_PROTECTED, Start(map[]), c, sc);
    SampleEnvs(c, row, hidden);
    SampleObserved(c, env, hidden);
    assert [env][1..] == [];
    assert PhysicalObserveAll(c, SAMPLE_PROTECTED, []) == [];
  }

  lemma SampleEnvs(c: Ctx, row: Row, hidden: seq<Row>)
    requires row == map[0 := Int64(7)] && (hidden == [] || hidden == [row]) && c.nested == SampleDatabase(row, hidden)
    ensures SelectEnvs(c, SAMPLE_PROTECTED, c.nested, map[]) == [map[1 := row]]
  {
    var none: Env := map[];
    var env := none[1 := row];
    assert Extend(none, 1, [row]) == [env] by { assert [row][1..] == []; }
    NothingVisible(c, env, row, hidden);
    assert Eval(c, SHOWN, env) == Boolean(true);
    assert IsTrue(c, Binary(And, SAMPLE_FILTER, SHOWN), env);
    PlainEnvs(c, SAMPLE_PROTECTED, c.nested, none);
    KeepOne(c, Binary(And, SAMPLE_FILTER, SHOWN), env);
    assert env == map[1 := row];
  }

  lemma KeepOne(c: Ctx, e: BoundExpr, env: Env)
    ensures Keep(c, e, [env]) == if IsTrue(c, e, env) then [env] else []
  {
    var rest: seq<Env> := [env][1..];
    assert rest == [] && Keep(c, e, rest) == [];
  }

  lemma NothingVisible(c: Ctx, env: Env, row: Row, hidden: seq<Row>)
    requires row == map[0 := Int64(7)] && (hidden == [] || hidden == [row]) && c.nested == SampleDatabase(row, hidden)
    ensures Eval(c, SAMPLE_FILTER, env) == Boolean(true)
  {
    var s := AnyRowOf(2).(filter := Some(HIDDEN));
    PlainEnvs(c, s, c.nested, env);
    var inner := env[2 := row];
    assert Eval(c, HIDDEN, inner) == Boolean(false);
    assert !IsTrue(c, HIDDEN, inner);
    assert [row][1..] == [];
    assert hidden == [row] ==> Extend(env, 2, hidden) == [inner];
    KeepOne(c, HIDDEN, inner);
    assert SelectEnvs(c, s, c.nested, env) == [];
    NestedEval(c, s, env, None);
  }

  lemma SampleObserved(c: Ctx, env: Env, hidden: seq<Row>)
    requires Rows(c.nested, 2) == hidden
    ensures PhysicalObserve(c, SAMPLE_PROTECTED, env)
         == SqlObservation([if hidden == [] then Null else Int64(1)], [], None, [])
  {
    var s := AnyRowOf(2);
    PlainEnvs(c, s, c.nested, env);
    assert hidden == [] <==> Extend(env, 2, hidden) == [];
    NestedEval(c, s, env, None);
    var branches := SAMPLE_CASE.branches;
    assert branches[1..] == [];
    assert EvalBranches(c, branches, env) == if hidden == [] then None else Some(Int64(1));
    var p := SAMPLE_SELECT.projections;
    assert p[1..] == [];
    assert PhysicalRow(c, [], env) == [];
    assert PhysicalRow(c, p, env) == [Eval(c, SAMPLE_CASE, env)];
    assert Cells(env, SAMPLE_PROTECTED.groupBy) == [];
  }
}
