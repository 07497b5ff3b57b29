/**
  * What the report of an UPDATE or DELETE reveals. The compiler checks the columns a mutation
  * writes and returns, but not those its WHERE reads. If WHERE reads only columns of a view, so
  * does the number of affected rows; if it reads another one, the report can tell it.
  */
module MutationView {
  import opened Core
  import opened Ir
  import opened Semantics
  import opened Policy
  import opened View
  import opened Compile
  import opened Instantiation
  import opened Protection
  import opened JoinView
  import opened Results
  import opened Mutation
  import opened Alias
  import opened Emit
  import opened EmittedExists
  import opened ZeroLimit

  /** The view that a mutation policy's row filter and a set of columns make. */
  function MutationViewOf(
      engine: Engine, session: TrustedSession, r: ResourceId, rowFilter: PolicyPredicate, columns: set<ColumnId>)
      : RoleView {
    RoleView(engine, session, map[r := SelectPolicy(columns, map[], rowFilter, None, false, false)])
  }

  /** The rows a condition is True of. */
  function Struck(c: Ctx, filter: Option<BoundExpr>, r: ResourceId, table: seq<Row>): seq<Row> {
    if table == [] then []
    else (if Satisfies(c, filter, One(r, table[0])) then [table[0]] else []) + Struck(c, filter, r, table[1..])
  }

  function RedactAll(v: RoleView, r: ResourceId, rows: seq<Row>): (seen: seq<Row>)
    ensures |seen| == |rows|
  {
    seq(|rows|, i requires 0 <= i < |rows| => v.Redact(r, rows[i]))
  }

  /**
    * WHERE as the compiler leaves it holds of a row exactly when the view shows the row and WHERE
    * holds of what it shows.
    */
  ghost predicate WhereAgrees(
      v: RoleView, c: Ctx, cv: Ctx, protected: BoundExpr, filter: Option<BoundExpr>, r: ResourceId) {
    forall row: Row {:trigger v.Redact(r, row)} ::
      IsTrue(c, protected, One(r, row)) <==> v.Shows(r, row) && Satisfies(cv, filter, One(r, v.Redact(r, row)))
  }

  lemma ProtectedWhere(
    v: RoleView, c: Ctx, cv: Ctx, filter: Option<BoundExpr>, r: ResourceId, columns: set<ColumnId>,
    rowFilter: PolicyPredicate,
    values: Bindings)
    requires v == MutationViewOf(c.engine, v.session, r, rowFilter, columns) && v.Valid()
    requires SessionOnly(values, v.session)
    requires c == RealCtx(v, c.params, c.nested) && cv == ViewCtx(v, c.params, c.nested)
    requires filter.Some? ==> Shape(filter.value, false) && ValidateClient(filter.value, columns).Ok?
    requires Instantiate(rowFilter, v.session, values).Ok?
    requires Within(Instantiate(rowFilter, v.session, values).value.1, c.params)
    ensures WhereAgrees(v, c, cv, AndOptional(filter, Instantiate(rowFilter, v.session, values).value.0), filter, r)
  {
    var required := Instantiate(rowFilter, v.session, values).value.0;
    var selected := v.policies;
    assert PolicyOwned(v.policies[r], r);
    forall row: Row
      ensures IsTrue(c, AndOptional(filter, required), One(r, row))
         <==> v.Shows(r, row) && Satisfies(cv, filter, One(r, v.Redact(r, row)))
    {
      AndOptionalTrue(c, filter, required, One(r, row));
      InstantiateMeaning(rowFilter, r, v.session, values, c, One(r, row));
      assert RowOf(One(r, row), r) == row;
      assert v.EnvOf(One(r, row)) == One(r, v.Redact(r, row));
      if filter.Some? {
        OneColumns(v, selected, r, columns);
        FreeAgrees(v, selected, c.params, c.nested, filter.value, One(r, row));
      }
    }
  }

  lemma OneColumns(v: RoleView, selected: Selected, r: ResourceId, columns: set<ColumnId>)
    requires selected.Keys == {r} && selected[r].regular == columns
    ensures RegularColumns(selected) == columns
  {
  }

  /** The affected rows, seen through the view, are the view's rows that WHERE picks. */
  lemma {:induction false} StruckView(
    v: RoleView, c: Ctx, cv: Ctx, protected: BoundExpr, filter: Option<BoundExpr>, r: ResourceId, table: seq<Row>)
    requires WhereAgrees(v, c, cv, protected, filter, r)
    ensures RedactAll(v, r, Struck(c, Some(protected), r, table)) == Struck(cv, filter, r, v.RowsOf(r, table))
  {
    if table != [] {
      var row, rest := table[0], table[1..];
      StruckView(v, c, cv, protected, filter, r, rest);
      var gone, seen := Struck(c, Some(protected), r, rest), v.RowsOf(r, rest);
      var shown := v.Redact(r, row);
      assert IsTrue(c, protected, One(r, row)) <==> v.Shows(r, row) && Satisfies(cv, filter, One(r, shown));
      StruckCons(c, Some(protected), r, row, rest);
      assert table == [row] + rest;
      if v.Shows(r, row) {
        StruckCons(cv, filter, r, shown, seen);
        RedactCons(v, r, row, gone);
      } else {
        assert v.RowsOf(r, table) == seen;
        assert Struck(c, Some(protected), r, table) == gone;
      }
    }
  }

  lemma StruckCons(c: Ctx, filter: Option<BoundExpr>, r: ResourceId, row: Row, rest: seq<Row>)
    ensures Struck(c, filter, r, [row] + rest)
            == (if Satisfies(c, filter, One(r, row)) then [row] else []) + Struck(c, filter, r, rest)
  {
    assert ([row] + rest)[1..] == rest;
  }

  lemma RedactCons(v: RoleView, r: ResourceId, row: Row, rows: seq<Row>)
    ensures RedactAll(v, r, [row] + rows) == [v.Redact(r, row)] + RedactAll(v, r, rows)
  {
  }

  lemma {:induction false} ChangedCount(c: Ctx, u: BoundUpdate, table: seq<Row>)
    ensures |ChangedRows(c, u, table)| == |Struck(c, u.filter, u.resource, table)|
  {
    if table != [] {
      ChangedCount(c, u, table[1..]);
    }
  }

  /**
    * An UPDATE whose WHERE reads only columns of the view affects as many rows on any two tables
    * that look alike through the view.
    */
  lemma UpdateCountIsViewed(
    bundle: PolicyBundle, u: BoundUpdate, policy: UpdatePolicy, plan: ProtectedPlan<BoundUpdate>, v: RoleView,
    columns: set<ColumnId>, c: Ctx, table1: seq<Row>, table2: seq<Row>)
    requires RolePolicy(bundle.update, u.resource, v.session.role) == Ok(policy)
    requires v == MutationViewOf(c.engine, v.session, u.resource, policy.rowFilter, columns) && v.Valid()
    requires CompileUpdate(bundle, u, v.session) == Ok(plan) && Within(plan.serverValues, c.params)
    requires u.filter.Some? ==> Shape(u.filter.value, false) && ValidateClient(u.filter.value, columns).Ok?
    requires v.RowsOf(u.resource, table1) == v.RowsOf(u.resource, table2)
    ensures |ChangedRows(c, plan.statement, table1)| == |ChangedRows(c, plan.statement, table2)|
  {
    var (presets, values1) := PresetAssignments(policy.presets, v.session, map[]).value;
    var (rows, values2) := Instantiate(policy.rowFilter, v.session, values1).value;
    PresetsKeep(policy.presets, v.session, map[]);
    InstantiateKeeps(policy.rowFilter, v.session, values1);
    InstantiateKeeps(policy.check, v.session, values2);
    var cv := ViewCtx(v, c.params, c.nested);
    ProtectedWhere(v, c, cv, u.filter, u.resource, columns, policy.rowFilter, values1);
    StruckView(v, c, cv, plan.statement.filter.value, u.filter, u.resource, table1);
    StruckView(v, c, cv, plan.statement.filter.value, u.filter, u.resource, table2);
    ChangedCount(c, plan.statement, table1);
    ChangedCount(c, plan.statement, table2);
  }

  /** What a DELETE reports: the returned columns of every row it removes. */
  function DeleteReport(c: Ctx, d: BoundDelete, table: seq<Row>): seq<seq<LogicalValue>> {
    var gone := Struck(c, d.filter, d.resource, table);
    seq(|gone|, i requires 0 <= i < |gone| => PhysicalRow(c, d.returning, One(d.resource, gone[i])))
  }

  lemma {:induction false} ReturnedIsViewed(
    v: RoleView, r: ResourceId, columns: set<ColumnId>, c: Ctx, returning: seq<BoundProjection>, row: Row)
    requires v.policies.Keys == {r} && v.policies[r].regular == columns && v.Valid()
    requires ValidateReturning(returning, columns).Ok?
    ensures PhysicalRow(c, returning, One(r, row)) == PhysicalRow(c, returning, One(r, v.Redact(r, row)))
  {
    if returning != [] {
      var id := returning[0].expression.column.id;
      OneColumns(v, v.policies, r, columns);
      CellAgrees(v, v.policies, One(r, row), id);
      assert v.EnvOf(One(r, row)) == One(r, v.Redact(r, row));
      ReturnedIsViewed(v, r, columns, c, returning[1..], row);
    }
  }

  /** A DELETE whose WHERE and RETURNING read only columns of the view reports only what the view shows. */
  lemma DeleteReportIsViewed(
    bundle: PolicyBundle, d: BoundDelete, policy: DeletePolicy, plan: ProtectedPlan<BoundDelete>, v: RoleView,
    columns: set<ColumnId>, c: Ctx, table1: seq<Row>, table2: seq<Row>)
    requires RolePolicy(bundle.delete, d.resource, v.session.role) == Ok(policy)
    requires v == MutationViewOf(c.engine, v.session, d.resource, policy.rowFilter, columns) && v.Valid()
    requires CompileDelete(bundle, d, v.session) == Ok(plan) && Within(plan.serverValues, c.params)
    requires d.filter.Some? ==> Shape(d.filter.value, false) && ValidateClient(d.filter.value, columns).Ok?
    requires policy.returning <= columns
    requires v.RowsOf(d.resource, table1) == v.RowsOf(d.resource, table2)
    ensures DeleteReport(c, plan.statement, table1) == DeleteReport(c, plan.statement, table2)
  {
    var r, filter := d.resource, plan.statement.filter;
    var cv := ViewCtx(v, c.params, c.nested);
    ProtectedWhere(v, c, cv, d.filter, r, columns, policy.rowFilter, map[]);
    StruckView(v, c, cv, filter.value, d.filter, r, table1);
    StruckView(v, c, cv, filter.value, d.filter, r, table2);
    var gone1, gone2 := Struck(c, filter, r, table1), Struck(c, filter, r, table2);
    assert |RedactAll(v, r, gone1)| == |RedactAll(v, r, gone2)|;
    WiderReturning(d.returning, policy.returning, columns);
    forall i | 0 <= i < |gone1|
      ensures PhysicalRow(c, d.returning, One(r, gone1[i])) == PhysicalRow(c, d.returning, One(r, gone2[i]))
    {
      assert RedactAll(v, r, gone1)[i] == RedactAll(v, r, gone2)[i];
      ReturnedIsViewed(v, r, columns, c, d.returning, gone1[i]);
      ReturnedIsViewed(v, r, columns, c, d.returning, gone2[i]);
    }
  }

  lemma {:induction false} WiderReturning(returning: seq<BoundProjection>, small: set<ColumnId>, big: set<ColumnId>)
    requires small <= big && ValidateReturning(returning, small).Ok?
    ensures ValidateReturning(returning, big).Ok?
  {
    if returning != [] {
      WiderReturning(returning[1..], small, big);
    }
  }

  // ----- The whole report of an UPDATE -----

  /** Two rows agree on the columns of the set. */
  ghost predicate SeenAlike(r: ResourceId, columns: set<ColumnId>, a: Row, b: Row) {
    forall o: nat | ColumnId(r, o) in columns :: (o in a <==> o in b) && (o in a ==> a[o] == b[o])
  }

  function WrittenColumns(assignments: seq<BoundAssignment>): set<ColumnId> {
    set a | a in assignments :: a.column.id
  }

  /** The predicate reads columns of the set only. */
  predicate PredicateReads(p: PolicyPredicate, columns: set<ColumnId>) {
    match p
    case Comparison(column, _, operand) => column.id in columns && (operand.Sibling? ==> operand.column.id in columns)
    case Membership(column, _, _) => column.id in columns
    case NullTest(column, _) => column.id in columns
    case All(parts) => forall part | part in parts :: PredicateReads(part, columns)
    case Any(parts) => forall part | part in parts :: PredicateReads(part, columns)
    case Negation(part) => PredicateReads(part, columns)
  }

  lemma SameCell(r: ResourceId, columns: set<ColumnId>, column: BoundColumn, a: Row, b: Row)
    requires SeenAlike(r, columns, a, b) && column.id in columns && column.id.resource == r
    ensures CellOf(a, column) == CellOf(b, column)
  {
    assert column.id == ColumnId(r, column.id.ordinal);
  }

  lemma {:induction false} SameTruth(
    engine: Engine, p: PolicyPredicate, r: ResourceId, columns: set<ColumnId>, a: Row, b: Row, session: TrustedSession)
    requires Owned(p, r) && PredicateReads(p, columns) && SeenAlike(r, columns, a, b)
    ensures PredicateTruth(engine, p, a, session) == PredicateTruth(engine, p, b, session)
    decreases p, 0
  {
    match p
    case Comparison(column, _, operand) =>
      SameCell(r, columns, column, a, b);
      if operand.Sibling? {
        SameCell(r, columns, operand.column, a, b);
      }
    case Membership(column, _, _) => SameCell(r, columns, column, a, b);
    case NullTest(column, _) => SameCell(r, columns, column, a, b);
    case All(parts) => SameTruths(engine, parts, r, columns, a, b, session);
    case Any(parts) => SameTruths(engine, parts, r, columns, a, b, session);
    case Negation(part) => SameTruth(engine, part, r, columns, a, b, session);
  }

  lemma {:induction false} SameTruths(
    engine: Engine, parts: seq<PolicyPredicate>, r: ResourceId, columns: set<ColumnId>, a: Row, b: Row,
    session: TrustedSession)
    requires forall part | part in parts :: Owned(part, r) && PredicateReads(part, columns)
    requires SeenAlike(r, columns, a, b)
    ensures AllTruth(engine, parts, a, session) == AllTruth(engine, parts, b, session)
    ensures AnyTruth(engine, parts, a, session) == AnyTruth(engine, parts, b, session)
    decreases parts, 1
  {
    if parts != [] {
      SameTruth(engine, parts[0], r, columns, a, b, session);
      SameTruths(engine, parts[1..], r, columns, a, b, session);
    }
  }

  lemma {:induction false} SameReturned(
    c: Ctx, r: ResourceId, columns: set<ColumnId>, returning: seq<BoundProjection>, a: Row, b: Row)
    requires SeenAlike(r, columns, a, b) && ValidateReturning(returning, columns).Ok?
    requires forall column | column in columns :: column.resource == r
    ensures PhysicalRow(c, returning, One(r, a)) == PhysicalRow(c, returning, One(r, b))
  {
    if returning != [] {
      SameCell(r, columns, returning[0].expression.column, a, b);
      assert RowOf(One(r, a), r) == a && RowOf(One(r, b), r) == b;
      SameReturned(c, r, columns, returning[1..], a, b);
    }
  }

  /** Equal values written over rows that agree give rows that agree on the written columns as well. */
  lemma {:induction false} SameAssigned(
    c: Ctx, r: ResourceId, columns: set<ColumnId>, assignments: seq<BoundAssignment>, one: Env, two: Env, a: Row,
    b: Row)
    requires SeenAlike(r, columns, a, b)
    requires forall x: BoundAssignment | x in assignments ::
               x.column.id.resource == r && Eval(c, x.value, one) == Eval(c, x.value, two)
    ensures SeenAlike(r, columns + WrittenColumns(assignments), Assign(c, one, a, assignments),
            Assign(c, two, b, assignments))
    decreases |assignments|
  {
    if assignments == [] {
      assert columns + WrittenColumns(assignments) == columns;
    } else {
      var x := assignments[0];
      assert x in assignments;
      var o, v := x.column.id.ordinal, Eval(c, x.value, one);
      var next := columns + {x.column.id};
      assert x.column.id == ColumnId(r, o);
      assert SeenAlike(r, next, a[o := v], b[o := v]);
      SameAssigned(c, r, next, assignments[1..], one, two, a[o := v], b[o := v]);
      assert assignments == [x] + assignments[1..];
      assert next + WrittenColumns(assignments[1..]) == columns + WrittenColumns(assignments);
    }
  }

  /** An expression over columns of the view reads what the view shows of a row. */
  lemma OnViewedRow(v: RoleView, c: Ctx, r: ResourceId, columns: set<ColumnId>, e: BoundExpr, row: Row)
    requires v.policies.Keys == {r} && v.policies[r].regular == columns && v.Valid()
    requires c == RealCtx(v, c.params, c.nested) && Shape(e, false) && ValidateClient(e, columns).Ok?
    ensures Eval(c, e, One(r, row)) == Eval(ViewCtx(v, c.params, c.nested), e, One(r, v.Redact(r, row)))
  {
    OneColumns(v, v.policies, r, columns);
    FreeAgrees(v, v.policies, c.params, c.nested, e, One(r, row));
    ViewedOne(v, r, row);
  }

  lemma ViewedOne(v: RoleView, r: ResourceId, row: Row)
    ensures v.EnvOf(One(r, row)) == One(r, v.Redact(r, row))
  {
  }

  lemma SameOnView(v: RoleView, c: Ctx, r: ResourceId, columns: set<ColumnId>, e: BoundExpr, a: Row, b: Row)
    requires v.policies.Keys == {r} && v.policies[r].regular == columns && v.Valid()
    requires c == RealCtx(v, c.params, c.nested) && v.Redact(r, a) == v.Redact(r, b)
    requires Shape(e, false) && ValidateClient(e, columns).Ok?
    ensures Eval(c, e, One(r, a)) == Eval(c, e, One(r, b))
  {
    OnViewedRow(v, c, r, columns, e, a);
    OnViewedRow(v, c, r, columns, e, b);
  }

  /** Presets read no row. */
  lemma {:induction false} PresetsFree(
    presets: seq<Preset>, session: TrustedSession, values: Bindings, columns: set<ColumnId>)
    requires PresetAssignments(presets, session, values).Ok? && forall p: Preset | p in presets :: !p.operand.Sibling?
    ensures forall a: BoundAssignment | a in PresetAssignments(presets, session, values).value.0 ::
              Shape(a.value, false) && ValidateClient(a.value, columns).Ok?
  {
    if presets != [] {
      assert presets[0] in presets;
      var values' := InstantiateOperand(presets[0].operand, presets[0].logicalType, session, values).value.1;
      PresetsFree(presets[1..], session, values', columns);
    }
  }

  lemma {:induction false} PresetsOwned(presets: seq<Preset>, session: TrustedSession, values: Bindings, r: ResourceId)
    requires PresetAssignments(presets, session, values).Ok? && forall p: Preset | p in presets ::
             p.column.resource == r
    ensures forall a: BoundAssignment | a in PresetAssignments(presets, session, values).value.0 ::
            a.column.id.resource == r
  {
    if presets != [] {
      assert presets[0] in presets;
      var values' := InstantiateOperand(presets[0].operand, presets[0].logicalType, session, values).value.1;
      PresetsOwned(presets[1..], session, values', r);
    }
  }

  /** What an UPDATE writes, as the compiler leaves it. */
  predicate WritesFrom(assignments: seq<BoundAssignment>, r: ResourceId, columns: set<ColumnId>) {
    forall a: BoundAssignment | a in assignments ::
      a.column.id.resource == r && Shape(a.value, false) && ValidateClient(a.value, columns).Ok?
  }

  lemma {:induction false} ChangedAreUpdated(c: Ctx, u: BoundUpdate, table: seq<Row>)
    ensures var struck := Struck(c, u.filter, u.resource, table);
            && |ChangedRows(c, u, table)| == |struck|
            && forall i | 0 <= i < |struck| ::
                 ChangedRows(c, u, table)[i] == Assign(c, One(u.resource, struck[i]), struck[i], u.assignments)
  {
    if table != [] {
      ChangedAreUpdated(c, u, table[1..]);
      StruckFirst(c, u.filter, u.resource, table);
    }
  }

  lemma StruckFirst(c: Ctx, filter: Option<BoundExpr>, r: ResourceId, table: seq<Row>)
    requires table != []
    ensures Satisfies(c, filter, One(r, table[0])) ==>
            Struck(c, filter, r, table) == [table[0]] + Struck(c, filter, r, table[1..])
    ensures !Satisfies(c, filter, One(r, table[0])) ==> Struck(c, filter, r, table) == Struck(c, filter, r, table[1..])
  {
  }

  /** One reported row: what is returned of it, and the check. */
  lemma ReportedRow(
    v: RoleView, c: Ctx, r: ResourceId, columns: set<ColumnId>, policy: UpdatePolicy, u: BoundUpdate,
    check: BoundExpr, values: Bindings, a: Row, b: Row)
    requires v == MutationViewOf(c.engine, v.session, r, policy.rowFilter, columns) && v.Valid()
    requires c == RealCtx(v, c.params, c.nested) && v.Redact(r, a) == v.Redact(r, b)
    requires WritesFrom(u.assignments, r, columns) && Owned(policy.check, r)
    requires var wide := columns + WrittenColumns(u.assignments);
             PredicateReads(policy.check, wide) && ValidateReturning(u.returning, wide).Ok?
    requires SessionOnly(values, v.session) && Instantiate(policy.check, v.session, values).Ok?
    requires check == Instantiate(policy.check, v.session, values).value.0
    requires Within(Instantiate(policy.check, v.session, values).value.1, c.params)
    ensures Returned(c, r, u.returning, check, Assign(c, One(r, a), a, u.assignments))
         == Returned(c, r, u.returning, check, Assign(c, One(r, b), b, u.assignments))
  {
    var wide := columns + WrittenColumns(u.assignments);
    var after, other := Assign(c, One(r, a), a, u.assignments), Assign(c, One(r, b), b, u.assignments);
    forall x: BoundAssignment | x in u.assignments
      ensures Eval(c, x.value, One(r, a)) == Eval(c, x.value, One(r, b))
    {
      SameOnView(v, c, r, columns, x.value, a, b);
    }
    SeenRows(v, r, columns, a, b);
    SameAssigned(c, r, columns, u.assignments, One(r, a), One(r, b), a, b);
    assert PolicyOwned(v.policies[r], r);
    SameReturned(c, r, wide, u.returning, after, other);
    SameTruth(c.engine, policy.check, r, wide, after, other, v.session);
    InstantiateMeaning(policy.check, r, v.session, values, c, One(r, after));
    InstantiateMeaning(policy.check, r, v.session, values, c, One(r, other));
    assert RowOf(One(r, after), r) == after && RowOf(One(r, other), r) == other;
  }

  lemma SeenRows(v: RoleView, r: ResourceId, columns: set<ColumnId>, a: Row, b: Row)
    requires r in v.policies && v.policies[r].regular == columns && v.Redact(r, a) == v.Redact(r, b)
    ensures SeenAlike(r, columns, a, b)
  {
    forall o: nat | ColumnId(r, o) in columns
      ensures (o in a <==> o in b) && (o in a ==> a[o] == b[o])
    {
      assert o in a <==> o in v.Redact(r, a);
      assert o in b <==> o in v.Redact(r, b);
    }
  }

  /**
    * The whole report of an UPDATE depends only on the view if WHERE and the assigned values read
    * only its columns, and RETURNING and the check only those and the columns written.
    */
  lemma UpdateReportIsViewed(
    bundle: PolicyBundle, u: BoundUpdate, policy: UpdatePolicy, plan: ProtectedPlan<BoundUpdate>, v: RoleView,
    columns: set<ColumnId>, c: Ctx, table1: seq<Row>, table2: seq<Row>)
    requires RolePolicy(bundle.update, u.resource, v.session.role) == Ok(policy)
    requires v == MutationViewOf(c.engine, v.session, u.resource, policy.rowFilter, columns) && v.Valid()
    requires CompileUpdate(bundle, u, v.session) == Ok(plan) && Within(plan.serverValues, c.params)
    requires PresetsActivated(policy.presets, u.resource) && Owned(policy.check, u.resource)
    requires u.filter.Some? ==> Shape(u.filter.value, false) && ValidateClient(u.filter.value, columns).Ok?
    requires WritesFrom(u.assignments, u.resource, columns)
    requires var wide := columns + WrittenColumns(plan.statement.assignments);
             PredicateReads(policy.check, wide) && policy.returning <= wide
    requires v.RowsOf(u.resource, table1) == v.RowsOf(u.resource, table2)
    ensures plan.operationCheck.Some?
    ensures Report(c, u.resource, u.returning, plan.operationCheck.value, ChangedRows(c, plan.statement, table1))
         == Report(c, u.resource, u.returning, plan.operationCheck.value, ChangedRows(c, plan.statement, table2))
  {
    var r, w, check := u.resource, plan.statement, plan.operationCheck.value;
    var values2 := UpdateCheckValues(bundle, u, policy, v.session);
    UpdatePieces(bundle, u, policy, plan, v, columns, c);
    var cv := ViewCtx(v, c.params, c.nested);
    StruckView(v, c, cv, w.filter.value, u.filter, r, table1);
    StruckView(v, c, cv, w.filter.value, u.filter, r, table2);
    ChangedAreUpdated(c, w, table1);
    ChangedAreUpdated(c, w, table2);
    var struck1, struck2 := Struck(c, w.filter, r, table1), Struck(c, w.filter, r, table2);
    WiderReturning(u.returning, policy.returning, columns + WrittenColumns(w.assignments));
    ReportedRows(v, c, columns, policy, w, check, values2, struck1, struck2,
                 ChangedRows(c, w, table1), ChangedRows(c, w, table2));
  }

  /** Rows that look alike before they are written are reported alike. */
  lemma ReportedRows(
    v: RoleView, c: Ctx, columns: set<ColumnId>, policy: UpdatePolicy, u: BoundUpdate, check: BoundExpr,
    values: Bindings,
    before: seq<Row>, other: seq<Row>, after: seq<Row>, otherAfter: seq<Row>)
    requires v == MutationViewOf(c.engine, v.session, u.resource, policy.rowFilter, columns) && v.Valid()
    requires c == RealCtx(v, c.params, c.nested)
    requires WritesFrom(u.assignments, u.resource, columns) && Owned(policy.check, u.resource)
    requires var wide := columns + WrittenColumns(u.assignments);
             PredicateReads(policy.check, wide) && ValidateReturning(u.returning, wide).Ok?
    requires SessionOnly(values, v.session) && Instantiate(policy.check, v.session, values).Ok?
    requires check == Instantiate(policy.check, v.session, values).value.0
    requires Within(Instantiate(policy.check, v.session, values).value.1, c.params)
    requires RedactAll(v, u.resource, before) == RedactAll(v, u.resource, other)
    requires |after| == |before| && |otherAfter| == |other|
    requires forall i | 0 <= i < |before| :: after[i] == Assign(c, One(u.resource, before[i]), before[i], u.assignments)
    requires forall i | 0 <= i < |other| ::
             otherAfter[i] == Assign(c, One(u.resource, other[i]), other[i], u.assignments)
    ensures Report(c, u.resource, u.returning, check, after) == Report(c, u.resource, u.returning, check, otherAfter)
  {
    assert |before| == |RedactAll(v, u.resource, before)| == |other|;
    forall i | 0 <= i < |after|
      ensures Returned(c, u.resource, u.returning, check, after[i])
           == Returned(c, u.resource, u.returning, check, otherAfter[i])
    {
      assert RedactAll(v, u.resource, before)[i] == RedactAll(v, u.resource, other)[i];
      ReportedRow(v, c, u.resource, columns, policy, u, check, values, before[i], other[i]);
    }
    SameReport(c, u.resource, u.returning, check, after, otherAfter);
  }

  lemma SameReport(c: Ctx, r: ResourceId, returning: seq<BoundProjection>, check: BoundExpr, a: seq<Row>, b: seq<Row>)
    requires |a| == |b|
    requires forall i | 0 <= i < |a| :: Returned(c, r, returning, check, a[i]) == Returned(c, r, returning, check, b[i])
    ensures Report(c, r, returning, check, a) == Report(c, r, returning, check, b)
  {
    assert ReturnedAll(c, r, returning, check, a) == ReturnedAll(c, r, returning, check, b);
  }

  ghost function UpdateCheckValues(
    bundle: PolicyBundle, u: BoundUpdate, policy: UpdatePolicy, session: TrustedSession): Bindings
    requires RolePolicy(bundle.update, u.resource, session.role) == Ok(policy) && CompileUpdate(bundle, u, session).Ok?
  {
    var values1 := PresetAssignments(policy.presets, session, map[]).value.1;
    Instantiate(policy.rowFilter, session, values1).value.1
  }

  /**
    * The compiled UPDATE: its writes read the view, its WHERE is the client's on the view, its check
    * is the policy's.
    */
  lemma UpdatePieces(
    bundle: PolicyBundle, u: BoundUpdate, policy: UpdatePolicy, plan: ProtectedPlan<BoundUpdate>, v: RoleView,
    columns: set<ColumnId>, c: Ctx)
    requires RolePolicy(bundle.update, u.resource, v.session.role) == Ok(policy)
    requires v == MutationViewOf(c.engine, v.session, u.resource, policy.rowFilter, columns) && v.Valid()
    requires CompileUpdate(bundle, u, v.session) == Ok(plan) && Within(plan.serverValues, c.params)
    requires PresetsActivated(policy.presets, u.resource) && WritesFrom(u.assignments, u.resource, columns)
    requires u.filter.Some? ==> Shape(u.filter.value, false) && ValidateClient(u.filter.value, columns).Ok?
    ensures plan.statement.filter.Some? && plan.statement.resource == u.resource
    ensures plan.statement.returning == u.returning
    ensures WhereAgrees(v, c, ViewCtx(v, c.params, c.nested), plan.statement.filter.value, u.filter, u.resource)
    ensures WritesFrom(plan.statement.assignments, u.resource, columns)
    ensures ValidateReturning(u.returning, policy.returning).Ok?
    ensures var values2 := UpdateCheckValues(bundle, u, policy, v.session);
            && SessionOnly(values2, v.session) && plan.operationCheck.Some?
            && Instantiate(policy.check, v.session, values2) == Ok((plan.operationCheck.value, plan.serverValues))
  {
    var (presets, values1) := PresetAssignments(policy.presets, v.session, map[]).value;
    var (rows, values2) := Instantiate(policy.rowFilter, v.session, values1).value;
    PresetsKeep(policy.presets, v.session, map[]);
    PresetsFree(policy.presets, v.session, map[], columns);
    PresetsOwned(policy.presets, v.session, map[], u.resource);
    InstantiateKeeps(policy.rowFilter, v.session, values1);
    InstantiateKeeps(policy.check, v.session, values2);
    WithinTransitive(values2, plan.serverValues, c.params);
    ProtectedWhere(v, c, ViewCtx(v, c.params, c.nested), u.filter, u.resource, columns, policy.rowFilter, values1);
    var check := Instantiate(policy.check, v.session, values2).value;
    assert check == (check.0, check.1);
  }

  // ----- The whole report of an INSERT -----

  predicate WritesTo(row: seq<BoundAssignment>, r: ResourceId) {
    forall a: BoundAssignment | a in row :: a.column.id.resource == r
  }

  lemma {:induction false} ProtectedWritesTo(
    rows: seq<seq<BoundAssignment>>, policy: InsertPolicy, session: TrustedSession, values: Bindings, r: ResourceId)
    requires (forall row | row in rows :: WritesTo(row, r)) && PresetsActivated(policy.presets, r)
    requires ProtectRows(rows, policy, session, values).Ok?
    ensures forall row | row in ProtectRows(rows, policy, session, values).value.0 :: WritesTo(row, r)
    decreases |rows|
  {
    if rows != [] {
      var (presets, values') := PresetAssignments(policy.presets, session, values).value;
      PresetsOwned(policy.presets, session, values, r);
      assert WritesTo(rows[0], r);
      assert WritesTo(rows[0] + presets, r);
      ProtectedWritesTo(rows[1..], policy, session, values', r);
    }
  }

  /** What the policy lets a caller see of an inserted row is written by the statement or is a column of the set. */
  predicate ReportReads(policy: InsertPolicy, columns: set<ColumnId>) {
    policy.returning <= columns && PredicateReads(policy.check, columns)
  }

  /** One reported row, over two rows of defaults. */
  lemma InsertedRow(
    c: Ctx, r: ResourceId, columns: set<ColumnId>, policy: InsertPolicy, session: TrustedSession,
    returning: seq<BoundProjection>, check: BoundExpr, values: Bindings, row: seq<BoundAssignment>, a: Row, b: Row)
    requires SeenAlike(r, columns, a, b) && WritesTo(row, r) && Owned(policy.check, r)
    requires forall column | column in columns :: column.resource == r
    requires ReportReads(policy, columns + WrittenColumns(row))
    requires ValidateReturning(returning, policy.returning).Ok?
    requires SessionOnly(values, session) && Instantiate(policy.check, session, values).Ok?
    requires check == Instantiate(policy.check, session, values).value.0
    requires Within(Instantiate(policy.check, session, values).value.1, c.params)
    ensures Returned(c, r, returning, check, Assign(c, map[], a, row))
         == Returned(c, r, returning, check, Assign(c, map[], b, row))
  {
    var wide := columns + WrittenColumns(row);
    var after, other := Assign(c, map[], a, row), Assign(c, map[], b, row);
    SameAssigned(c, r, columns, row, map[], map[], a, b);
    WiderReturning(returning, policy.returning, wide);
    SameReturned(c, r, wide, returning, after, other);
    SameTruth(c.engine, policy.check, r, wide, after, other, session);
    InstantiateMeaning(policy.check, r, session, values, c, One(r, after));
    InstantiateMeaning(policy.check, r, session, values, c, One(r, other));
    assert RowOf(One(r, after), r) == after && RowOf(One(r, other), r) == other;
  }

  /**
    * The whole report of an INSERT is the same over any two rows of defaults that agree on some
    * columns, if what the policy returns and checks lies within those and the columns written.
    */
  lemma InsertReportIsViewed(
    bundle: PolicyBundle, insert: BoundInsert, policy: InsertPolicy, plan: ProtectedPlan<BoundInsert>,
    session: TrustedSession, columns: set<ColumnId>, c: Ctx, defaults1: Row, defaults2: Row)
    requires RolePolicy(bundle.insert, insert.resource, session.role) == Ok(policy)
    requires CompileInsert(bundle, insert, session) == Ok(plan) && Within(plan.serverValues, c.params)
    requires PresetsActivated(policy.presets, insert.resource) && Owned(policy.check, insert.resource)
    requires forall row | row in insert.rows :: WritesTo(row, insert.resource)
    requires forall column | column in columns :: column.resource == insert.resource
    requires forall row | row in plan.statement.rows :: ReportReads(policy, columns + WrittenColumns(row))
    requires SeenAlike(insert.resource, columns, defaults1, defaults2)
    ensures plan.operationCheck.Some?
    ensures Report(c, insert.resource, insert.returning, plan.operationCheck.value,
                   InsertedRows(c, defaults1, plan.statement.rows))
         == Report(c, insert.resource, insert.returning, plan.operationCheck.value,
                   InsertedRows(c, defaults2, plan.statement.rows))
  {
    var r := insert.resource;
    var (rows, values1) := ProtectRows(insert.rows, policy, session, map[]).value;
    var (check, values2) := Instantiate(policy.check, session, values1).value;
    ProtectRowsKeep(insert.rows, policy, session, map[]);
    ProtectedWritesTo(insert.rows, policy, session, map[], r);
    var after, other := InsertedRows(c, defaults1, rows), InsertedRows(c, defaults2, rows);
    forall i | 0 <= i < |rows|
      ensures Returned(c, r, insert.returning, check, after[i]) == Returned(c, r, insert.returning, check, other[i])
    {
      assert rows[i] in rows;
      InsertedRow(c, r, columns, policy, session, insert.returning, check, values1, rows[i], defaults1, defaults2);
    }
    SameReport(c, r, insert.returning, check, after, other);
  }

  // ----- EXISTS in the WHERE of a mutation -----

  /** The binder keeps EXISTS off the mutated resource, which is the only one that has an alias. */
  lemma {:induction false} AvoidsIsUnaliased(e: BoundExpr, r: ResourceId, aliases: Aliases)
    requires Shape(e, true) && Avoids(e, {r}) && aliases.Keys <= {r}
    ensures UnaliasedShape(e, aliases)
    decreases e
  {
    match e
    case Binary(_, left, right) =>
      AvoidsIsUnaliased(left, r, aliases);
      AvoidsIsUnaliased(right, r, aliases);
    case ConditionalOutput(value, visibleIf) =>
      AvoidsIsUnaliased(value, r, aliases);
      AvoidsIsUnaliased(visibleIf, r, aliases);
    case Unary(_, inner) => AvoidsIsUnaliased(inner, r, aliases);
    case In(expression, values, _) =>
      AvoidsIsUnaliased(expression, r, aliases);
      forall x | x in values ensures UnaliasedShape(x, aliases) { AvoidsIsUnaliased(x, r, aliases); }
    case Scalar(_, arguments, _) =>
      forall x | x in arguments ensures UnaliasedShape(x, aliases) { AvoidsIsUnaliased(x, r, aliases); }
    case Case(branches, otherwise, _) =>
      forall b: Branch | b in branches ensures UnaliasedShape(b.condition, aliases) &&
          UnaliasedShape(b.value, aliases) {
        AvoidsIsUnaliased(b.condition, r, aliases);
        AvoidsIsUnaliased(b.value, r, aliases);
      }
      if otherwise.Some? {
        AvoidsIsUnaliased(otherwise.value, r, aliases);
      }
    case _ =>
  }

  /** So a mutation whose WHERE holds an EXISTS is never emitted. */
  lemma EmittedMutationHasNoExists(em: Emitter, r: ResourceId, e: BoundExpr, st: EmitState)
    requires Shape(e, true) && Avoids(e, {r}) && em.aliases.Keys <= {r} && EmitExpr(em, e, st).Ok?
    ensures Shape(e, false)
  {
    ExprCovered(em, e, st);
    AvoidsIsUnaliased(e, r, em.aliases);
    CoveredHasNoExists(e, em.aliases);
  }

  // ----- A WHERE that reads another column -----

  const EVERY_ROW := NullTest(BoundColumn(ColumnId(1, 0), Int64Type), false)

  /** A role that deletes from resource 1 and may read nothing of its column 1. */
  const DELETER := DeletePolicy(EVERY_ROW, {ColumnId(1, 0)})

  /** DELETE FROM resource WHERE column 1 IS NULL. */
  const PROBE := BoundDelete(1, Some(Unary(IsNull, Column(BoundColumn(ColumnId(1, 1), Int64Type)))), [])

  /** The compiler accepts it, and its report tells whether the unreadable column is NULL. */
  lemma DeleteReportReadsHidden(v: RoleView, c: Ctx, plain: Row, filled: Row)
    requires v == MutationViewOf(c.engine, TrustedSession("deleter", map[]), 1, EVERY_ROW, {ColumnId(1, 0)})
    requires plain == map[0 := Int64(7)] && filled == map[0 := Int64(7), 1 := Int64(5)]
    ensures v.RowsOf(1, [plain]) == v.RowsOf(1, [filled])
    ensures var plan := CompileDelete(PolicyBundle(map[], map[], map[], map[1 := map["deleter" := DELETER]]), PROBE,
            v.session);
            && plan.Ok?
            && DeleteReport(c, plan.value.statement, [plain]) == [[]]
            && DeleteReport(c, plan.value.statement, [filled]) == []
  {
    ProbeView(v, c, plain, filled);
    ProbeStrikes(c, plain, true);
    ProbeStrikes(c, filled, false);
    assert Instantiate(EVERY_ROW, v.session, map[]) == Ok((PROBE_SHOWN, map[]));
    assert PhysicalRow(c, [], One(1, plain)) == [];
  }

  const PROBE_SHOWN := Unary(Not, Unary(IsNull, Column(BoundColumn(ColumnId(1, 0), Int64Type))))

  lemma ProbeView(v: RoleView, c: Ctx, plain: Row, filled: Row)
    requires v == MutationViewOf(c.engine, TrustedSession("deleter", map[]), 1, EVERY_ROW, {ColumnId(1, 0)})
    requires plain == map[0 := Int64(7)] && filled == map[0 := Int64(7), 1 := Int64(5)]
    ensures v.RowsOf(1, [plain]) == v.RowsOf(1, [filled])
  {
    assert v.Redact(1, plain) == plain && v.Redact(1, filled) == plain;
    assert PredicateTruth(c.engine, EVERY_ROW, plain, v.session) == True;
    assert PredicateTruth(c.engine, EVERY_ROW, filled, v.session) == True;
    assert [plain][1..] == [] && [filled][1..] == [];
    assert v.RowsOf(1, []) == [];
  }

  lemma ProbeStrikes(c: Ctx, row: Row, isNull: bool)
    requires 0 in row && row[0] == Int64(7) && isNull == (1 !in row) && (1 in row ==> !row[1].Null?)
    ensures Struck(c, Some(Binary(And, PROBE.filter.value, PROBE_SHOWN)), 1, [row]) == if isNull then [row] else []
  {
    var filter := Some(Binary(And, PROBE.filter.value, PROBE_SHOWN));
    assert Eval(c, PROBE_SHOWN, One(1, row)) == Boolean(true);
    assert Eval(c, PROBE.filter.value, One(1, row)) == Boolean(isNull);
    assert [row][1..] == [] && Struck(c, filter, 1, []) == [];
  }
}
