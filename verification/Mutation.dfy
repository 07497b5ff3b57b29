/**
  * Mutations: what a compiled INSERT, UPDATE or DELETE does to a table when the adapter accepts the
  * result that the database returns for it.
  */
module Mutation {
  import opened Core
  import opened Ir
  import opened Semantics
  import opened Policy
  import opened View
  import opened Compile
  import opened Instantiation
  import opened Protection
  import opened Results

  function One(r: ResourceId, row: Row): Env {
    map[r := row]
  }

  /** The row after SET or VALUES: each value is evaluated in `env`, a later assignment wins. */
  function Assign(c: Ctx, env: Env, row: Row, assignments: seq<BoundAssignment>): Row
    decreases |assignments|
  {
    if assignments == [] then row
    else
      var a := assignments[0];
      Assign(c, env, row[a.column.id.ordinal := Eval(c, a.value, env)], assignments[1..])
  }

  /** RETURNING: the projected cells of the new row, then the check. */
  function Returned(
      c: Ctx, r: ResourceId, returning: seq<BoundProjection>, check: BoundExpr, row: Row): seq<LogicalValue> {
    PhysicalRow(c, returning, One(r, row)) + [Boolean(IsTrue(c, check, One(r, row)))]
  }

  function ReturnedAll(
      c: Ctx, r: ResourceId, returning: seq<BoundProjection>, check: BoundExpr, rows: seq<Row>)
      : seq<seq<LogicalValue>> {
    seq(|rows|, i requires 0 <= i < |rows| => Returned(c, r, returning, check, rows[i]))
  }

  /** What the database reports for a mutation with a check. */
  function Report(
      c: Ctx, r: ResourceId, returning: seq<BoundProjection>, check: BoundExpr, rows: seq<Row>): ResultValue {
    ResultValue(EmittedColumns(returning, 0) + [CHECK_COLUMN], ReturnedAll(c, r, returning, check, rows), [], |rows|)
  }

  // ----- Facts shared by INSERT and UPDATE -----

  /** An accepted report has a True check on every returned row, and one row per affected row. */
  lemma AcceptedChecks(
    c: Ctx, r: ResourceId, returning: seq<BoundProjection>, check: BoundExpr, rows: seq<Row>, plan: Plan, maxBytes: nat)
    requires plan.checkColumn == Some(CHECK_COLUMN)
    requires AcceptMutation(plan, Report(c, r, returning, check, rows), maxBytes).Ok?
    ensures forall row | row in rows :: IsTrue(c, check, One(r, row))
    ensures plan.expectedAffectedRows.Some? ==> |rows| == plan.expectedAffectedRows.value
  {
    var report := Report(c, r, returning, check, rows);
    forall i | 0 <= i < |rows|
      ensures IsTrue(c, check, One(r, rows[i]))
    {
      assert report.rows[i] in report.rows;
      assert CheckPassed(Returned(c, r, returning, check, rows[i]));
    }
  }

  predicate PresetsDistinct(presets: seq<Preset>) {
    forall i, j | 0 <= i < j < |presets| :: presets[i].column != presets[j].column
  }

  /** Activation keeps presets on the resource, away from the writable columns and free of columns. */
  predicate PresetsActivated(presets: seq<Preset>, r: ResourceId) {
    PresetsDistinct(presets) && forall p: Preset | p in presets :: p.column.resource == r && !p.operand.Sibling?
  }

  /** The binder accepts each written column once, on the statement's resource. */
  predicate AssignmentsBound(assignments: seq<BoundAssignment>, r: ResourceId) {
    && (forall a: BoundAssignment | a in assignments :: a.column.id.resource == r)
    && ColumnsDistinct(assignments)
  }

  predicate ColumnsDistinct(assignments: seq<BoundAssignment>) {
    forall i, j | 0 <= i < j < |assignments| :: assignments[i].column.id != assignments[j].column.id
  }

  /** The value a preset must hold; it does not depend on the row. */
  function PresetValue(engine: Engine, p: Preset, session: TrustedSession): LogicalValue {
    OperandValue(engine, p.operand, map[], session)
  }

  lemma {:induction false} PresetsKeep(presets: seq<Preset>, session: TrustedSession, values: Bindings)
    requires SessionOnly(values, session) && PresetAssignments(presets, session, values).Ok?
    ensures var (out, values') := PresetAssignments(presets, session, values).value;
            && SessionOnly(values', session) && Within(values, values') && |out| == |presets|
            && forall i | 0 <= i < |presets| :: out[i].column.id == presets[i].column
  {
    if presets != [] {
      OperandKeeps(presets[0].operand, presets[0].logicalType, session, values);
      var (_, values') := InstantiateOperand(presets[0].operand, presets[0].logicalType, session, values).value;
      PresetsKeep(presets[1..], session, values');
    }
  }

  lemma {:induction false} PresetsMeaning(
      presets: seq<Preset>, session: TrustedSession, values: Bindings, c: Ctx, env: Env)
    requires SessionOnly(values, session) && PresetAssignments(presets, session, values).Ok?
    requires forall p: Preset | p in presets :: !p.operand.Sibling?
    requires Within(PresetAssignments(presets, session, values).value.1, c.params)
    ensures var out := PresetAssignments(presets, session, values).value.0;
            && |out| == |presets|
            && forall i | 0 <= i < |presets| :: Eval(c, out[i].value, env) == PresetValue(c.engine, presets[i], session)
  {
    if presets != [] {
      var (_, values') := InstantiateOperand(presets[0].operand, presets[0].logicalType, session, values).value;
      OperandKeeps(presets[0].operand, presets[0].logicalType, session, values);
      PresetsKeep(presets[1..], session, values');
      assert presets[0] in presets;
      OperandMeaning(presets[0].operand, presets[0].logicalType, 0, session, values, c, env);
      PresetsMeaning(presets[1..], session, values', c, env);
    }
  }

  /** No assignment of the list writes the ordinal. */
  predicate Untouched(assignments: seq<BoundAssignment>, o: nat) {
    forall a: BoundAssignment | a in assignments :: a.column.id.ordinal != o
  }

  lemma {:induction false} AssignKeeps(c: Ctx, env: Env, row: Row, assignments: seq<BoundAssignment>, o: nat)
    requires Untouched(assignments, o)
    ensures var out := Assign(c, env, row, assignments); (o in out <==> o in row) && (o in row ==> out[o] == row[o])
    decreases |assignments|
  {
    if assignments != [] {
      var first := assignments[0];
      assert first in assignments;
      AssignKeeps(c, env, row[first.column.id.ordinal := Eval(c, first.value, env)], assignments[1..], o);
    }
  }

  lemma {:induction false} AssignWrites(
      c: Ctx, env: Env, row: Row, assignments: seq<BoundAssignment>, r: ResourceId, k: nat)
    requires AssignmentsBound(assignments, r) && k < |assignments|
    ensures var out, a := Assign(c, env, row, assignments), assignments[k];
            a.column.id.ordinal in out && out[a.column.id.ordinal] == Eval(c, a.value, env)
    decreases |assignments|
  {
    var first, rest := assignments[0], assignments[1..];
    var row' := row[first.column.id.ordinal := Eval(c, first.value, env)];
    assert AssignmentsBound(rest, r) by { assert forall i | 0 <= i < |rest| :: rest[i] == assignments[i + 1]; }
    if k == 0 {
      forall a: BoundAssignment | a in rest ensures a.column.id.ordinal != first.column.id.ordinal {
        var i :| 0 <= i < |rest| && rest[i] == a;
        assert assignments[0].column.id != assignments[i + 1].column.id;
        assert first in assignments && a in assignments;
      }
      AssignKeeps(c, env, row', rest, first.column.id.ordinal);
    } else {
      AssignWrites(c, env, row', rest, r, k - 1);
    }
  }

  /** Distinct assignments: each assigned column holds its value, every other cell is untouched. */
  lemma AssignEffect(c: Ctx, env: Env, row: Row, assignments: seq<BoundAssignment>, r: ResourceId)
    requires AssignmentsBound(assignments, r)
    ensures var out := Assign(c, env, row, assignments);
            && (forall a: BoundAssignment | a in assignments ::
                  a.column.id.ordinal in out && out[a.column.id.ordinal] == Eval(c, a.value, env))
            && (forall o | (forall a: BoundAssignment | a in assignments :: a.column.id.ordinal != o) ::
                  (o in out <==> o in row) && (o in row ==> out[o] == row[o]))
  {
    var out := Assign(c, env, row, assignments);
    forall a: BoundAssignment | a in assignments
      ensures a.column.id.ordinal in out && out[a.column.id.ordinal] == Eval(c, a.value, env)
    {
      var k :| 0 <= k < |assignments| && assignments[k] == a;
      AssignWrites(c, env, row, assignments, r, k);
    }
    forall o | forall a: BoundAssignment | a in assignments :: a.column.id.ordinal != o
      ensures (o in out <==> o in row) && (o in row ==> out[o] == row[o])
    {
      AssignKeeps(c, env, row, assignments, o);
    }
  }

  lemma CallerAndPresetsBound(
    assignments: seq<BoundAssignment>, columns: set<ColumnId>, presets: seq<Preset>, session: TrustedSession,
    values: Bindings, r: ResourceId)
    requires AssignmentsBound(assignments, r) && PresetsActivated(presets, r) && SessionOnly(values, session)
    requires CallerColumnsAllowed(assignments, columns, presets)
    requires PresetAssignments(presets, session, values).Ok?
    ensures AssignmentsBound(assignments + PresetAssignments(presets, session, values).value.0, r)
  {
    var out := PresetAssignments(presets, session, values).value.0;
    PresetsKeep(presets, session, values);
    var all := assignments + out;
    forall i, j | 0 <= i < j < |all|
      ensures all[i].column.id != all[j].column.id
    {
      if j >= |assignments| {
        var preset := presets[j - |assignments|];
        assert preset in presets && all[j].column.id == preset.column;
        if i < |assignments| {
          assert assignments[i] in assignments;
          assert IsPreset(presets, preset.column);
        }
      }
    }
    forall a: BoundAssignment | a in all
      ensures a.column.id.resource == r
    {
      if a !in assignments {
        var k :| 0 <= k < |out| && out[k] == a;
        assert presets[k] in presets;
      }
    }
  }

  /** What a policy guarantees of a written row, given the row it started from. */
  ghost predicate WrittenUnder(
    engine: Engine, columns: set<ColumnId>, presets: seq<Preset>, session: TrustedSession, r: ResourceId, before: Row,
    after: Row)
  {
    && (forall p: Preset | p in presets ::
          p.column.ordinal in after && after[p.column.ordinal] == PresetValue(engine, p, session))
    && (forall o {:trigger o in after} {:trigger ColumnId(r, o)} ::
          (o in after) != (o in before) || (o in after && after[o] != before[o]) ==>
            ColumnId(r, o) in columns || IsPreset(presets, ColumnId(r, o)))
  }

  /** Caller assignments followed by presets write only policy columns, and every preset holds. */
  lemma PolicyWrite(
    c: Ctx, env: Env, row: Row, assignments: seq<BoundAssignment>, columns: set<ColumnId>, presets: seq<Preset>,
    session: TrustedSession, values: Bindings, r: ResourceId)
    requires AssignmentsBound(assignments, r) && PresetsActivated(presets, r) && SessionOnly(values, session)
    requires CallerColumnsAllowed(assignments, columns, presets)
    requires PresetAssignments(presets, session, values).Ok?
    requires Within(PresetAssignments(presets, session, values).value.1, c.params)
    ensures var all := assignments + PresetAssignments(presets, session, values).value.0;
            var after := Assign(c, env, row, all);
            && ColumnsDistinct(all)
            && WrittenUnder(c.engine, columns, presets, session, r, row, after)
            && forall a: BoundAssignment | a in assignments ::
                 a.column.id.ordinal in after && after[a.column.id.ordinal] == Eval(c, a.value, env)
  {
    var out := PresetAssignments(presets, session, values).value.0;
    var all := assignments + out;
    var after := Assign(c, env, row, all);
    PresetsKeep(presets, session, values);
    PresetsMeaning(presets, session, values, c, env);
    CallerAndPresetsBound(assignments, columns, presets, session, values, r);
    AssignEffect(c, env, row, all, r);
    forall p: Preset | p in presets
      ensures p.column.ordinal in after && after[p.column.ordinal] == PresetValue(c.engine, p, session)
    {
      var k :| 0 <= k < |presets| && presets[k] == p;
      assert out[k] in all;
    }
    forall o | (o in after) != (o in row) || (o in after && after[o] != row[o])
      ensures ColumnId(r, o) in columns || IsPreset(presets, ColumnId(r, o))
    {
      var a: BoundAssignment :| a in all && a.column.id.ordinal == o;
      assert a.column.id == ColumnId(r, o);
      if a !in assignments {
        var k :| 0 <= k < |out| && out[k] == a;
        assert presets[k] in presets;
      }
    }
  }

  // ----- UPDATE -----

  predicate Updates(c: Ctx, u: BoundUpdate, row: Row) {
    Satisfies(c, u.filter, One(u.resource, row))
  }

  function UpdatedRow(c: Ctx, u: BoundUpdate, row: Row): Row {
    if Updates(c, u, row) then Assign(c, One(u.resource, row), row, u.assignments) else row
  }

  /** The table after the update, and the new rows it reports. */
  function UpdatedTable(c: Ctx, u: BoundUpdate, table: seq<Row>): seq<Row> {
    if table == [] then [] else [UpdatedRow(c, u, table[0])] + UpdatedTable(c, u, table[1..])
  }

  function ChangedRows(c: Ctx, u: BoundUpdate, table: seq<Row>): seq<Row> {
    if table == [] then []
    else (if Updates(c, u, table[0]) then [UpdatedRow(c, u, table[0])] else []) + ChangedRows(c, u, table[1..])
  }

  lemma {:induction false} UpdatedTableAt(c: Ctx, u: BoundUpdate, table: seq<Row>, i: nat)
    requires i < |table|
    ensures |UpdatedTable(c, u, table)| == |table| && UpdatedTable(c, u, table)[i] == UpdatedRow(c, u, table[i])
    ensures Updates(c, u, table[i]) ==> UpdatedRow(c, u, table[i]) in ChangedRows(c, u, table)
  {
    if i > 0 {
      UpdatedTableAt(c, u, table[1..], i - 1);
    } else if |table| > 1 {
      UpdatedTableAt(c, u, table[1..], 0);
    }
  }

  /**
    * Mutation safety. For every UPDATE that compiles and whose report the adapter accepts, a row is
    * written exactly when the client's condition and the row filter are both True of it; a written
    * row satisfies the check, changed only policy columns and presets, holds every preset value and
    * the client's own values; no column was assigned twice; every other row is unchanged.
    */
  lemma UpdateSafety(
    bundle: PolicyBundle, u: BoundUpdate, session: TrustedSession, policy: UpdatePolicy,
    plan: ProtectedPlan<BoundUpdate>, c: Ctx, table: seq<Row>, sealed: Plan, maxBytes: nat, i: nat)
    requires RolePolicy(bundle.update, u.resource, session.role) == Ok(policy)
    requires Owned(policy.rowFilter, u.resource) && Owned(policy.check, u.resource)
    requires PresetsActivated(policy.presets, u.resource) && AssignmentsBound(u.assignments, u.resource)
    requires CompileUpdate(bundle, u, session) == Ok(plan) && Within(plan.serverValues, c.params)
    requires sealed.checkColumn == Some(CHECK_COLUMN) && plan.operationCheck.Some?
    requires AcceptMutation(
               sealed,
               Report(c, u.resource, plan.statement.returning, plan.operationCheck.value,
                   ChangedRows(c, plan.statement, table)),
               maxBytes).Ok?
    requires i < |table|
    ensures ColumnsDistinct(plan.statement.assignments)
    ensures |UpdatedTable(c, plan.statement, table)| == |table|
    ensures var before, after := table[i], UpdatedTable(c, plan.statement, table)[i];
            if Satisfies(c, u.filter, One(u.resource, before))
               && PredicateTruth(c.engine, policy.rowFilter, before, session) == True
            then
              && PredicateTruth(c.engine, policy.check, after, session) == True
              && WrittenUnder(c.engine, policy.columns, policy.presets, session, u.resource, before, after)
              && forall a: BoundAssignment | a in u.assignments ::
                   a.column.id.ordinal in after
                   && after[a.column.id.ordinal] == Eval(c, a.value, One(u.resource, before))
            else
              after == before
  {
    var r := u.resource;
    var before := table[i];
    var env := One(r, before);
    var (presets, values1) := PresetAssignments(policy.presets, session, map[]).value;
    var (rows, values2) := Instantiate(policy.rowFilter, session, values1).value;
    var (check, values3) := Instantiate(policy.check, session, values2).value;
    PresetsKeep(policy.presets, session, map[]);
    InstantiateKeeps(policy.rowFilter, session, values1);
    InstantiateKeeps(policy.check, session, values2);
    AndOptionalTrue(c, u.filter, rows, env);
    InstantiateMeaning(policy.rowFilter, r, session, values1, c, env);
    UpdatedTableAt(c, plan.statement, table, i);
    PolicyWrite(c, env, before, u.assignments, policy.columns, policy.presets, session, map[], r);
    AcceptedChecks(c, r, plan.statement.returning, check, ChangedRows(c, plan.statement, table), sealed, maxBytes);
    var after := UpdatedRow(c, plan.statement, before);
    InstantiateMeaning(policy.check, r, session, values2, c, One(r, after));
    assert RowOf(env, r) == before && RowOf(One(r, after), r) == after;
  }

  // ----- INSERT -----

  /** The rows an INSERT adds; cells that are not written take the table's defaults. */
  function InsertedRows(c: Ctx, defaults: Row, rows: seq<seq<BoundAssignment>>): seq<Row> {
    seq(|rows|, i requires 0 <= i < |rows| => Assign(c, map[], defaults, rows[i]))
  }

  /**
    * A protected VALUES row writes each column once, only where the policy allows, with the presets
    * and the client's values.
    */
  ghost predicate RowSafe(
    policy: InsertPolicy, session: TrustedSession, c: Ctx, defaults: Row, r: ResourceId,
    row: seq<BoundAssignment>, protected: seq<BoundAssignment>)
  {
    && ColumnsDistinct(protected)
    && var after := Assign(c, map[], defaults, protected);
       && WrittenUnder(c.engine, policy.columns, policy.presets, session, r, defaults, after)
       && forall a: BoundAssignment | a in row ::
            a.column.id.ordinal in after && after[a.column.id.ordinal] == Eval(c, a.value, map[])
  }

  lemma {:induction false} ProtectRowsKeep(
    rows: seq<seq<BoundAssignment>>, policy: InsertPolicy, session: TrustedSession, values: Bindings)
    requires SessionOnly(values, session) && ProtectRows(rows, policy, session, values).Ok?
    ensures var (out, values') := ProtectRows(rows, policy, session, values).value;
            SessionOnly(values', session) && Within(values, values') && |out| == |rows|
    decreases |rows|
  {
    if rows != [] {
      var (_, values') := PresetAssignments(policy.presets, session, values).value;
      PresetsKeep(policy.presets, session, values);
      ProtectRowsKeep(rows[1..], policy, session, values');
    }
  }

  ghost predicate RowsSafe(
    policy: InsertPolicy, session: TrustedSession, c: Ctx, defaults: Row, r: ResourceId,
    rows: seq<seq<BoundAssignment>>, protected: seq<seq<BoundAssignment>>)
  {
    && |protected| == |rows|
    && forall i | 0 <= i < |rows| :: RowSafe(policy, session, c, defaults, r, rows[i], protected[i])
  }

  lemma RowsSafeCons(
    policy: InsertPolicy, session: TrustedSession, c: Ctx, defaults: Row, r: ResourceId,
    rows: seq<seq<BoundAssignment>>, first: seq<BoundAssignment>, rest: seq<seq<BoundAssignment>>)
    requires rows != [] && RowSafe(policy, session, c, defaults, r, rows[0], first)
    requires RowsSafe(policy, session, c, defaults, r, rows[1..], rest)
    ensures RowsSafe(policy, session, c, defaults, r, rows, [first] + rest)
  {
    forall i | 0 < i < |rows|
      ensures RowSafe(policy, session, c, defaults, r, rows[i], ([first] + rest)[i])
    {
      assert RowSafe(policy, session, c, defaults, r, rows[1..][i - 1], rest[i - 1]);
    }
  }

  lemma {:induction false} ProtectRowsMeaning(
    rows: seq<seq<BoundAssignment>>, policy: InsertPolicy, session: TrustedSession, values: Bindings,
    c: Ctx, defaults: Row, r: ResourceId)
    requires SessionOnly(values, session) && ProtectRows(rows, policy, session, values).Ok?
    requires PresetsActivated(policy.presets, r) && forall row | row in rows :: AssignmentsBound(row, r)
    requires Within(ProtectRows(rows, policy, session, values).value.1, c.params)
    ensures RowsSafe(policy, session, c, defaults, r, rows, ProtectRows(rows, policy, session, values).value.0)
    decreases |rows|
  {
    if rows != [] {
      var (presets, values') := PresetAssignments(policy.presets, session, values).value;
      PresetsKeep(policy.presets, session, values);
      assert rows[0] in rows;
      ProtectRowsMeaning(rows[1..], policy, session, values', c, defaults, r);
      ProtectRowsKeep(rows[1..], policy, session, values');
      var (rest, values'') := ProtectRows(rows[1..], policy, session, values').value;
      WithinTransitive(values', values'', c.params);
      RowWritten(rows[0], presets, policy, session, values, c, defaults, r);
      RowsSafeCons(policy, session, c, defaults, r, rows, rows[0] + presets, rest);
    }
  }

  /** One VALUES row with the presets added. */
  lemma RowWritten(
    row: seq<BoundAssignment>, presets: seq<BoundAssignment>, policy: InsertPolicy, session: TrustedSession,
    values: Bindings,
    c: Ctx, defaults: Row, r: ResourceId)
    requires SessionOnly(values, session) && PresetsActivated(policy.presets, r) && AssignmentsBound(row, r)
    requires CallerColumnsAllowed(row, policy.columns, policy.presets)
    requires PresetAssignments(policy.presets, session, values).Ok?
    requires presets == PresetAssignments(policy.presets, session, values).value.0
    requires Within(PresetAssignments(policy.presets, session, values).value.1, c.params)
    ensures RowSafe(policy, session, c, defaults, r, row, row + presets)
  {
    PolicyWrite(c, map[], defaults, row, policy.columns, policy.presets, session, values, r);
  }

  /**
    * Insert safety. For every INSERT that compiles and whose report the adapter accepts, exactly one
    * row is added per VALUES row; each satisfies the check, writes only policy columns and presets,
    * and holds every preset value and the client's values.
    */
  lemma InsertSafety(
    bundle: PolicyBundle, insert: BoundInsert, session: TrustedSession, policy: InsertPolicy,
    plan: ProtectedPlan<BoundInsert>, c: Ctx, defaults: Row, sealed: Plan, maxBytes: nat)
    requires RolePolicy(bundle.insert, insert.resource, session.role) == Ok(policy)
    requires Owned(policy.check, insert.resource)
    requires PresetsActivated(policy.presets, insert.resource)
    requires forall row | row in insert.rows :: AssignmentsBound(row, insert.resource)
    requires CompileInsert(bundle, insert, session) == Ok(plan) && Within(plan.serverValues, c.params)
    requires sealed.checkColumn == Some(CHECK_COLUMN) && plan.operationCheck.Some?
    requires AcceptMutation(
               sealed,
               Report(c, insert.resource, plan.statement.returning, plan.operationCheck.value,
                      InsertedRows(c, defaults, plan.statement.rows)),
               maxBytes).Ok?
    ensures plan.expectedAffectedRows == Some(|insert.rows|)
    ensures |InsertedRows(c, defaults, plan.statement.rows)| == |insert.rows|
    ensures forall i | 0 <= i < |insert.rows| ::
              var after := InsertedRows(c, defaults, plan.statement.rows)[i];
              && ColumnsDistinct(plan.statement.rows[i])
              && PredicateTruth(c.engine, policy.check, after, session) == True
              && WrittenUnder(c.engine, policy.columns, policy.presets, session, insert.resource, defaults, after)
              && forall a: BoundAssignment | a in insert.rows[i] ::
                   a.column.id.ordinal in after && after[a.column.id.ordinal] == Eval(c, a.value, map[])
  {
    var r := insert.resource;
    var (rows, values1) := ProtectRows(insert.rows, policy, session, map[]).value;
    var (check, values2) := Instantiate(policy.check, session, values1).value;
    ProtectRowsKeep(insert.rows, policy, session, map[]);
    InstantiateKeeps(policy.check, session, values1);
    WithinTransitive(values1, values2, c.params);
    ProtectRowsMeaning(insert.rows, policy, session, map[], c, defaults, r);
    var inserted := InsertedRows(c, defaults, rows);
    AcceptedChecks(c, r, plan.statement.returning, check, inserted, sealed, maxBytes);
    forall i | 0 <= i < |insert.rows|
      ensures PredicateTruth(c.engine, policy.check, inserted[i], session) == True
    {
      assert RowSafe(policy, session, c, defaults, r, insert.rows[i], rows[i]);
      assert inserted[i] in inserted;
      InstantiateMeaning(policy.check, r, session, values1, c, One(r, inserted[i]));
      assert RowOf(One(r, inserted[i]), r) == inserted[i];
    }
  }

  // ----- DELETE -----

  predicate Deletes(c: Ctx, d: BoundDelete, row: Row) {
    Satisfies(c, d.filter, One(d.resource, row))
  }

  /** A compiled DELETE removes a row exactly when the client's condition and the row filter are True of it. */
  lemma DeleteSafety(
    bundle: PolicyBundle, d: BoundDelete, session: TrustedSession, policy: DeletePolicy,
    plan: ProtectedPlan<BoundDelete>, c: Ctx, row: Row)
    requires RolePolicy(bundle.delete, d.resource, session.role) == Ok(policy) && Owned(policy.rowFilter, d.resource)
    requires CompileDelete(bundle, d, session) == Ok(plan) && Within(plan.serverValues, c.params)
    ensures Deletes(c, plan.statement, row)
       <==> Satisfies(c, d.filter, One(d.resource, row))
            && PredicateTruth(c.engine, policy.rowFilter, row, session) == True
  {
    var env := One(d.resource, row);
    var (rows, values) := Instantiate(policy.rowFilter, session, map[]).value;
    AndOptionalTrue(c, d.filter, rows, env);
    InstantiateMeaning(policy.rowFilter, d.resource, session, map[], c, env);
    assert RowOf(env, d.resource) == row;
  }
}
