/**
  * Emission of INSERT, UPDATE and DELETE, and what the emitted statements do to a named row: the
  * same assignments, the same filter, and a RETURNING list that ends with the operation check.
  */
module EmitMutation {
  import opened Core
  import opened Ir
  import opened Semantics
  import opened Alias
  import opened Results
  import opened Emit
  import opened EmitInvariants
  import opened SqlSemantics
  import opened EmitMeaning
  import opened EndToEnd
  import opened Mutation
  import Sql

  /** The physical name of a column of the statement's own resource. */
  function ColumnName(em: Emitter, r: ResourceId, id: ColumnId): Result<string, EmitError>
    requires r in em.catalog
  {
    if id.resource == r && id.ordinal in em.catalog[r].columns then Ok(em.catalog[r].columns[id.ordinal])
    else Err(UnknownColumn)
  }

  function ColumnNames(em: Emitter, r: ResourceId, assignments: seq<BoundAssignment>): Result<seq<string>, EmitError>
    requires r in em.catalog
  {
    if assignments == [] then Ok([])
    else
      var name :- ColumnName(em, r, assignments[0].column.id);
      var rest :- ColumnNames(em, r, assignments[1..]);
      Ok([name] + rest)
  }

  function EmitSets(em: Emitter, r: ResourceId, assignments: seq<BoundAssignment>, st: EmitState): Emitted<seq<Sql.Set>>
    requires r in em.catalog
    decreases |assignments|
  {
    if assignments == [] then Ok(([], st))
    else
      var name :- ColumnName(em, r, assignments[0].column.id);
      var (value, st1) :- EmitExpr(em, assignments[0].value, st);
      var (rest, st2) :- EmitSets(em, r, assignments[1..], st1);
      Ok(([Sql.Set(name, value)] + rest, st2))
  }

  function EmitValues(em: Emitter, assignments: seq<BoundAssignment>, st: EmitState): Emitted<seq<Sql.Expr>>
    decreases |assignments|
  {
    if assignments == [] then Ok(([], st))
    else
      var (first, st1) :- EmitExpr(em, assignments[0].value, st);
      var (rest, st2) :- EmitValues(em, assignments[1..], st1);
      Ok(([first] + rest, st2))
  }

  predicate SameColumns(row: seq<BoundAssignment>, first: seq<BoundAssignment>) {
    |row| == |first| && forall i | 0 <= i < |row| :: row[i].column.id == first[i].column.id
  }

  function EmitRows(
      em: Emitter, first: seq<BoundAssignment>, rows: seq<seq<BoundAssignment>>, st: EmitState): Emitted<seq<Sql.Row>>
    decreases |rows|
  {
    if rows == [] then Ok(([], st))
    else if !SameColumns(rows[0], first) then Err(InvariantViolation)
    else
      var (cells, st1) :- EmitValues(em, rows[0], st);
      var (rest, st2) :- EmitRows(em, first, rows[1..], st1);
      Ok(([Sql.Row(cells)] + rest, st2))
  }

  /** RETURNING with the check column at its end; a write without a check is refused. */
  function EmitReturning(em: Emitter, returning: seq<BoundProjection>, check: Option<BoundExpr>, st: EmitState)
    : Emitted<seq<Sql.ResultColumn>>
  {
    var (columns, st1) :- EmitProjections(em, returning, 0, st);
    if check.None? then Err(InvariantViolation)
    else
      var (condition, st2) :- EmitExpr(em, check.value, st1);
      Ok((columns + [Sql.Output(FlagOf(condition), CHECK_COLUMN)], st2))
  }

  function EmitInsert(
      em: Emitter, insert: BoundInsert, check: Option<BoundExpr>, st: EmitState): Emitted<Sql.Statement> {
    if insert.resource !in em.catalog then Err(UnknownResource)
    else if insert.rows == [] then Err(InvariantViolation)
    else
      var names :- ColumnNames(em, insert.resource, insert.rows[0]);
      var (rows, st1) :- EmitRows(em, insert.rows[0], insert.rows, st);
      var (returning, st2) :- EmitReturning(em, insert.returning, check, st1);
      var body := Sql.Select([], Sql.Values(rows), [], [], None);
      Ok((Sql.InsertStatement(false, em.catalog[insert.resource].source, names, Sql.FromSelect(body, None),
          returning), st2))
  }

  function EmitUpdate(
      em: Emitter, update: BoundUpdate, check: Option<BoundExpr>, st: EmitState): Emitted<Sql.Statement> {
    if update.resource !in em.catalog then Err(UnknownResource)
    else if update.assignments == [] then Err(InvariantViolation)
    else
      var (sets, st1) :- EmitSets(em, update.resource, update.assignments, st);
      var (returning, st2) :- EmitReturning(em, update.returning, check, st1);
      var (filter, st3) :- EmitOption(em, update.filter, st2);
      Ok((Sql.UpdateStatement(false, em.catalog[update.resource].source, false, sets, filter, [], None, returning),
          st3))
  }

  function EmitDelete(em: Emitter, delete: BoundDelete, st: EmitState): Emitted<Sql.Statement> {
    if delete.resource !in em.catalog then Err(UnknownResource)
    else
      var (filter, st1) :- EmitOption(em, delete.filter, st);
      var (returning, st2) :- EmitProjections(em, delete.returning, 0, st1);
      Ok((Sql.DeleteStatement(false, em.catalog[delete.resource].source, filter, [], None, returning), st2))
  }

  // ----- What emitted writes do to a named row -----

  /** SET: every value is evaluated in the old row, a later assignment wins. */
  function SqlAssign(sc: SqlCtx, sets: seq<Sql.Set>, env: NamedEnv, row: NamedRow): NamedRow
    decreases |sets|
  {
    if sets == [] then row
    else SqlAssign(sc, sets[1..], env, row[sets[0].column := SqlEval(sc, sets[0].value, env)])
  }

  /** A VALUES row written over the defaults under the listed names. */
  function SqlWrite(sc: SqlCtx, names: seq<string>, cells: seq<Sql.Expr>, row: NamedRow): NamedRow
    requires |names| == |cells|
    decreases |names|
  {
    if names == [] then row
    else SqlWrite(sc, names[1..], cells[1..], row[names[0] := SqlEval(sc, cells[0], map[])])
  }

  predicate SqlSatisfies(sc: SqlCtx, filter: Option<Sql.Expr>, env: NamedEnv) {
    filter.None? || SqlIsTrue(sc, filter.value, env)
  }

  /** The catalog gives every column of a resource its own name. */
  ghost predicate DistinctNames(em: Emitter, r: ResourceId)
    requires r in em.catalog
  {
    var columns := em.catalog[r].columns;
    forall o, p {:trigger columns[o], columns[p]} | o in columns && p in columns && columns[o] == columns[p] :: o == p
  }

  lemma WriteCell(em: Emitter, r: ResourceId, row: Row, named: NamedRow, o: nat, v: LogicalValue)
    requires r in em.catalog && DistinctNames(em, r) && NamedRowOf(em, r, row, named) && o in em.catalog[r].columns
    ensures NamedRowOf(em, r, row[o := v], named[em.catalog[r].columns[o] := v])
  {
  }

  lemma {:induction false} SetsGrow(em: Emitter, r: ResourceId, assignments: seq<BoundAssignment>, st: EmitState)
    requires r in em.catalog && EmitSets(em, r, assignments, st).Ok?
    ensures Grows(st, EmitSets(em, r, assignments, st).value.1)
    decreases |assignments|
  {
    if assignments != [] {
      var st1 := EmitExpr(em, assignments[0].value, st).value.1;
      ExprGrows(em, assignments[0].value, st);
      SetsGrow(em, r, assignments[1..], st1);
    }
  }

  lemma {:induction false} ValuesGrow(em: Emitter, assignments: seq<BoundAssignment>, st: EmitState)
    requires EmitValues(em, assignments, st).Ok?
    ensures Grows(st, EmitValues(em, assignments, st).value.1)
    ensures |EmitValues(em, assignments, st).value.0| == |assignments|
    decreases |assignments|
  {
    if assignments != [] {
      var st1 := EmitExpr(em, assignments[0].value, st).value.1;
      ExprGrows(em, assignments[0].value, st);
      ValuesGrow(em, assignments[1..], st1);
    }
  }

  lemma {:induction false} RowsGrow(
      em: Emitter, first: seq<BoundAssignment>, rows: seq<seq<BoundAssignment>>, st: EmitState)
    requires EmitRows(em, first, rows, st).Ok?
    ensures Grows(st, EmitRows(em, first, rows, st).value.1)
    decreases |rows|
  {
    if rows != [] {
      var st1 := EmitValues(em, rows[0], st).value.1;
      ValuesGrow(em, rows[0], st);
      RowsGrow(em, first, rows[1..], st1);
    }
  }

  lemma ReturningGrows(em: Emitter, returning: seq<BoundProjection>, check: Option<BoundExpr>, st: EmitState)
    requires EmitReturning(em, returning, check, st).Ok?
    ensures Grows(st, EmitReturning(em, returning, check, st).value.1)
  {
    var st1 := EmitProjections(em, returning, 0, st).value.1;
    ProjectionsGrow(em, returning, 0, st);
    ExprGrows(em, check.value, st1);
  }

  /** The emitted SET list turns the named old row into the named new row. */
  lemma {:induction false} SetsMeaning(
    em: Emitter, r: ResourceId, assignments: seq<BoundAssignment>, st: EmitState, c: Ctx, sc: SqlCtx,
    env: Env, named: NamedEnv, row: Row, namedRow: NamedRow)
    requires Agree(em, c, sc) && Good(st) && NamedEnvOf(em, env, named)
    requires r in em.catalog && DistinctNames(em, r) && NamedRowOf(em, r, row, namedRow)
    requires EmitSets(em, r, assignments, st).Ok?
    requires Within(EmitSets(em, r, assignments, st).value.1.serverParameters, c.params)
    ensures NamedRowOf(em, r, Assign(c, env, row, assignments),
                       SqlAssign(sc, EmitSets(em, r, assignments, st).value.0, named, namedRow))
    decreases |assignments|
  {
    if assignments != [] {
      var a := assignments[0];
      var name := em.catalog[r].columns[a.column.id.ordinal];
      var (value, st1) := EmitExpr(em, a.value, st).value;
      var (rest, st2) := EmitSets(em, r, assignments[1..], st1).value;
      ExprGrows(em, a.value, st);
      SetsGrow(em, r, assignments[1..], st1);
      WithinTransitive(st1.serverParameters, st2.serverParameters, c.params);
      assert a in assignments;
      ExprMeaning(em, a.value, st, c, sc, env, named);
      var v := Eval(c, a.value, env);
      WriteCell(em, r, row, namedRow, a.column.id.ordinal, v);
      SetsMeaning(em, r, assignments[1..], st1, c, sc, env, named, row[a.column.id.ordinal := v], namedRow[name := v]);
      assert ([Sql.Set(name, value)] + rest)[1..] == rest;
    }
  }

  /** The emitted RETURNING list computes the projected cells and the truth of the check. */
  lemma ReturningMeaning(
    em: Emitter, r: ResourceId, returning: seq<BoundProjection>, check: BoundExpr, st: EmitState, c: Ctx, sc: SqlCtx,
    row: Row, named: NamedEnv)
    requires Agree(em, c, sc) && Good(st) && NamedEnvOf(em, One(r, row), named)
    requires EmitReturning(em, returning, Some(check), st).Ok?
    requires Within(EmitReturning(em, returning, Some(check), st).value.1.serverParameters, c.params)
    ensures OutputValues(sc, EmitReturning(em, returning, Some(check), st).value.0, named)
            == Returned(c, r, returning, check, row)
  {
    var (columns, st1) := EmitProjections(em, returning, 0, st).value;
    var (condition, st2) := EmitExpr(em, check, st1).value;
    ProjectionsGrow(em, returning, 0, st);
    ExprGrows(em, check, st1);
    WithinTransitive(st1.serverParameters, st2.serverParameters, c.params);
    OutputsMeaning(em, returning, 0, st, c, sc, One(r, row), named);
    ExprMeaning(em, check, st1, c, sc, One(r, row), named);
    FlagMeaning(sc, condition, named);
    OutputsAppend(sc, columns, Sql.Output(FlagOf(condition), CHECK_COLUMN), named);
  }

  /** The names the database gives the RETURNING columns are those of the report. */
  lemma ReturningNames(em: Emitter, returning: seq<BoundProjection>, check: BoundExpr, st: EmitState)
    requires EmitReturning(em, returning, Some(check), st).Ok?
    ensures EndToEnd.ColumnNames(EmitReturning(em, returning, Some(check), st).value.0)
            == EmittedColumns(returning, 0) + [CHECK_COLUMN]
  {
    var columns := EmitProjections(em, returning, 0, st).value.0;
    EmittedLayout(em, returning, 0, st);
    NamesAppend(columns, EmitReturning(em, returning, Some(check), st).value.0[|columns|]);
  }

  lemma NamesCons(first: Sql.ResultColumn, rest: seq<Sql.ResultColumn>)
    ensures EndToEnd.ColumnNames([first] + rest) == EndToEnd.ColumnNames([first]) + EndToEnd.ColumnNames(rest)
  {
    assert ([first] + rest)[1..] == rest && [first][1..] == [];
  }

  lemma {:induction false} NamesAppend(columns: seq<Sql.ResultColumn>, last: Sql.ResultColumn)
    ensures EndToEnd.ColumnNames(columns + [last])
            == EndToEnd.ColumnNames(columns) + EndToEnd.ColumnNames([last])
  {
    if columns == [] {
      assert columns + [last] == [last];
    } else {
      var first, rest := columns[0], columns[1..];
      assert columns == [first] + rest && columns + [last] == [first] + (rest + [last]);
      NamesCons(first, rest);
      NamesCons(first, rest + [last]);
      NamesAppend(rest, last);
    }
  }

  /** Nothing but the statement's own table, rows, condition and RETURNING list: no WITH, FROM, ORDER BY or LIMIT. */
  predicate Unadorned(statement: Sql.Statement) {
    match statement
    case InsertStatement(with_, _, _, body, _) =>
      !with_ && body.FromSelect? && body.upsert == None && body.query.ctes == [] && body.query.compounds == [] &&
      body.query.orderBy == [] && body.query.limit == None
    case UpdateStatement(with_, _, from, _, _, orderBy, limit, _) =>
      !with_ && !from && orderBy == [] && limit == None
    case DeleteStatement(with_, _, _, orderBy, limit, _) => !with_ && orderBy == [] && limit == None
    case _ => false
  }

  lemma {:induction false} OutputsAppend(
      sc: SqlCtx, columns: seq<Sql.ResultColumn>, last: Sql.ResultColumn, named: NamedEnv)
    requires last.Output?
    ensures OutputValues(sc, columns + [last], named)
            == OutputValues(sc, columns, named) + [SqlEval(sc, last.expr, named)]
  {
    if columns == [] {
      assert (columns + [last])[1..] == [];
    } else {
      assert (columns + [last])[1..] == columns[1..] + [last];
      OutputsAppend(sc, columns[1..], last, named);
    }
  }

  lemma FilterMeaning(
      em: Emitter, filter: Option<BoundExpr>, st: EmitState, c: Ctx, sc: SqlCtx, env: Env, named: NamedEnv)
    requires Agree(em, c, sc) && Good(st) && NamedEnvOf(em, env, named)
    requires EmitOption(em, filter, st).Ok?
    requires Within(EmitOption(em, filter, st).value.1.serverParameters, c.params)
    ensures SqlSatisfies(sc, EmitOption(em, filter, st).value.0, named) == Satisfies(c, filter, env)
  {
    if filter.Some? { ExprMeaning(em, filter.value, st, c, sc, env, named); }
  }

  /**
    * Emission of an update. On every row the emitted WHERE selects as the bound filter does, the
    * emitted SET writes the bound row, and the emitted RETURNING list of any new row is that row's
    * report, with the check column last.
    */
  lemma UpdateEmission(
    em: Emitter, u: BoundUpdate, check: BoundExpr, st: EmitState, c: Ctx, sc: SqlCtx,
    row: Row, named: NamedEnv, after: Row, namedAfter: NamedEnv)
    requires Agree(em, c, sc) && Good(st) && Known(em, u.resource) && DistinctNames(em, u.resource)
    requires EmitUpdate(em, u, Some(check), st).Ok?
    requires Within(EmitUpdate(em, u, Some(check), st).value.1.serverParameters, c.params)
    requires NamedEnvOf(em, One(u.resource, row), named) && NamedEnvOf(em, One(u.resource, after), namedAfter)
    ensures var stmt := EmitUpdate(em, u, Some(check), st).value.0;
            && stmt.UpdateStatement? && Unadorned(stmt) && stmt.table == em.catalog[u.resource].source
            && SqlSatisfies(sc, stmt.filter, named) == Updates(c, u, row)
            && em.aliases[u.resource] in named
            && NamedRowOf(em, u.resource, Assign(c, One(u.resource, row), row, u.assignments),
                          SqlAssign(sc, stmt.sets, named, named[em.aliases[u.resource]]))
            && OutputValues(sc, stmt.returning, namedAfter) == Returned(c, u.resource, u.returning, check, after)
            && EndToEnd.ColumnNames(stmt.returning) == EmittedColumns(u.returning, 0) + [CHECK_COLUMN]
  {
    var r := u.resource;
    var (sets, st1) := EmitSets(em, r, u.assignments, st).value;
    var (returning, st2) := EmitReturning(em, u.returning, Some(check), st1).value;
    var (filter, st3) := EmitOption(em, u.filter, st2).value;
    SetsGrow(em, r, u.assignments, st);
    ReturningGrows(em, u.returning, Some(check), st1);
    OptionGrows(em, u.filter, st2);
    WithinTransitive(st2.serverParameters, st3.serverParameters, c.params);
    WithinTransitive(st1.serverParameters, st2.serverParameters, c.params);
    assert em.aliases[r] in named && NamedRowOf(em, r, row, named[em.aliases[r]]) by { assert r in One(r, row); }
    SetsMeaning(em, r, u.assignments, st, c, sc, One(r, row), named, row, named[em.aliases[r]]);
    ReturningMeaning(em, r, u.returning, check, st1, c, sc, after, namedAfter);
    ReturningNames(em, u.returning, check, st1);
    FilterMeaning(em, u.filter, st2, c, sc, One(r, row), named);
  }

  // ----- INSERT -----

  lemma {:induction false} NamesLength(em: Emitter, r: ResourceId, assignments: seq<BoundAssignment>)
    requires r in em.catalog && ColumnNames(em, r, assignments).Ok?
    ensures |ColumnNames(em, r, assignments).value| == |assignments|
    decreases |assignments|
  {
    if assignments != [] { NamesLength(em, r, assignments[1..]); }
  }

  /** One VALUES row, written under the names of the first row, is the bound row. */
  lemma {:induction false} ValuesMeaning(
    em: Emitter, r: ResourceId, first: seq<BoundAssignment>, assignments: seq<BoundAssignment>, st: EmitState,
    c: Ctx, sc: SqlCtx, row: Row, namedRow: NamedRow)
    requires Agree(em, c, sc) && Good(st) && r in em.catalog && DistinctNames(em, r) && NamedRowOf(em, r, row, namedRow)
    requires SameColumns(assignments, first) && ColumnNames(em, r, first).Ok?
    requires EmitValues(em, assignments, st).Ok?
    requires Within(EmitValues(em, assignments, st).value.1.serverParameters, c.params)
    ensures |ColumnNames(em, r, first).value| == |EmitValues(em, assignments, st).value.0|
    ensures NamedRowOf(em, r, Assign(c, map[], row, assignments),
                       SqlWrite(sc, ColumnNames(em, r, first).value, EmitValues(em, assignments, st).value.0, namedRow))
    decreases |assignments|
  {
    NamesLength(em, r, first);
    ValuesGrow(em, assignments, st);
    if assignments != [] {
      var a, names := assignments[0], ColumnNames(em, r, first).value;
      var (cell, st1) := EmitExpr(em, a.value, st).value;
      var (rest, st2) := EmitValues(em, assignments[1..], st1).value;
      ExprGrows(em, a.value, st);
      ValuesGrow(em, assignments[1..], st1);
      WithinTransitive(st1.serverParameters, st2.serverParameters, c.params);
      assert a in assignments && first[0].column.id == a.column.id;
      ExprMeaning(em, a.value, st, c, sc, map[], map[]);
      var v := Eval(c, a.value, map[]);
      WriteCell(em, r, row, namedRow, a.column.id.ordinal, v);
      NamesLength(em, r, first[1..]);
      ValuesMeaning(em, r, first[1..], assignments[1..], st1, c, sc, row[a.column.id.ordinal := v],
          namedRow[names[0] := v]);
      assert ([cell] + rest)[1..] == rest && names[1..] == ColumnNames(em, r, first[1..]).value;
    }
  }

  /** Every emitted VALUES row is written as its bound row. */
  lemma {:induction false} RowsMeaning(
    em: Emitter, r: ResourceId, first: seq<BoundAssignment>, rows: seq<seq<BoundAssignment>>, st: EmitState,
    c: Ctx, sc: SqlCtx, defaults: Row, namedDefaults: NamedRow)
    requires Agree(em, c, sc) && Good(st) && r in em.catalog && DistinctNames(em, r)
    requires NamedRowOf(em, r, defaults, namedDefaults) && ColumnNames(em, r, first).Ok?
    requires EmitRows(em, first, rows, st).Ok?
    requires Within(EmitRows(em, first, rows, st).value.1.serverParameters, c.params)
    ensures var out, names := EmitRows(em, first, rows, st).value.0, ColumnNames(em, r, first).value;
            |out| == |rows| &&
            forall i | 0 <= i < |rows| ::
              |names| == |out[i].cells| &&
              NamedRowOf(em, r, Assign(c, map[], defaults, rows[i]), SqlWrite(sc, names, out[i].cells, namedDefaults))
    decreases |rows|
  {
    if rows != [] {
      var (cells, st1) := EmitValues(em, rows[0], st).value;
      var (rest, st2) := EmitRows(em, first, rows[1..], st1).value;
      ValuesGrow(em, rows[0], st);
      RowsGrow(em, first, rows[1..], st1);
      WithinTransitive(st1.serverParameters, st2.serverParameters, c.params);
      assert rows[0] in rows;
      ValuesMeaning(em, r, first, rows[0], st, c, sc, defaults, namedDefaults);
      RowsMeaning(em, r, first, rows[1..], st1, c, sc, defaults, namedDefaults);
      var out := [Sql.Row(cells)] + rest;
      forall i | 0 < i < |rows| ensures out[i] == rest[i - 1] && rows[i] == rows[1..][i - 1] {}
    }
  }

  /** Emission of an insert: its VALUES rows are the bound rows, its RETURNING list reports a row with the check. */
  lemma InsertEmission(
    em: Emitter, insert: BoundInsert, check: BoundExpr, st: EmitState, c: Ctx, sc: SqlCtx,
    defaults: Row, namedDefaults: NamedRow, after: Row, namedAfter: NamedEnv)
    requires Agree(em, c, sc) && Good(st) && Known(em, insert.resource) && DistinctNames(em, insert.resource)
    requires EmitInsert(em, insert, Some(check), st).Ok?
    requires Within(EmitInsert(em, insert, Some(check), st).value.1.serverParameters, c.params)
    requires NamedRowOf(em, insert.resource, defaults, namedDefaults)
    requires NamedEnvOf(em, One(insert.resource, after), namedAfter)
    ensures var stmt := EmitInsert(em, insert, Some(check), st).value.0;
            && stmt.InsertStatement? && Unadorned(stmt) && stmt.table == em.catalog[insert.resource].source
            && stmt.body.query.body.Values? && |stmt.body.query.body.rows| == |insert.rows|
            && (forall i | 0 <= i < |insert.rows| ::
                  |stmt.columns| == |stmt.body.query.body.rows[i].cells| &&
                  NamedRowOf(em, insert.resource, InsertedRows(c, defaults, insert.rows)[i],
                             SqlWrite(sc, stmt.columns, stmt.body.query.body.rows[i].cells, namedDefaults)))
            && OutputValues(sc, stmt.returning, namedAfter)
                == Returned(c, insert.resource, insert.returning, check, after)
            && EndToEnd.ColumnNames(stmt.returning) == EmittedColumns(insert.returning, 0) + [CHECK_COLUMN]
  {
    var r, first := insert.resource, insert.rows[0];
    var (rows, st1) := EmitRows(em, first, insert.rows, st).value;
    var (returning, st2) := EmitReturning(em, insert.returning, Some(check), st1).value;
    RowsGrow(em, first, insert.rows, st);
    ReturningGrows(em, insert.returning, Some(check), st1);
    WithinTransitive(st1.serverParameters, st2.serverParameters, c.params);
    RowsMeaning(em, r, first, insert.rows, st, c, sc, defaults, namedDefaults);
    ReturningMeaning(em, r, insert.returning, check, st1, c, sc, after, namedAfter);
    ReturningNames(em, insert.returning, check, st1);
  }

  /**
    * Emission of a delete: the emitted WHERE selects the rows the bound delete removes, and RETURNING
    * gives the projected cells of a removed row.
    */
  lemma DeleteEmission(em: Emitter, d: BoundDelete, st: EmitState, c: Ctx, sc: SqlCtx, row: Row, named: NamedEnv)
    requires Agree(em, c, sc) && Good(st) && NamedEnvOf(em, One(d.resource, row), named)
    requires EmitDelete(em, d, st).Ok?
    requires Within(EmitDelete(em, d, st).value.1.serverParameters, c.params)
    ensures var stmt := EmitDelete(em, d, st).value.0;
            && stmt.DeleteStatement? && Unadorned(stmt) && d.resource in em.catalog
            && stmt.table == em.catalog[d.resource].source
            && SqlSatisfies(sc, stmt.filter, named) == Deletes(c, d, row)
            && OutputValues(sc, stmt.returning, named) == PhysicalRow(c, d.returning, One(d.resource, row))
            && EndToEnd.ColumnNames(stmt.returning) == EmittedColumns(d.returning, 0)
  {
    var (filter, st1) := EmitOption(em, d.filter, st).value;
    var (returning, st2) := EmitProjections(em, d.returning, 0, st1).value;
    OptionGrows(em, d.filter, st);
    ProjectionsGrow(em, d.returning, 0, st1);
    WithinTransitive(st1.serverParameters, st2.serverParameters, c.params);
    FilterMeaning(em, d.filter, st, c, sc, One(d.resource, row), named);
    OutputsMeaning(em, d.returning, 0, st1, c, sc, One(d.resource, row), named);
    EmittedLayout(em, d.returning, 0, st1);
  }
}
