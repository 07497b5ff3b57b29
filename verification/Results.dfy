/**
  * The physical result of a statement and the public result read from it: visibility and check
  * companion columns are laid out by the emitter and stripped, in place, by the adapter.
  */
module Results {
  import opened Core
  import opened Ir
  import opened Semantics
  import opened Text

  const VISIBILITY_COLUMN_PREFIX := SERVER_PARAMETER_PREFIX + "visibility_"
  const CHECK_COLUMN := SERVER_PARAMETER_PREFIX + "check"

  /** What a public value must satisfy; `contract` stands for its format and catalog constraints. */
  datatype ValueRule = ValueRule(
    nullable: bool, logicalType: LogicalType, possibleTypes: seq<LogicalType>, contract: LogicalValue -> bool)

  datatype ResultColumn = ResultColumn(
    name: string, visibility: Option<string>, redactedOnNull: bool, rule: ValueRule)

  datatype Plan = Plan(
    result: seq<ResultColumn>,
    maxRows: nat,
    maxBytesPerValue: nat,
    expectedAffectedRows: Option<nat>,
    expectedResultRows: Option<nat>,
    checkColumn: Option<string>)

  datatype AdapterError = LimitExceeded | ExpectationFailed | InvalidResult | Rejected

  datatype ResultValue = ResultValue(
    columns: seq<string>, rows: seq<seq<LogicalValue>>, redactions: seq<seq<bool>>, affectedRows: nat)

  // ----- The emitted layout -----

  function VisibilityName(index: nat): string {
    VISIBILITY_COLUMN_PREFIX + Decimal(index)
  }

  /** The select list the emitter writes for a projection list, from position `index` on. */
  function EmittedColumns(projections: seq<BoundProjection>, index: nat): seq<string> {
    if projections == [] then []
    else
      [projections[0].outputName]
      + (if projections[0].expression.ConditionalOutput? then [VisibilityName(index)] else [])
      + EmittedColumns(projections[1..], index + 1)
  }

  /** The cells one row environment yields for that select list. */
  function PhysicalRow(c: Ctx, projections: seq<BoundProjection>, env: Env): seq<LogicalValue> {
    if projections == [] then []
    else
      PhysicalCells(c, projections[0].expression, env) + PhysicalRow(c, projections[1..], env)
  }

  /** A projection's value, followed by its visibility flag if it is a conditional output. */
  function PhysicalCells(c: Ctx, e: BoundExpr, env: Env): seq<LogicalValue> {
    if e.ConditionalOutput? then [Eval(c, e, env), Boolean(IsTrue(c, e.visibleIf, env))] else [Eval(c, e, env)]
  }

  /** The descriptors of a projection list, given the value rule of each column. */
  function Describe(projections: seq<BoundProjection>, rules: seq<ValueRule>, index: nat): (ds: seq<ResultColumn>)
    requires |rules| == |projections|
    ensures |ds| == |projections|
  {
    if projections == [] then []
    else
      var conditional := projections[0].expression.ConditionalOutput?;
      [ResultColumn(projections[0].outputName, if conditional then Some(VisibilityName(index)) else None,
                    conditional, rules[0])]
      + Describe(projections[1..], rules[1..], index + 1)
  }

  // ----- The adapter's reading -----

  function PhysicalColumns(ds: seq<ResultColumn>): seq<string> {
    if ds == [] then []
    else
      [ds[0].name] + (match ds[0].visibility case Some(name) => [name] case None => []) + PhysicalColumns(ds[1..])
  }

  /** Public cells and redaction flags written back as a physical row. */
  function Layout(ds: seq<ResultColumn>, values: seq<LogicalValue>, flags: seq<bool>): seq<LogicalValue>
    requires |values| == |ds| && |flags| == |ds|
  {
    if ds == [] then []
    else
      [values[0]] + (if ds[0].visibility.Some? then [Boolean(!flags[0])] else [])
      + Layout(ds[1..], values[1..], flags[1..])
  }

  /** Only a column with a visibility companion is ever redacted, and then its cell is NULL. */
  predicate FlagsFit(ds: seq<ResultColumn>, values: seq<LogicalValue>, flags: seq<bool>) {
    && |values| == |ds| && |flags| == |ds|
    && forall i | 0 <= i < |ds| :: flags[i] ==> ds[i].visibility.Some? && values[i] == Null
  }

  type PublicRow = Result<(seq<LogicalValue>, seq<bool>), AdapterError>

  function StripRow(ds: seq<ResultColumn>, row: seq<LogicalValue>): PublicRow {
    if ds == [] then (if row == [] then Ok(([], [])) else Err(InvalidResult))
    else if row == [] then Err(InvalidResult)
    else if ds[0].visibility.None? then
      var (values, flags) :- StripRow(ds[1..], row[1..]);
      Ok(([row[0]] + values, [false] + flags))
    else if |row| < 2 || !row[1].Boolean? || (!row[1].truth && row[0] != Null) then Err(InvalidResult)
    else
      var (values, flags) :- StripRow(ds[1..], row[2..]);
      Ok(([row[0]] + values, [!row[1].truth] + flags))
  }

  lemma {:induction false} StripLayout(ds: seq<ResultColumn>, values: seq<LogicalValue>, flags: seq<bool>)
    requires FlagsFit(ds, values, flags)
    ensures StripRow(ds, Layout(ds, values, flags)) == Ok((values, flags))
  {
    if ds != [] {
      var row := Layout(ds, values, flags);
      var width := if ds[0].visibility.Some? then 2 else 1;
      forall i | 0 <= i < |ds[1..]|
        ensures flags[1..][i] ==> ds[1..][i].visibility.Some? && values[1..][i] == Null
      {
        assert flags[1..][i] == flags[i + 1] && ds[1..][i] == ds[i + 1] && values[1..][i] == values[i + 1];
      }
      StripLayout(ds[1..], values[1..], flags[1..]);
      assert row[width..] == Layout(ds[1..], values[1..], flags[1..]);
      assert values == [values[0]] + values[1..] && flags == [flags[0]] + flags[1..];
    }
  }

  lemma {:induction false} LayoutStrip(ds: seq<ResultColumn>, row: seq<LogicalValue>)
    requires StripRow(ds, row).Ok?
    ensures var (values, flags) := StripRow(ds, row).value;
            FlagsFit(ds, values, flags) && row == Layout(ds, values, flags)
  {
    if ds != [] {
      var (values, flags) := StripRow(ds, row).value;
      var width := if ds[0].visibility.Some? then 2 else 1;
      LayoutStrip(ds[1..], row[width..]);
      var (values', flags') := StripRow(ds[1..], row[width..]).value;
      assert values == [row[0]] + values' && flags == [flags[0]] + flags';
      assert values[1..] == values' && flags[1..] == flags';
      forall i | 0 <= i < |ds|
        ensures flags[i] ==> ds[i].visibility.Some? && values[i] == Null
      {
        if i > 0 {
          assert flags[i] == flags'[i - 1] && ds[i] == ds[1..][i - 1] && values[i] == values'[i - 1];
        }
      }
      assert row == row[..width] + row[width..];
    }
  }

  /** Stripping is exactly the inverse of the layout: it accepts the laid-out rows and no others. */
  lemma StripIsInverse(ds: seq<ResultColumn>, row: seq<LogicalValue>, values: seq<LogicalValue>, flags: seq<bool>)
    ensures StripRow(ds, row) == Ok((values, flags)) <==>
            FlagsFit(ds, values, flags) && row == Layout(ds, values, flags)
  {
    if StripRow(ds, row).Ok? {
      LayoutStrip(ds, row);
    }
    if FlagsFit(ds, values, flags) {
      StripLayout(ds, values, flags);
    }
  }

  /** The emitted select list is what the adapter expects to read. */
  lemma {:induction false} EmittedColumnsArePhysical(
      projections: seq<BoundProjection>, rules: seq<ValueRule>, index: nat)
    requires |rules| == |projections|
    ensures EmittedColumns(projections, index) == PhysicalColumns(Describe(projections, rules, index))
  {
    if projections != [] {
      EmittedColumnsArePhysical(projections[1..], rules[1..], index + 1);
    }
  }

  function PublicValues(c: Ctx, projections: seq<BoundProjection>, env: Env): (vs: seq<LogicalValue>)
    ensures |vs| == |projections|
  {
    seq(|projections|, i requires 0 <= i < |projections| => Eval(c, projections[i].expression, env))
  }

  function RedactionFlags(c: Ctx, projections: seq<BoundProjection>, env: Env): (flags: seq<bool>)
    ensures |flags| == |projections|
  {
    seq(|projections|, i requires 0 <= i < |projections| =>
      Redacted(c, projections[i].expression, env))
  }

  /**
    * Stripping the row the database computes gives the projected values, flagged redacted exactly
    * where a conditional output is not visible; a redacted cell is NULL.
    */
  lemma {:induction false} ResultRoundTrip(
    c: Ctx, projections: seq<BoundProjection>, rules: seq<ValueRule>, index: nat, env: Env)
    requires |rules| == |projections|
    ensures StripRow(Describe(projections, rules, index), PhysicalRow(c, projections, env))
         == Ok((PublicValues(c, projections, env), RedactionFlags(c, projections, env)))
    ensures forall i | 0 <= i < |projections| ::
              RedactionFlags(c, projections, env)[i] ==> PublicValues(c, projections, env)[i] == Null
  {
    if projections != [] {
      var rest := projections[1..];
      ResultRoundTrip(c, rest, rules[1..], index + 1, env);
      PublicCons(c, projections, env);
      var ds := Describe(projections, rules, index);
      assert ds[1..] == Describe(rest, rules[1..], index + 1);
      StripCells(ds, PhysicalCells(c, projections[0].expression, env), PhysicalRow(c, rest, env),
                 PublicValues(c, rest, env), RedactionFlags(c, rest, env));
      RedactedCell(c, projections[0].expression, env);
    }
  }

  /** A cell is redacted when it is a conditional output that is not visible. */
  predicate Redacted(c: Ctx, e: BoundExpr, env: Env) {
    e.ConditionalOutput? && !IsTrue(c, e.visibleIf, env)
  }

  lemma RedactedCell(c: Ctx, e: BoundExpr, env: Env)
    ensures Redacted(c, e, env) ==> Eval(c, e, env) == Null
  {
  }

  lemma PublicCons(c: Ctx, projections: seq<BoundProjection>, env: Env)
    requires projections != []
    ensures PublicValues(c, projections, env) ==
            [Eval(c, projections[0].expression, env)] + PublicValues(c, projections[1..], env)
    ensures RedactionFlags(c, projections, env) ==
            [Redacted(c, projections[0].expression, env)] + RedactionFlags(c, projections[1..], env)
  {
  }

  /** Stripping the cells of the first column leaves the rest of the row to the other columns. */
  lemma StripCells(
      ds: seq<ResultColumn>, cells: seq<LogicalValue>, row: seq<LogicalValue>, values: seq<LogicalValue>,
      flags: seq<bool>)
    requires ds != [] && StripRow(ds[1..], row) == Ok((values, flags))
    requires if ds[0].visibility.None? then |cells| == 1
             else |cells| == 2 && cells[1].Boolean? && (!cells[1].truth ==> cells[0] == Null)
    ensures StripRow(ds, cells + row) == Ok(([cells[0]] + values, [|cells| == 2 && !cells[1].truth] + flags))
  {
    assert (cells + row)[|cells|..] == row;
  }

  // ----- Validation of public values -----

  function ValueSize(v: LogicalValue): nat {
    match v
    case Null => 0
    case String(text) => |Utf8Bytes(text)|
    case Json(text) => |Utf8Bytes(text)|
    case Boolean(_) => 1
    case Int64(_) => 8
    case Number(_) => 8
    case Bytes(bytes) => |bytes|
  }

  predicate TypeMatches(v: LogicalValue, t: LogicalType) {
    match v
    case String(_) => t == StringType || t == DateType || t == DateTimeType || t == InstantType
    case Boolean(_) => t == BooleanType
    case Int64(_) => t == IntegerType || t == Int64Type
    case Number(number) => t == NumberType && number.Finite?
    case Bytes(_) => t == BytesType
    case Json(_) => t == JsonType
    case Null => false
  }

  function ValidateValue(v: LogicalValue, rule: ValueRule, maxBytes: nat): Result<(), AdapterError> {
    if v.Bytes? && |v.bytes| > maxBytes then Err(LimitExceeded)
    else if v.Null? then (if rule.nullable then Ok(()) else Err(InvalidResult))
    else if !(exists t | t in rule.possibleTypes :: TypeMatches(v, t)) then Err(InvalidResult)
    else if rule.logicalType == IntegerType && v.Int64? && !(-MAX_SAFE_INTEGER <= v.integer <= MAX_SAFE_INTEGER) then
      Err(InvalidResult)
    else if !rule.contract(v) then Err(InvalidResult)
    else Ok(())
  }

  /** Checks one row's cells, adding their sizes to the running total. */
  function CheckCells(
      plan: Plan, ds: seq<ResultColumn>, row: seq<LogicalValue>, bytes: nat, maxBytes: nat): Result<nat, AdapterError>
    requires |row| == |ds|
  {
    if ds == [] then Ok(bytes)
    else
      var _ :- ValidateValue(row[0], ds[0].rule, plan.maxBytesPerValue);
      var total := bytes + ValueSize(row[0]);
      if total > maxBytes then Err(LimitExceeded)
      else CheckCells(plan, ds[1..], row[1..], total, maxBytes)
  }

  predicate FlagsAllowed(ds: seq<ResultColumn>, flags: seq<bool>) {
    |flags| == |ds| && forall i | 0 <= i < |ds| :: flags[i] ==> ds[i].redactedOnNull
  }

  function CheckRows(
      plan: Plan, rows: seq<(seq<LogicalValue>, seq<bool>)>, bytes: nat, maxBytes: nat): Result<nat, AdapterError> {
    if rows == [] then Ok(bytes)
    else if |rows[0].0| != |plan.result| then Err(InvalidResult)
    else
      var total :- CheckCells(plan, plan.result, rows[0].0, bytes, maxBytes);
      if !FlagsAllowed(plan.result, rows[0].1) then Err(InvalidResult)
      else CheckRows(plan, rows[1..], total, maxBytes)
  }

  function StripRows(
      ds: seq<ResultColumn>, rows: seq<seq<LogicalValue>>): Result<seq<(seq<LogicalValue>, seq<bool>)>, AdapterError> {
    if rows == [] then Ok([])
    else
      var first :- StripRow(ds, rows[0]);
      var rest :- StripRows(ds, rows[1..]);
      Ok([first] + rest)
  }

  function PublicCells(rows: seq<(seq<LogicalValue>, seq<bool>)>): seq<seq<LogicalValue>> {
    seq(|rows|, i requires 0 <= i < |rows| => rows[i].0)
  }

  function PublicFlags(rows: seq<(seq<LogicalValue>, seq<bool>)>): seq<seq<bool>> {
    seq(|rows|, i requires 0 <= i < |rows| => rows[i].1)
  }

  function Names(ds: seq<ResultColumn>): seq<string> {
    seq(|ds|, i requires 0 <= i < |ds| => ds[i].name)
  }

  /** The public result of a physical one, or why it is refused. */
  function AcceptPublic(plan: Plan, v: ResultValue, maxBytes: nat): Result<ResultValue, AdapterError> {
    if v.redactions != [] then Err(InvalidResult)
    else if v.columns != PhysicalColumns(plan.result) then Err(InvalidResult)
    else
      var rows :- StripRows(plan.result, v.rows);
      if |rows| > plan.maxRows then Err(LimitExceeded)
      else
        var _ :- CheckRows(plan, rows, 0, maxBytes);
        if plan.expectedResultRows.Some? && plan.expectedResultRows.value != |rows| then Err(ExpectationFailed)
        else Ok(ResultValue(Names(plan.result), PublicCells(rows), PublicFlags(rows), v.affectedRows))
  }

  predicate CheckPassed(row: seq<LogicalValue>) {
    row != [] && row[|row| - 1] == Boolean(true)
  }

  function AllButLast(row: seq<LogicalValue>): seq<LogicalValue> {
    if row == [] then [] else row[..|row| - 1]
  }

  function WithoutCheck(rows: seq<seq<LogicalValue>>): seq<seq<LogicalValue>> {
    seq(|rows|, i requires 0 <= i < |rows| => AllButLast(rows[i]))
  }

  /** The result of a mutation: every returned row carries a passed check, one row per affected row. */
  function AcceptMutation(plan: Plan, v: ResultValue, maxBytes: nat): Result<ResultValue, AdapterError> {
    if v.redactions != [] then Err(InvalidResult)
    else if plan.expectedAffectedRows.Some? && plan.expectedAffectedRows.value != v.affectedRows then
      Err(ExpectationFailed)
    else
      var physical := PhysicalColumns(plan.result);
      match plan.checkColumn
      case Some(check) =>
        if v.columns != physical + [check] || |v.rows| != v.affectedRows then Err(InvalidResult)
        else if exists row | row in v.rows :: !CheckPassed(row) then Err(Rejected)
        else AcceptPublic(plan,
            v.(columns := physical, rows := if plan.result == [] then [] else WithoutCheck(v.rows)), maxBytes)
      case None =>
        if v.columns != physical || (plan.result != [] && |v.rows| != v.affectedRows) then Err(InvalidResult)
        else AcceptPublic(plan, v, maxBytes)
  }

  // ----- The in-place adapter -----

  /** A remote result, rewritten in place while it is validated. */
  class ExecuteResult {
    var columns: seq<string>
    var rows: seq<seq<LogicalValue>>
    var redactions: seq<seq<bool>>
    var affectedRows: nat

    constructor (v: ResultValue)
      ensures Value() == v
    {
      columns, rows, redactions, affectedRows := v.columns, v.rows, v.redactions, v.affectedRows;
    }

    function Value(): ResultValue
      reads this
    {
      ResultValue(columns, rows, redactions, affectedRows)
    }

    /** Replaces physical rows by public rows and redaction flags; on failure nothing changes. */
    method StripVisibilityColumns(plan: Plan) returns (r: Result<(), AdapterError>)
      modifies this
      ensures r.Ok? <==> old(columns) == PhysicalColumns(plan.result) && StripRows(plan.result, old(rows)).Ok?
      ensures r.Err? ==> r.error == InvalidResult && Value() == old(Value())
      ensures r.Ok? ==>
                var public := StripRows(plan.result, old(rows)).value;
                Value() == ResultValue(Names(plan.result), PublicCells(public), PublicFlags(public), old(affectedRows))
    {
      StripRowsError(plan.result, rows);
      if columns != PhysicalColumns(plan.result) {
        return Err(InvalidResult);
      }
      var publicRows, flags := [], [];
      ghost var done := [];
      assert rows[0..] == rows;
      assert StripRows(plan.result, rows)
             == After([], StripRows(plan.result, rows[0..])) by { AfterNothing(StripRows(plan.result, rows)); }
      for i := 0 to |rows|
        invariant Value() == old(Value())
        invariant StripRows(plan.result, rows) == After(done, StripRows(plan.result, rows[i..]))
        invariant publicRows == PublicCells(done) && flags == PublicFlags(done)
      {
        assert rows[i..][1..] == rows[i + 1..];
        var stripped := StripPosition(plan.result, rows[i]);
        if stripped.Err? {
          return Err(InvalidResult);
        }
        publicRows, flags := publicRows + [stripped.value.0], flags + [stripped.value.1];
        done := done + [stripped.value];
        if StripRows(plan.result, rows[i + 1..]).Ok? {
          assert done[..|done| - 1] + ([stripped.value] + StripRows(plan.result, rows[i + 1..]).value)
              == done + StripRows(plan.result, rows[i + 1..]).value;
        }
      }
      assert done + [] == done;
      columns := Names(plan.result);
      rows := publicRows;
      redactions := flags;
      r := Ok(());
    }

    /** Validates the public result; success leaves exactly the accepted value. */
    method ValidatePublicResult(plan: Plan, maxBytes: nat) returns (r: Result<(), AdapterError>)
      modifies this
      ensures r.Ok? <==> AcceptPublic(plan, old(Value()), maxBytes).Ok?
      ensures r.Ok? ==> Value() == AcceptPublic(plan, old(Value()), maxBytes).value
      ensures r.Err? ==> r.error == AcceptPublic(plan, old(Value()), maxBytes).error
    {
      if redactions != [] {
        return Err(InvalidResult);
      }
      StripRowsError(plan.result, rows);
      ghost var public := StripRows(plan.result, rows);
      var stripped := StripVisibilityColumns(plan);
      if stripped.Err? {
        return Err(stripped.error);
      }
      if |rows| > plan.maxRows {
        return Err(LimitExceeded);
      }
      var bytes: nat := 0;
      assert public.value[0..] == public.value;
      for i := 0 to |rows|
        invariant Value() == ResultValue(Names(plan.result), PublicCells(public.value), PublicFlags(public.value),
                  old(affectedRows))
        invariant CheckRows(plan, public.value, 0, maxBytes) == CheckRows(plan, public.value[i..], bytes, maxBytes)
      {
        assert public.value[i..][1..] == public.value[i + 1..];
        if |rows[i]| != |plan.result| {
          return Err(InvalidResult);
        }
        ghost var before: nat := bytes;
        for k := 0 to |plan.result|
          invariant CheckCells(plan, plan.result, rows[i], before, maxBytes)
                 == CheckCells(plan, plan.result[k..], rows[i][k..], bytes, maxBytes)
        {
          assert plan.result[k..][1..] == plan.result[k + 1..] && rows[i][k..][1..] == rows[i][k + 1..];
          var valid := ValidateValue(rows[i][k], plan.result[k].rule, plan.maxBytesPerValue);
          if valid.Err? {
            return Err(valid.error);
          }
          bytes := bytes + ValueSize(rows[i][k]);
          if bytes > maxBytes {
            return Err(LimitExceeded);
          }
        }
        if !FlagsAllowed(plan.result, redactions[i]) {
          return Err(InvalidResult);
        }
      }
      if plan.expectedResultRows.Some? && plan.expectedResultRows.value != |rows| {
        return Err(ExpectationFailed);
      }
      r := Ok(());
    }

    /** Takes the check off every row, up to one that does not pass. */
    method PopChecks() returns (passed: bool)
      modifies this`rows
      ensures passed <==> forall row | row in old(rows) :: CheckPassed(row)
      ensures passed ==> rows == WithoutCheck(old(rows))
    {
      for i := 0 to |rows|
        invariant |rows| == |old(rows)|
        invariant forall k | 0 <= k < i :: CheckPassed(old(rows)[k]) && rows[k] == AllButLast(old(rows)[k])
        invariant forall k | i <= k < |rows| :: rows[k] == old(rows)[k]
      {
        if rows[i] == [] || rows[i][|rows[i]| - 1] != Boolean(true) {
          assert !CheckPassed(old(rows)[i]) && old(rows)[i] in old(rows);
          return false;
        }
        rows := rows[i := AllButLast(rows[i])];
      }
      return true;
    }

    /** Validates a mutation's result: pops the check column, then validates what is public. */
    method ValidateMutationResult(plan: Plan, maxBytes: nat) returns (r: Result<(), AdapterError>)
      modifies this
      ensures r.Ok? <==> AcceptMutation(plan, old(Value()), maxBytes).Ok?
      ensures r.Ok? ==> Value() == AcceptMutation(plan, old(Value()), maxBytes).value
      ensures r.Err? ==> r.error == AcceptMutation(plan, old(Value()), maxBytes).error
    {
      if redactions != [] {
        return Err(InvalidResult);
      }
      if plan.expectedAffectedRows.Some? && affectedRows != plan.expectedAffectedRows.value {
        return Err(ExpectationFailed);
      }
      if plan.checkColumn.Some? {
        var expected := PhysicalColumns(plan.result) + [plan.checkColumn.value];
        if columns != expected || |rows| != affectedRows {
          return Err(InvalidResult);
        }
        var passed := PopChecks();
        if !passed {
          return Err(Rejected);
        }
        columns := columns[..|columns| - 1];
        assert columns == PhysicalColumns(plan.result);
        if plan.result == [] {
          rows := [];
        }
      } else {
        if columns != PhysicalColumns(plan.result) {
          return Err(InvalidResult);
        }
        if plan.result != [] && |rows| != affectedRows {
          return Err(InvalidResult);
        }
      }
      var affected := affectedRows;
      affectedRows := 0;
      r := ValidatePublicResult(plan, maxBytes);
      affectedRows := affected;
    }
  }

  type PublicRows = Result<seq<(seq<LogicalValue>, seq<bool>)>, AdapterError>

  lemma AfterNothing(rest: PublicRows)
    ensures After([], rest) == rest
  {
    if rest.Ok? {
      assert [] + rest.value == rest.value;
    }
  }

  function After(done: seq<(seq<LogicalValue>, seq<bool>)>, rest: PublicRows): PublicRows {
    match rest
    case Ok(rows) => Ok(done + rows)
    case Err(e) => Err(e)
  }

  lemma {:induction false} StripRowsError(ds: seq<ResultColumn>, rows: seq<seq<LogicalValue>>)
    ensures StripRows(ds, rows).Err? ==> StripRows(ds, rows).error == InvalidResult
    ensures StripRows(ds, rows).Ok? ==> |StripRows(ds, rows).value| == |rows|
  {
    if rows != [] {
      StripRowError(ds, rows[0]);
      StripRowsError(ds, rows[1..]);
    }
  }

  lemma {:induction false} StripRowError(ds: seq<ResultColumn>, row: seq<LogicalValue>)
    ensures StripRow(ds, row).Err? ==> StripRow(ds, row).error == InvalidResult
  {
    if ds != [] && row != [] {
      StripRowError(ds[1..], row[1..]);
      if |row| >= 2 {
        StripRowError(ds[1..], row[2..]);
      }
    }
  }

  function AfterCells(values: seq<LogicalValue>, flags: seq<bool>, rest: PublicRow): PublicRow {
    match rest
    case Ok((vs, fs)) => Ok((values + vs, flags + fs))
    case Err(e) => Err(e)
  }

  lemma AfterCellsAppend(
      values: seq<LogicalValue>, flags: seq<bool>, value: LogicalValue, redacted: bool, rest: PublicRow)
    ensures AfterCells(values, flags, AfterCells([value], [redacted], rest))
         == AfterCells(values + [value], flags + [redacted], rest)
  {
    if rest.Ok? {
      assert values + ([value] + rest.value.0) == (values + [value]) + rest.value.0;
      assert flags + ([redacted] + rest.value.1) == (flags + [redacted]) + rest.value.1;
    }
  }

  /** One row, walked with a position counter. */
  method StripPosition(ds: seq<ResultColumn>, row: seq<LogicalValue>) returns (r: PublicRow)
    ensures r == StripRow(ds, row)
  {
    StripRowError(ds, row);
    var position := 0;
    var values, flags := [], [];
    assert ds[0..] == ds && row[0..] == row;
    if StripRow(ds, row).Ok? {
      assert [] + StripRow(ds, row).value.0 == StripRow(ds, row).value.0;
      assert [] + StripRow(ds, row).value.1 == StripRow(ds, row).value.1;
    }
    for i := 0 to |ds|
      invariant 0 <= position <= |row|
      invariant StripRow(ds, row) == AfterCells(values, flags, StripRow(ds[i..], row[position..]))
    {
      var ds', row' := ds[i..], row[position..];
      assert ds'[1..] == ds[i + 1..];
      if position >= |row| {
        return Err(InvalidResult);
      }
      var value, redacted := row[position], false;
      var width := 1;
      if ds[i].visibility.Some? {
        if position + 1 >= |row| || !row[position + 1].Boolean? {
          return Err(InvalidResult);
        }
        var visible := row[position + 1].truth;
        if !visible && value != Null {
          return Err(InvalidResult);
        }
        redacted, width := !visible, 2;
      }
      assert row'[width..] == row[position + width..];
      ghost var rest := StripRow(ds'[1..], row'[width..]);
      assert StripRow(ds', row') == AfterCells([value], [redacted], rest);
      AfterCellsAppend(values, flags, value, redacted, rest);
      position := position + width;
      values, flags := values + [value], flags + [redacted];
    }
    assert ds[|ds|..] == [];
    assert values + [] == values && flags + [] == flags;
    if position != |row| {
      return Err(InvalidResult);
    }
    r := Ok((values, flags));
  }
}
