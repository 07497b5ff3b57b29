/** Exactly which physical results the adapter accepts, and what the caller is then given. */
module PublicResults {
  import opened Core
  import opened Ir
  import opened Semantics
  import opened Text
  import opened Results

  // ----- Values -----

  /** The values of each logical type. */
  predicate Inhabits(v: LogicalValue, t: LogicalType) {
    match t
    case StringType => v.String?
    case DateType => v.String?
    case DateTimeType => v.String?
    case InstantType => v.String?
    case BooleanType => v.Boolean?
    case IntegerType => v.Int64?
    case Int64Type => v.Int64?
    case NumberType => v.Number? && v.number.Finite?
    case BytesType => v.Bytes?
    case JsonType => v.Json?
  }

  /** NULL where the column is nullable; otherwise a value of a possible type that meets the contract. */
  predicate ValueAllowed(v: LogicalValue, rule: ValueRule, maxBytes: nat) {
    if v.Null? then rule.nullable
    else
      && (exists t <- rule.possibleTypes :: Inhabits(v, t)) && rule.contract(v)
      && (v.Bytes? ==> |v.bytes| <= maxBytes)
      && (v.Int64? && rule.logicalType == IntegerType ==> -MAX_SAFE_INTEGER <= v.integer <= MAX_SAFE_INTEGER)
  }

  lemma ValueExact(v: LogicalValue, rule: ValueRule, maxBytes: nat)
    ensures ValidateValue(v, rule, maxBytes).Ok? <==> ValueAllowed(v, rule, maxBytes)
  {
    forall t
      ensures TypeMatches(v, t) <==> Inhabits(v, t)
    {
    }
  }

  // ----- Sizes -----

  /** Text by its UTF-8 bytes, numbers by eight bytes, a truth value by one, NULL by none. */
  function Size(v: LogicalValue): nat {
    if v.String? then |Utf8Bytes(v.text)|
    else if v.Json? then |Utf8Bytes(v.document)|
    else if v.Bytes? then |v.bytes|
    else if v.Int64? || v.Number? then 8
    else if v.Boolean? then 1
    else 0
  }

  function RowSize(row: seq<LogicalValue>): nat {
    if row == [] then 0 else Size(row[0]) + RowSize(row[1..])
  }

  function TotalSize(rows: seq<seq<LogicalValue>>): nat {
    if rows == [] then 0 else RowSize(rows[0]) + TotalSize(rows[1..])
  }

  lemma SizeExact(v: LogicalValue)
    ensures ValueSize(v) == Size(v)
  {
  }

  // ----- Rows -----

  predicate RowAllowed(plan: Plan, ds: seq<ResultColumn>, row: seq<LogicalValue>) {
    |row| == |ds| && forall k | 0 <= k < |ds| :: ValueAllowed(row[k], ds[k].rule, plan.maxBytesPerValue)
  }

  lemma RowAllowedCons(plan: Plan, ds: seq<ResultColumn>, row: seq<LogicalValue>)
    requires |row| == |ds| && ds != []
    ensures RowAllowed(plan, ds, row)
       <==> ValueAllowed(row[0], ds[0].rule, plan.maxBytesPerValue) && RowAllowed(plan, ds[1..], row[1..])
  {
    if RowAllowed(plan, ds[1..], row[1..]) && ValueAllowed(row[0], ds[0].rule, plan.maxBytesPerValue) {
      forall k | 0 < k < |ds|
        ensures ValueAllowed(row[k], ds[k].rule, plan.maxBytesPerValue)
      {
        assert row[k] == row[1..][k - 1] && ds[k] == ds[1..][k - 1];
      }
    }
  }

  lemma {:induction false} CellsExact(
    plan: Plan, ds: seq<ResultColumn>, row: seq<LogicalValue>, bytes: nat, maxBytes: nat)
    requires |row| == |ds| && bytes <= maxBytes
    ensures CheckCells(plan, ds, row, bytes, maxBytes).Ok?
       <==> RowAllowed(plan, ds, row) && bytes + RowSize(row) <= maxBytes
    ensures CheckCells(plan, ds, row, bytes, maxBytes).Ok? ==>
              CheckCells(plan, ds, row, bytes, maxBytes).value == bytes + RowSize(row)
  {
    if ds != [] {
      ValueExact(row[0], ds[0].rule, plan.maxBytesPerValue);
      SizeExact(row[0]);
      RowAllowedCons(plan, ds, row);
      if bytes + Size(row[0]) <= maxBytes {
        CellsExact(plan, ds[1..], row[1..], bytes + Size(row[0]), maxBytes);
      }
    }
  }

  type Stripped = (seq<LogicalValue>, seq<bool>)

  predicate StrippedAllowed(plan: Plan, row: Stripped) {
    RowAllowed(plan, plan.result, row.0) && FlagsAllowed(plan.result, row.1)
  }

  lemma TotalCons(rows: seq<Stripped>)
    requires rows != []
    ensures TotalSize(PublicCells(rows)) == RowSize(rows[0].0) + TotalSize(PublicCells(rows[1..]))
  {
    assert PublicCells(rows)[0] == rows[0].0 && PublicCells(rows)[1..] == PublicCells(rows[1..]);
  }

  lemma {:induction false} RowsExact(plan: Plan, rows: seq<Stripped>, bytes: nat, maxBytes: nat)
    requires bytes <= maxBytes
    ensures CheckRows(plan, rows, bytes, maxBytes).Ok?
       <==> (forall row <- rows :: StrippedAllowed(plan, row)) && bytes + TotalSize(PublicCells(rows)) <= maxBytes
  {
    if rows != [] {
      assert rows[0] in rows && rows == [rows[0]] + rows[1..];
      TotalCons(rows);
      if |rows[0].0| == |plan.result| {
        CellsExact(plan, plan.result, rows[0].0, bytes, maxBytes);
        if bytes + RowSize(rows[0].0) <= maxBytes {
          RowsExact(plan, rows[1..], bytes + RowSize(rows[0].0), maxBytes);
        }
      }
    }
  }

  // ----- The public result -----

  /** Row by row, the physical result is the layout of the public one. */
  predicate LaidOut(ds: seq<ResultColumn>, physical: seq<seq<LogicalValue>>, public: ResultValue) {
    && |physical| == |public.rows| == |public.redactions|
    && forall i | 0 <= i < |physical| ::
         FlagsFit(ds, public.rows[i], public.redactions[i])
         && physical[i] == Layout(ds, public.rows[i], public.redactions[i])
  }

  lemma {:induction false} StripRowsExact(ds: seq<ResultColumn>, physical: seq<seq<LogicalValue>>, rows: seq<Stripped>)
    ensures StripRows(ds, physical) == Ok(rows)
       <==> |rows| == |physical| && forall i | 0 <= i < |rows| :: StripRow(ds, physical[i]) == Ok(rows[i])
  {
    if physical != [] {
      if rows != [] {
        StripRowsExact(ds, physical[1..], rows[1..]);
        assert rows == [rows[0]] + rows[1..];
        StripFirst(ds, physical, rows);
      } else {
        StripRowsError(ds, physical);
      }
    }
  }

  lemma StripFirst(ds: seq<ResultColumn>, physical: seq<seq<LogicalValue>>, rows: seq<Stripped>)
    requires physical != [] && rows != []
    ensures (|rows| == |physical| && forall i | 0 <= i < |rows| :: StripRow(ds, physical[i]) == Ok(rows[i]))
       <==> (&& StripRow(ds, physical[0]) == Ok(rows[0]) && |rows[1..]| == |physical[1..]|
             && forall i | 0 <= i < |rows[1..]| :: StripRow(ds, physical[1..][i]) == Ok(rows[1..][i]))
  {
    if |rows| == |physical| && StripRow(ds, physical[0]) == Ok(rows[0])
       && forall i | 0 <= i < |rows[1..]| :: StripRow(ds, physical[1..][i]) == Ok(rows[1..][i]) {
      forall i | 0 < i < |rows|
        ensures StripRow(ds, physical[i]) == Ok(rows[i])
      {
        assert StripRow(ds, physical[1..][i - 1]) == Ok(rows[1..][i - 1]);
      }
    }
    if |rows| == |physical| && forall i | 0 <= i < |rows| :: StripRow(ds, physical[i]) == Ok(rows[i]) {
      forall i | 0 <= i < |rows[1..]|
        ensures StripRow(ds, physical[1..][i]) == Ok(rows[1..][i])
      {
        assert StripRow(ds, physical[i + 1]) == Ok(rows[i + 1]);
      }
    }
  }

  /**
    * What a caller is given: the plan's column names; at most the plan's number of rows; cells of
    * their column's type and contract, a redacted one in a column that may be; and no more bytes
    * than allowed.
    */
  predicate PublicFor(plan: Plan, public: ResultValue, maxBytes: nat) {
    && public.columns == Names(plan.result)
    && |public.redactions| == |public.rows| <= plan.maxRows
    && (forall row <- public.rows :: RowAllowed(plan, plan.result, row))
    && (forall flags <- public.redactions :: FlagsAllowed(plan.result, flags))
    && TotalSize(public.rows) <= maxBytes
    && (plan.expectedResultRows.Some? ==> |public.rows| == plan.expectedResultRows.value)
  }

  /** Wherever a described result can be redacted, the caller may be given a redaction. */
  lemma {:induction false} DescribedRedactions(
    projections: seq<BoundProjection>, rules: seq<ValueRule>, index: nat, values: seq<LogicalValue>, flags: seq<bool>)
    requires |rules| == |projections| && FlagsFit(Describe(projections, rules, index), values, flags)
    ensures FlagsAllowed(Describe(projections, rules, index), flags)
  {
    if projections != [] {
      var ds := Describe(projections, rules, index);
      assert ds[1..] == Describe(projections[1..], rules[1..], index + 1);
      forall i | 0 <= i < |ds[1..]|
        ensures flags[1..][i] ==> ds[1..][i].visibility.Some? && values[1..][i] == Null
      {
        assert flags[1..][i] == flags[i + 1] && ds[1..][i] == ds[i + 1] && values[1..][i] == values[i + 1];
      }
      DescribedRedactions(projections[1..], rules[1..], index + 1, values[1..], flags[1..]);
      forall i | 0 <= i < |ds|
        ensures flags[i] ==> ds[i].redactedOnNull
      {
        if i > 0 {
          assert flags[i] == flags[1..][i - 1] && ds[i] == ds[1..][i - 1];
        }
      }
    }
  }

  function Zip(cells: seq<seq<LogicalValue>>, flags: seq<seq<bool>>): (rows: seq<Stripped>)
    requires |cells| == |flags|
    ensures PublicCells(rows) == cells && PublicFlags(rows) == flags
  {
    seq(|cells|, i requires 0 <= i < |cells| => (cells[i], flags[i]))
  }

  lemma ZipAllowed(plan: Plan, cells: seq<seq<LogicalValue>>, flags: seq<seq<bool>>)
    requires |cells| == |flags|
    ensures (forall row <- Zip(cells, flags) :: StrippedAllowed(plan, row))
       <==> (&& (forall row <- cells :: RowAllowed(plan, plan.result, row))
             && forall fs <- flags :: FlagsAllowed(plan.result, fs))
  {
    var rows := Zip(cells, flags);
    forall i | 0 <= i < |rows|
      ensures rows[i] in rows && cells[i] in cells && flags[i] in flags
    {
    }
    assert forall i | 0 <= i < |rows| :: rows[i] == (cells[i], flags[i]);
  }

  lemma ZipLaidOut(ds: seq<ResultColumn>, physical: seq<seq<LogicalValue>>, public: ResultValue)
    requires |public.rows| == |public.redactions|
    ensures StripRows(ds, physical) == Ok(Zip(public.rows, public.redactions)) <==> LaidOut(ds, physical, public)
  {
    var rows := Zip(public.rows, public.redactions);
    StripRowsExact(ds, physical, rows);
    forall i | 0 <= i < |rows| && |rows| == |physical|
      ensures StripRow(ds, physical[i]) == Ok(rows[i])
         <==> FlagsFit(ds, public.rows[i], public.redactions[i])
              && physical[i] == Layout(ds, public.rows[i], public.redactions[i])
    {
      StripIsInverse(ds, physical[i], public.rows[i], public.redactions[i]);
    }
  }

  /**
    * The adapter accepts a physical result, and gives the caller this public one, exactly when the
    * former is the latter laid out under the plan's columns and the latter is fit for the caller.
    */
  lemma PublicResultExact(plan: Plan, v: ResultValue, maxBytes: nat, public: ResultValue)
    ensures AcceptPublic(plan, v, maxBytes) == Ok(public)
       <==> (&& v.redactions == [] && v.columns == PhysicalColumns(plan.result)
             && public.affectedRows == v.affectedRows && LaidOut(plan.result, v.rows, public)
             && PublicFor(plan, public, maxBytes))
  {
    var stripped := StripRows(plan.result, v.rows);
    if |public.rows| == |public.redactions| {
      ZipLaidOut(plan.result, v.rows, public);
      ZipAllowed(plan, public.rows, public.redactions);
    }
    if stripped.Ok? {
      RowsExact(plan, stripped.value, 0, maxBytes);
      if |public.rows| == |public.redactions| && PublicCells(stripped.value) == public.rows
         && PublicFlags(stripped.value) == public.redactions {
        SameZip(stripped.value, public);
      }
    }
  }

  lemma SameZip(rows: seq<Stripped>, public: ResultValue)
    requires PublicCells(rows) == public.rows && PublicFlags(rows) == public.redactions
    requires |public.rows| == |public.redactions|
    ensures rows == Zip(public.rows, public.redactions)
  {
    forall i | 0 <= i < |rows|
      ensures rows[i] == (public.rows[i], public.redactions[i])
    {
      assert PublicCells(rows)[i] == rows[i].0 && PublicFlags(rows)[i] == rows[i].1;
    }
  }

  // ----- The public result of a mutation -----

  /** A returned row without its check. */
  predicate Checked(row: seq<LogicalValue>, front: seq<LogicalValue>) {
    row == front + [Boolean(true)]
  }

  /**
    * A mutation with a check is accepted exactly when the expected rows were affected, each of them
    * comes back with a TRUE check, and what stands before the checks is laid out as above; without
    * RETURNING the caller is given no rows.
    */
  lemma MutationResultExact(
    plan: Plan, v: ResultValue, maxBytes: nat, check: string, fronts: seq<seq<LogicalValue>>, public: ResultValue)
    requires plan.checkColumn == Some(check)
    requires |fronts| == |v.rows| && forall i | 0 <= i < |fronts| && v.rows[i] != [] ::
               fronts[i] == v.rows[i][..|v.rows[i]| - 1]
    ensures AcceptMutation(plan, v, maxBytes) == Ok(public)
       <==> (&& v.redactions == [] && v.columns == PhysicalColumns(plan.result) + [check]
             && (plan.expectedAffectedRows.Some? ==> v.affectedRows == plan.expectedAffectedRows.value)
             && |v.rows| == v.affectedRows == public.affectedRows
             && (forall i | 0 <= i < |fronts| :: Checked(v.rows[i], fronts[i]))
             && LaidOut(plan.result, if plan.result == [] then [] else fronts, public)
             && PublicFor(plan, public, maxBytes))
  {
    var physical := v.(columns := PhysicalColumns(plan.result), rows := if plan.result == [] then [] else fronts);
    PublicResultExact(plan, physical, maxBytes, public);
    FrontsChecked(v.rows, fronts);
  }

  lemma FrontsChecked(rows: seq<seq<LogicalValue>>, fronts: seq<seq<LogicalValue>>)
    requires |fronts| == |rows| && forall i | 0 <= i < |fronts| && rows[i] != [] ::
               fronts[i] == rows[i][..|rows[i]| - 1]
    ensures (!exists row :: row in rows && !CheckPassed(row))
       <==> forall i | 0 <= i < |fronts| :: Checked(rows[i], fronts[i])
    ensures (forall i | 0 <= i < |fronts| :: Checked(rows[i], fronts[i])) ==> WithoutCheck(rows) == fronts
  {
    forall i | 0 <= i < |rows|
      ensures CheckPassed(rows[i]) <==> Checked(rows[i], fronts[i])
    {
      if Checked(rows[i], fronts[i]) {
        assert rows[i][|rows[i]| - 1] == Boolean(true);
      }
    }
    if forall i | 0 <= i < |fronts| :: Checked(rows[i], fronts[i]) {
      forall i | 0 <= i < |rows|
        ensures rows[i] != [] && AllButLast(rows[i]) == fronts[i]
      {
        assert Checked(rows[i], fronts[i]);
      }
    }
  }
}
