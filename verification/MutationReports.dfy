/**
  * Exactly when the adapter accepts what the database reports for a compiled mutation, and with
  * that lets it commit: every written row passes the policy's check, and what the caller is given
  * is fit for the caller.
  */
module MutationReports {
  import opened Core
  import opened Ir
  import opened Semantics
  import opened Policy
  import opened View
  import opened Compile
  import opened Instantiation
  import opened Results
  import opened PublicResults
  import opened Mutation
  import opened MutationView

  /** The returned cells of each row. */
  function ReturnedCells(c: Ctx, r: ResourceId, returning: seq<BoundProjection>, rows: seq<Row>)
      : seq<seq<LogicalValue>> {
    seq(|rows|, i requires 0 <= i < |rows| => PhysicalRow(c, returning, One(r, rows[i])))
  }

  /** What the caller is given of the rows, none without RETURNING. */
  predicate Gives(
    c: Ctx, r: ResourceId, returning: seq<BoundProjection>, rows: seq<Row>, sealed: Plan, public: ResultValue,
    maxBytes: nat)
  {
    && public.affectedRows == |rows|
    && LaidOut(sealed.result, if sealed.result == [] then [] else ReturnedCells(c, r, returning, rows), public)
    && PublicFor(sealed, public, maxBytes)
  }

  /** The sealed plan describes the RETURNING list and takes over the compiler's expectations. */
  ghost predicate Seals<S>(
      sealed: Plan, plan: ProtectedPlan<S>, returning: seq<BoundProjection>, rules: seq<ValueRule>) {
    && |rules| == |returning| && sealed.result == Describe(returning, rules, 0)
    && sealed.expectedAffectedRows == plan.expectedAffectedRows
    && sealed.checkColumn == if plan.operationCheck.Some? then Some(CHECK_COLUMN) else None
  }

  lemma ReportExact(
    c: Ctx, r: ResourceId, returning: seq<BoundProjection>, check: BoundExpr, rows: seq<Row>,
    sealed: Plan, rules: seq<ValueRule>, maxBytes: nat, public: ResultValue)
    requires |rules| == |returning| && sealed.result == Describe(returning, rules, 0)
    requires sealed.checkColumn == Some(CHECK_COLUMN)
    ensures AcceptMutation(sealed, Report(c, r, returning, check, rows), maxBytes) == Ok(public)
       <==> (&& (sealed.expectedAffectedRows.Some? ==> |rows| == sealed.expectedAffectedRows.value)
             && (forall row | row in rows :: IsTrue(c, check, One(r, row)))
             && Gives(c, r, returning, rows, sealed, public, maxBytes))
  {
    var report, fronts := Report(c, r, returning, check, rows), ReturnedCells(c, r, returning, rows);
    EmittedColumnsArePhysical(returning, rules, 0);
    MutationResultExact(sealed, report, maxBytes, CHECK_COLUMN, fronts, public);
    forall i | 0 <= i < |rows|
      ensures Checked(report.rows[i], fronts[i]) <==> IsTrue(c, check, One(r, rows[i]))
    {
      var flag := Boolean(IsTrue(c, check, One(r, rows[i])));
      assert report.rows[i] == fronts[i] + [flag];
      LastCell(fronts[i], flag);
    }
    ChecksMeet(c, r, check, rows, report.rows, fronts);
  }

  lemma LastCell(front: seq<LogicalValue>, flag: LogicalValue)
    ensures Checked(front + [flag], front) <==> flag == Boolean(true)
  {
    if Checked(front + [flag], front) {
      assert (front + [flag])[|front|] == (front + [Boolean(true)])[|front|];
    }
  }

  lemma ChecksMeet(
    c: Ctx, r: ResourceId, check: BoundExpr, rows: seq<Row>, reported: seq<seq<LogicalValue>>,
    fronts: seq<seq<LogicalValue>>)
    requires |reported| == |fronts| == |rows|
    requires forall i | 0 <= i < |rows| :: Checked(reported[i], fronts[i]) <==> IsTrue(c, check, One(r, rows[i]))
    ensures (forall i | 0 <= i < |fronts| :: Checked(reported[i], fronts[i]))
       <==> forall row | row in rows :: IsTrue(c, check, One(r, row))
  {
    if forall row | row in rows :: IsTrue(c, check, One(r, row)) {
      forall i | 0 <= i < |fronts|
        ensures Checked(reported[i], fronts[i])
      {
        assert rows[i] in rows;
      }
    }
  }

  /** The compiled check is True of a row exactly when the policy's check is. */
  lemma ChecksExact(
    p: PolicyPredicate, r: ResourceId, session: TrustedSession, values: Bindings, c: Ctx, rows: seq<Row>)
    requires Owned(p, r) && SessionOnly(values, session) && Instantiate(p, session, values).Ok?
    requires Within(Instantiate(p, session, values).value.1, c.params)
    ensures (forall row | row in rows :: IsTrue(c, Instantiate(p, session, values).value.0, One(r, row)))
       <==> forall row | row in rows :: PredicateTruth(c.engine, p, row, session) == True
  {
    forall row
      ensures IsTrue(c, Instantiate(p, session, values).value.0, One(r, row))
         <==> PredicateTruth(c.engine, p, row, session) == True
    {
      InstantiateMeaning(p, r, session, values, c, One(r, row));
      assert RowOf(One(r, row), r) == row;
    }
  }

  /** An INSERT is accepted exactly when each of its rows meets the check and the caller may be given the result. */
  lemma InsertAcceptedWhen(
    bundle: PolicyBundle, insert: BoundInsert, session: TrustedSession, policy: InsertPolicy,
    plan: ProtectedPlan<BoundInsert>, c: Ctx, defaults: Row, sealed: Plan, rules: seq<ValueRule>, maxBytes: nat,
    public: ResultValue)
    requires RolePolicy(bundle.insert, insert.resource, session.role) == Ok(policy)
    requires Owned(policy.check, insert.resource)
    requires CompileInsert(bundle, insert, session) == Ok(plan) && Within(plan.serverValues, c.params)
    requires Seals(sealed, plan, insert.returning, rules)
    ensures plan.operationCheck.Some?
    ensures var after := InsertedRows(c, defaults, plan.statement.rows);
            var report := Report(c, insert.resource, insert.returning, plan.operationCheck.value, after);
            AcceptMutation(sealed, report, maxBytes) == Ok(public)
            <==> (&& (forall row | row in after :: PredicateTruth(c.engine, policy.check, row, session) == True)
                  && Gives(c, insert.resource, insert.returning, after, sealed, public, maxBytes))
  {
    var (rows, values1) := ProtectRows(insert.rows, policy, session, map[]).value;
    ProtectRowsKeep(insert.rows, policy, session, map[]);
    var after := InsertedRows(c, defaults, rows);
    ReportExact(c, insert.resource, insert.returning, plan.operationCheck.value, after, sealed, rules, maxBytes,
        public);
    ChecksExact(policy.check, insert.resource, session, values1, c, after);
  }

  /** An UPDATE is accepted, whatever the number of its rows, exactly when each meets the check after it. */
  lemma UpdateAcceptedWhen(
    bundle: PolicyBundle, u: BoundUpdate, session: TrustedSession, policy: UpdatePolicy,
    plan: ProtectedPlan<BoundUpdate>, c: Ctx, table: seq<Row>, sealed: Plan, rules: seq<ValueRule>, maxBytes: nat,
    public: ResultValue)
    requires RolePolicy(bundle.update, u.resource, session.role) == Ok(policy) && Owned(policy.check, u.resource)
    requires CompileUpdate(bundle, u, session) == Ok(plan) && Within(plan.serverValues, c.params)
    requires Seals(sealed, plan, u.returning, rules)
    ensures plan.operationCheck.Some?
    ensures var after := ChangedRows(c, plan.statement, table);
            var report := Report(c, u.resource, u.returning, plan.operationCheck.value, after);
            AcceptMutation(sealed, report, maxBytes) == Ok(public)
            <==> (&& (forall row | row in after :: PredicateTruth(c.engine, policy.check, row, session) == True)
                  && Gives(c, u.resource, u.returning, after, sealed, public, maxBytes))
  {
    var values1 := PresetAssignments(policy.presets, session, map[]).value.1;
    var values2 := Instantiate(policy.rowFilter, session, values1).value.1;
    PresetsKeep(policy.presets, session, map[]);
    InstantiateKeeps(policy.rowFilter, session, values1);
    var after := ChangedRows(c, plan.statement, table);
    ReportExact(c, u.resource, u.returning, plan.operationCheck.value, after, sealed, rules, maxBytes, public);
    ChecksExact(policy.check, u.resource, session, values2, c, after);
  }

  /** What the database reports for a DELETE: the removed rows, as many as the affected ones if any is returned. */
  function RemovalReport(c: Ctx, d: BoundDelete, table: seq<Row>): ResultValue {
    ResultValue(EmittedColumns(d.returning, 0), if d.returning == [] then [] else DeleteReport(c, d, table), [],
                |Struck(c, d.filter, d.resource, table)|)
  }

  /** A DELETE has no check and no expectation: only what the caller is given can refuse it. */
  lemma DeleteAcceptedWhen(
    bundle: PolicyBundle, d: BoundDelete, session: TrustedSession, plan: ProtectedPlan<BoundDelete>, c: Ctx,
    table: seq<Row>, sealed: Plan, rules: seq<ValueRule>, maxBytes: nat, public: ResultValue)
    requires CompileDelete(bundle, d, session) == Ok(plan) && Seals(sealed, plan, d.returning, rules)
    ensures AcceptMutation(sealed, RemovalReport(c, plan.statement, table), maxBytes) == Ok(public)
       <==> Gives(c, d.resource, d.returning, Struck(c, plan.statement.filter, d.resource, table), sealed, public,
                  maxBytes)
  {
    var gone := Struck(c, plan.statement.filter, d.resource, table);
    EmittedColumnsArePhysical(d.returning, rules, 0);
    PublicResultExact(sealed, RemovalReport(c, plan.statement, table), maxBytes, public);
    assert DeleteReport(c, plan.statement, table) == ReturnedCells(c, d.resource, d.returning, gone);
  }
}
