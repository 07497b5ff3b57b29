/**
  * The nullability proof read off the statement itself, and what it is good for: a NULL
  * is accepted exactly for the parameters it covers, and then satisfies every column
  * it can reach.
  */
module Nullability {
  import opened Core
  import opened Ir
  import opened Parameters

  // ---- Where a name is mentioned, without positions.

  predicate Mentions(e: BoundExpr, name: string) {
    match e
    case ClientParameter(n, _) => n == name
    case Binary(_, left, right) => Mentions(left, name) || Mentions(right, name)
    case Unary(_, inner) => Mentions(inner, name)
    case In(expression, values, _) => Mentions(expression, name) || exists v <- values :: Mentions(v, name)
    case Case(branches, otherwise, _) =>
      (exists b <- branches :: Mentions(b.condition, name) || Mentions(b.value, name)) ||
      (otherwise.Some? && Mentions(otherwise.value, name))
    case ConditionalOutput(value, visibleIf) => Mentions(value, name) || Mentions(visibleIf, name)
    case Exists(select) => SelectMentions(select, name)
    case Scalar(_, arguments, _) => exists v <- arguments :: Mentions(v, name)
    case RowNumber(_, _, orderBy) => exists o <- orderBy :: Mentions(o.expression, name)
    case _ => false
  }

  predicate SelectMentions(s: BoundSelect, name: string) {
    (exists p <- s.projections :: Mentions(p.expression, name)) ||
    (exists j <- s.joins :: Mentions(j.on, name)) ||
    (s.filter.Some? && Mentions(s.filter.value, name)) ||
    (s.having.Some? && Mentions(s.having.value, name)) ||
    (exists o <- s.orderBy :: Mentions(o.expression, name)) ||
    (s.limit.Some? && Mentions(s.limit.value, name)) ||
    (s.offset.Some? && Mentions(s.offset.value, name))
  }

  predicate Returns(ps: seq<BoundProjection>, name: string) {
    exists p <- ps :: Mentions(p.expression, name)
  }

  predicate Filters(e: Option<BoundExpr>, name: string) {
    e.Some? && Mentions(e.value, name)
  }

  predicate Assigns(assignments: seq<BoundAssignment>, name: string) {
    exists a <- assignments :: Mentions(a.value, name)
  }

  predicate StatementMentions(statement: BoundStatement, name: string) {
    match statement
    case SelectStatement(select) => SelectMentions(select, name)
    case InsertStatement(insert) =>
      (exists row <- insert.rows :: Assigns(row, name)) || Returns(insert.returning, name)
    case UpdateStatement(update) =>
      Assigns(update.assignments, name) || Filters(update.filter, name) || Returns(update.returning, name)
    case DeleteStatement(delete) => Filters(delete.filter, name) || Returns(delete.returning, name)
  }

  /** Where the name is mentioned in the assignment it is the whole value, and the column is nullable. */
  predicate WholeNullable(catalog: Catalog, a: BoundAssignment, name: string) {
    Mentions(a.value, name) ==> a.value.ClientParameter? && NullableColumn(catalog, a.column)
  }

  predicate AllWholeNullable(catalog: Catalog, assignments: seq<BoundAssignment>, name: string) {
    forall a <- assignments :: WholeNullable(catalog, a, name)
  }

  /** Every mention in the statement is the whole value of an assignment to a nullable column. */
  predicate AssignedOnly(catalog: Catalog, statement: BoundStatement, name: string) {
    match statement
    case SelectStatement(select) => !SelectMentions(select, name)
    case InsertStatement(insert) =>
      (forall row <- insert.rows :: AllWholeNullable(catalog, row, name)) && !Returns(insert.returning, name)
    case UpdateStatement(update) =>
      AllWholeNullable(catalog, update.assignments, name) &&
      !Filters(update.filter, name) && !Returns(update.returning, name)
    case DeleteStatement(delete) => !Filters(delete.filter, name) && !Returns(delete.returning, name)
  }

  // ---- The traversal meets exactly the mentions.

  lemma OccursConcat(xs: seq<Occurrence>, ys: seq<Occurrence>, name: string)
    ensures Occurs(xs + ys, name) <==> Occurs(xs, name) || Occurs(ys, name)
  {
    assert forall o :: o in xs + ys <==> o in xs || o in ys;
  }

  lemma OnlyNullableConcat(catalog: Catalog, xs: seq<Occurrence>, ys: seq<Occurrence>, name: string)
    ensures OnlyNullable(catalog, xs + ys, name) <==> OnlyNullable(catalog, xs, name) && OnlyNullable(catalog, ys, name)
  {
    assert forall o :: o in xs + ys <==> o in xs || o in ys;
  }

  /** An occurrence in an expression keeps the outer position only when it is the whole expression. */
  lemma {:induction false} ExprMentions(e: BoundExpr, position: Position, name: string)
    ensures Occurs(InExpr(e, position), name) <==> Mentions(e, name)
    decreases e
  {
    match e
    case ClientParameter(_, _) =>
      assert InExpr(e, position)[0].name == e.name;
    case Binary(op, left, right) =>
      BinaryMentions(op, left, right, name);
      var first := if op.And? || op.Or? then Other else Beside(right);
      var second := if op.And? || op.Or? then Other else Beside(left);
      ExprMentions(left, first, name);
      ExprMentions(right, second, name);
      OccursConcat(InExpr(left, first), InExpr(right, second), name);
    case Unary(_, inner) => ExprMentions(inner, Other, name);
    case In(expression, values, _) =>
      ExprMentions(expression, Other, name);
      EachMentions(values, Beside(expression), name);
      OccursConcat(InExpr(expression, Other), InEach(values, Beside(expression)), name);
    case Case(branches, otherwise, _) =>
      BranchesMention(branches, name);
      OptionalMentions(otherwise, name);
      OccursConcat(InBranches(branches), InOptional(otherwise), name);
    case ConditionalOutput(value, visibleIf) =>
      ExprMentions(value, Other, name);
      ExprMentions(visibleIf, Other, name);
      OccursConcat(InExpr(value, Other), InExpr(visibleIf, Other), name);
    case Exists(select) => SelectMentionsExactly(select, name);
    case Scalar(_, arguments, _) => EachMentions(arguments, Other, name);
    case RowNumber(_, _, orderBy) => OrdersMention(orderBy, name);
    case _ =>
  }

  lemma BinaryMentions(op: BinaryOp, left: BoundExpr, right: BoundExpr, name: string)
    ensures Mentions(Binary(op, left, right), name) <==> Mentions(left, name) || Mentions(right, name)
  {
  }

  lemma {:induction false} OptionalMentions(e: Option<BoundExpr>, name: string)
    ensures Occurs(InOptional(e), name) <==> e.Some? && Mentions(e.value, name)
    decreases e
  {
    if e.Some? {
      assert e decreases to e.value;
      ExprMentions(e.value, Other, name);
    }
  }

  lemma {:induction false} EachMentions(es: seq<BoundExpr>, position: Position, name: string)
    ensures Occurs(InEach(es, position), name) <==> exists v <- es :: Mentions(v, name)
    decreases es
  {
    if es != [] {
      assert es decreases to es[0];
      ExprMentions(es[0], position, name);
      EachMentions(es[1..], position, name);
      OccursConcat(InExpr(es[0], position), InEach(es[1..], position), name);
      assert es == [es[0]] + es[1..];
    }
  }

  lemma {:induction false} BranchesMention(bs: seq<Branch>, name: string)
    ensures Occurs(InBranches(bs), name) <==> exists b <- bs :: Mentions(b.condition, name) || Mentions(b.value, name)
    decreases bs
  {
    if bs != [] {
      assert bs decreases to bs[0];
      ExprMentions(bs[0].condition, Other, name);
      ExprMentions(bs[0].value, Other, name);
      BranchesMention(bs[1..], name);
      OccursConcat(InExpr(bs[0].condition, Other), InExpr(bs[0].value, Other), name);
      OccursConcat(InExpr(bs[0].condition, Other) + InExpr(bs[0].value, Other), InBranches(bs[1..]), name);
      assert bs == [bs[0]] + bs[1..];
    }
  }

  lemma {:induction false} OrdersMention(os: seq<BoundOrder>, name: string)
    ensures Occurs(InOrders(os), name) <==> exists o <- os :: Mentions(o.expression, name)
    decreases os
  {
    if os != [] {
      assert os decreases to os[0];
      ExprMentions(os[0].expression, Other, name);
      OrdersMention(os[1..], name);
      OccursConcat(InExpr(os[0].expression, Other), InOrders(os[1..]), name);
      assert os == [os[0]] + os[1..];
    }
  }

  lemma {:induction false} ProjectionsMention(ps: seq<BoundProjection>, name: string)
    ensures Occurs(InProjections(ps), name) <==> Returns(ps, name)
    decreases ps
  {
    if ps != [] {
      assert ps decreases to ps[0];
      ExprMentions(ps[0].expression, Other, name);
      ProjectionsMention(ps[1..], name);
      OccursConcat(InExpr(ps[0].expression, Other), InProjections(ps[1..]), name);
      assert ps == [ps[0]] + ps[1..];
    }
  }

  lemma {:induction false} JoinsMention(js: seq<BoundJoin>, name: string)
    ensures Occurs(InJoins(js), name) <==> exists j <- js :: Mentions(j.on, name)
    decreases js
  {
    if js != [] {
      assert js decreases to js[0];
      ExprMentions(js[0].on, Other, name);
      JoinsMention(js[1..], name);
      OccursConcat(InExpr(js[0].on, Other), InJoins(js[1..]), name);
      assert js == [js[0]] + js[1..];
    }
  }

  lemma {:induction false} SelectMentionsExactly(s: BoundSelect, name: string)
    ensures Occurs(InSelect(s), name) <==> SelectMentions(s, name)
    decreases s
  {
    var a, b, c, d := InProjections(s.projections), InJoins(s.joins), InOptional(s.filter), InOptional(s.having);
    var e, f, g := InOrders(s.orderBy), InOptional(s.limit), InOptional(s.offset);
    ProjectionsMention(s.projections, name);
    JoinsMention(s.joins, name);
    OptionalMentions(s.filter, name);
    OptionalMentions(s.having, name);
    OrdersMention(s.orderBy, name);
    OptionalMentions(s.limit, name);
    OptionalMentions(s.offset, name);
    OccursConcat(a, b, name);
    OccursConcat(a + b, c, name);
    OccursConcat(a + b + c, d, name);
    OccursConcat(a + b + c + d, e, name);
    OccursConcat(a + b + c + d + e, f, name);
    OccursConcat(a + b + c + d + e + f, g, name);
  }

  // ---- Below the top of an assignment no position is an assignment.

  predicate NoAssignments(os: seq<Occurrence>) {
    forall o <- os :: !o.position.Assignment?
  }

  lemma {:induction false} ExprNoAssignments(e: BoundExpr, position: Position)
    requires !position.Assignment?
    ensures NoAssignments(InExpr(e, position))
    decreases e
  {
    match e
    case Binary(op, left, right) =>
      ExprNoAssignments(left, if op.And? || op.Or? then Other else Beside(right));
      ExprNoAssignments(right, if op.And? || op.Or? then Other else Beside(left));
    case Unary(_, inner) => ExprNoAssignments(inner, Other);
    case In(expression, values, _) =>
      ExprNoAssignments(expression, Other);
      EachNoAssignments(values, Beside(expression));
    case Case(branches, otherwise, _) =>
      BranchesNoAssignments(branches);
      OptionalNoAssignments(otherwise);
    case ConditionalOutput(value, visibleIf) =>
      ExprNoAssignments(value, Other);
      ExprNoAssignments(visibleIf, Other);
    case Exists(select) => SelectNoAssignments(select);
    case Scalar(_, arguments, _) => EachNoAssignments(arguments, Other);
    case RowNumber(_, _, orderBy) => OrdersNoAssignments(orderBy);
    case _ =>
  }

  lemma {:induction false} OptionalNoAssignments(e: Option<BoundExpr>)
    ensures NoAssignments(InOptional(e))
    decreases e
  {
    if e.Some? {
      assert e decreases to e.value;
      ExprNoAssignments(e.value, Other);
    }
  }

  lemma {:induction false} EachNoAssignments(es: seq<BoundExpr>, position: Position)
    requires !position.Assignment?
    ensures NoAssignments(InEach(es, position))
    decreases es
  {
    if es != [] {
      assert es decreases to es[0];
      ExprNoAssignments(es[0], position);
      EachNoAssignments(es[1..], position);
    }
  }

  lemma {:induction false} BranchesNoAssignments(bs: seq<Branch>)
    ensures NoAssignments(InBranches(bs))
    decreases bs
  {
    if bs != [] {
      assert bs decreases to bs[0];
      ExprNoAssignments(bs[0].condition, Other);
      ExprNoAssignments(bs[0].value, Other);
      BranchesNoAssignments(bs[1..]);
    }
  }

  lemma {:induction false} OrdersNoAssignments(os: seq<BoundOrder>)
    ensures NoAssignments(InOrders(os))
    decreases os
  {
    if os != [] {
      assert os decreases to os[0];
      ExprNoAssignments(os[0].expression, Other);
      OrdersNoAssignments(os[1..]);
    }
  }

  lemma {:induction false} ProjectionsNoAssignments(ps: seq<BoundProjection>)
    ensures NoAssignments(InProjections(ps))
    decreases ps
  {
    if ps != [] {
      assert ps decreases to ps[0];
      ExprNoAssignments(ps[0].expression, Other);
      ProjectionsNoAssignments(ps[1..]);
    }
  }

  lemma {:induction false} JoinsNoAssignments(js: seq<BoundJoin>)
    ensures NoAssignments(InJoins(js))
    decreases js
  {
    if js != [] {
      assert js decreases to js[0];
      ExprNoAssignments(js[0].on, Other);
      JoinsNoAssignments(js[1..]);
    }
  }

  lemma {:induction false} SelectNoAssignments(s: BoundSelect)
    ensures NoAssignments(InSelect(s))
    decreases s
  {
    ProjectionsNoAssignments(s.projections);
    JoinsNoAssignments(s.joins);
    OptionalNoAssignments(s.filter);
    OptionalNoAssignments(s.having);
    OrdersNoAssignments(s.orderBy);
    OptionalNoAssignments(s.limit);
    OptionalNoAssignments(s.offset);
  }

  lemma NeverNullable(catalog: Catalog, os: seq<Occurrence>, name: string)
    requires NoAssignments(os)
    ensures OnlyNullable(catalog, os, name) <==> !Occurs(os, name)
  {
  }

  // ---- The proof, statement by statement.

  lemma AssignmentExact(catalog: Catalog, a: BoundAssignment, name: string)
    ensures OnlyNullable(catalog, InExpr(a.value, Assignment(a.column)), name) <==> WholeNullable(catalog, a, name)
  {
    var os := InExpr(a.value, Assignment(a.column));
    ExprMentions(a.value, Assignment(a.column), name);
    if a.value.ClientParameter? {
      assert os[0].name == a.value.name;
    } else {
      assert os == InExpr(a.value, Other);
      ExprNoAssignments(a.value, Other);
      NeverNullable(catalog, os, name);
    }
  }

  lemma {:induction false} AssignmentsExact(catalog: Catalog, assignments: seq<BoundAssignment>, name: string)
    ensures OnlyNullable(catalog, InAssignments(assignments), name) <==> AllWholeNullable(catalog, assignments, name)
    ensures Occurs(InAssignments(assignments), name) <==> Assigns(assignments, name)
    decreases |assignments|
  {
    if assignments != [] {
      var a, rest := assignments[0], assignments[1..];
      var first := InExpr(a.value, Assignment(a.column));
      AssignmentsExact(catalog, rest, name);
      AssignmentExact(catalog, a, name);
      ExprMentions(a.value, Assignment(a.column), name);
      OccursConcat(first, InAssignments(rest), name);
      OnlyNullableConcat(catalog, first, InAssignments(rest), name);
      assert assignments == [a] + rest;
    }
  }

  lemma {:induction false} RowsExact(catalog: Catalog, rows: seq<seq<BoundAssignment>>, name: string)
    ensures OnlyNullable(catalog, InRows(rows), name) <==> forall row <- rows :: AllWholeNullable(catalog, row, name)
    ensures Occurs(InRows(rows), name) <==> exists row <- rows :: Assigns(row, name)
    decreases |rows|
  {
    if rows != [] {
      RowsExact(catalog, rows[1..], name);
      AssignmentsExact(catalog, rows[0], name);
      OccursConcat(InAssignments(rows[0]), InRows(rows[1..]), name);
      OnlyNullableConcat(catalog, InAssignments(rows[0]), InRows(rows[1..]), name);
      assert rows == [rows[0]] + rows[1..];
    }
  }

  lemma ReturningExact(catalog: Catalog, ps: seq<BoundProjection>, name: string)
    ensures OnlyNullable(catalog, InProjections(ps), name) <==> !Returns(ps, name)
    ensures Occurs(InProjections(ps), name) <==> Returns(ps, name)
  {
    ProjectionsMention(ps, name);
    ProjectionsNoAssignments(ps);
    NeverNullable(catalog, InProjections(ps), name);
  }

  lemma FilterExact(catalog: Catalog, e: Option<BoundExpr>, name: string)
    ensures OnlyNullable(catalog, InOptional(e), name) <==> !Filters(e, name)
    ensures Occurs(InOptional(e), name) <==> Filters(e, name)
  {
    OptionalMentions(e, name);
    OptionalNoAssignments(e);
    NeverNullable(catalog, InOptional(e), name);
  }

  lemma StatementExact(catalog: Catalog, statement: BoundStatement, name: string)
    ensures Occurs(Occurrences(statement), name) <==> StatementMentions(statement, name)
    ensures OnlyNullable(catalog, Occurrences(statement), name) <==> AssignedOnly(catalog, statement, name)
  {
    match statement
    case SelectStatement(select) =>
      SelectMentionsExactly(select, name);
      SelectNoAssignments(select);
      NeverNullable(catalog, InSelect(select), name);
    case InsertStatement(insert) =>
      RowsExact(catalog, insert.rows, name);
      ReturningExact(catalog, insert.returning, name);
      OccursConcat(InRows(insert.rows), InProjections(insert.returning), name);
      OnlyNullableConcat(catalog, InRows(insert.rows), InProjections(insert.returning), name);
    case UpdateStatement(update) =>
      var a, b, c := InAssignments(update.assignments), InOptional(update.filter), InProjections(update.returning);
      AssignmentsExact(catalog, update.assignments, name);
      FilterExact(catalog, update.filter, name);
      ReturningExact(catalog, update.returning, name);
      OccursConcat(a, b, name);
      OccursConcat(a + b, c, name);
      OnlyNullableConcat(catalog, a, b, name);
      OnlyNullableConcat(catalog, a + b, c, name);
    case DeleteStatement(delete) =>
      FilterExact(catalog, delete.filter, name);
      ReturningExact(catalog, delete.returning, name);
      OccursConcat(InOptional(delete.filter), InProjections(delete.returning), name);
      OnlyNullableConcat(catalog, InOptional(delete.filter), InProjections(delete.returning), name);
  }

  /**
    * The pass knows exactly the mentioned names, and calls one nullable exactly when every
    * mention is the whole value of an assignment to a nullable column.
    */
  lemma NullableExact(catalog: Catalog, statement: BoundStatement, name: string)
    ensures var a := Analyze(catalog, statement);
            (name in a.parameters <==> StatementMentions(statement, name)) &&
            (name in a.parameters ==> (a.parameters[name].nullable <==> AssignedOnly(catalog, statement, name)))
  {
    var os := Occurrences(statement);
    AnalysisDescribes(catalog, os);
    StatementExact(catalog, statement, name);
    var a := Analyze(catalog, statement);
    if name in a.parameters { assert DescribesOne(catalog, a.parameters[name], os, name); }
  }

  // ---- Acceptance of supplied values.

  datatype CompileError = ParameterMismatch | TypeMismatch

  predicate ValueMatches(value: LogicalValue, expected: LogicalType, maxBytes: nat) {
    match value
    case String(_) => expected.StringType? || expected.DateType? || expected.DateTimeType? || expected.InstantType?
    case Boolean(_) => expected.BooleanType?
    case Int64(n) => expected.Int64Type? || (expected.IntegerType? && -MAX_SAFE_INTEGER <= n <= MAX_SAFE_INTEGER)
    case Number(_) => expected.NumberType?
    case Json(_) => expected.JsonType?
    case Bytes(bytes) => expected.BytesType? && |bytes| <= maxBytes
    case Null => false
  }

  predicate ColumnAccepts(catalog: Catalog, column: BoundColumn, value: LogicalValue, maxBytes: nat) {
    column.id in catalog && SatisfiesContract(value, catalog[column.id], maxBytes)
  }

  predicate Accepts(catalog: Catalog, contract: Contract, value: LogicalValue, maxBytes: nat) {
    ((value.Null? && contract.nullable) || ValueMatches(value, contract.logicalType, maxBytes)) &&
    forall column <- contract.columns :: ColumnAccepts(catalog, column, value, maxBytes)
  }

  /** The verdict on a set of supplied values, whatever the order of the checks. */
  ghost function Verdict(catalog: Catalog, a: Analysis, values: Bindings, maxBytes: nat): Option<CompileError> {
    if a.parameters.Keys != values.Keys then Some(ParameterMismatch)
    else if a.typeConflict then Some(TypeMismatch)
    else if forall name <- a.parameters :: Accepts(catalog, a.parameters[name], values[name], maxBytes) then None
    else Some(TypeMismatch)
  }

  method ValidateClientParameters(catalog: Catalog, a: Analysis, values: Bindings, maxBytes: nat)
    returns (error: Option<CompileError>)
    ensures error == Verdict(catalog, a, values, maxBytes)
  {
    if a.parameters.Keys != values.Keys { return Some(ParameterMismatch); }
    if a.typeConflict { return Some(TypeMismatch); }
    var names := a.parameters.Keys;
    while names != {}
      invariant names <= a.parameters.Keys
      invariant forall name <- a.parameters :: name !in names ==>
                Accepts(catalog, a.parameters[name], values[name], maxBytes)
      decreases names
    {
      var name :| name in names;
      var contract, value := a.parameters[name], values[name];
      var provenNull := value.Null? && contract.nullable;
      if !provenNull && !ValueMatches(value, contract.logicalType, maxBytes) { return Some(TypeMismatch); }
      for i := 0 to |contract.columns|
        invariant forall k | 0 <= k < i :: ColumnAccepts(catalog, contract.columns[k], value, maxBytes)
      {
        var column := contract.columns[i];
        if column.id !in catalog || !SatisfiesContract(value, catalog[column.id], maxBytes) {
          assert column in contract.columns;
          return Some(TypeMismatch);
        }
      }
      names := names - {name};
    }
    return None;
  }

  /** A NULL is accepted exactly for a nullable parameter: the proof carries it past every column contract. */
  lemma NullAccepted(catalog: Catalog, statement: BoundStatement, name: string, maxBytes: nat)
    requires name in Analyze(catalog, statement).parameters
    ensures Accepts(catalog, Analyze(catalog, statement).parameters[name], LogicalValue.Null, maxBytes) <==>
            AssignedOnly(catalog, statement, name)
  {
    var os := Occurrences(statement);
    var contract := Analyze(catalog, statement).parameters[name];
    NullableExact(catalog, statement, name);
    AnalysisDescribes(catalog, os);
    assert DescribesOne(catalog, contract, os, name);
    if contract.nullable {
      forall column | column in contract.columns ensures ColumnAccepts(catalog, column, LogicalValue.Null, maxBytes) {
        assert Knows(contract.columns, column.id);
        var o :| o in os && o.name == name && !o.position.Other? && o.position.column.id == column.id;
        assert NullablePosition(catalog, o.position);
      }
    }
  }

  /** So the whole request is refused when any NULL is supplied for a parameter the proof does not cover. */
  lemma OtherNullsRefused(catalog: Catalog, statement: BoundStatement, values: Bindings, name: string, maxBytes: nat)
    requires name in values && values[name].Null? && !AssignedOnly(catalog, statement, name)
    ensures Verdict(catalog, Analyze(catalog, statement), values, maxBytes).Some?
  {
    if name in Analyze(catalog, statement).parameters { NullAccepted(catalog, statement, name, maxBytes); }
  }
}
