/**
  * The emission state object: it binds literals, numbers parameters and builds the tree, one field
  * update at a time. Every method has the outcome and the new state of the function it is named for.
  */
module AstEmitter {
  import opened Core
  import opened Ir
  import opened Alias
  import opened Results
  import opened Emit
  import opened EmitMutation
  import Sql

  class AstEmitState {
    const em: Emitter
    var serverParameters: Bindings
    var nextLiteral: nat
    var parameterIndices: map<string, nat>
    var nextParameter: nat

    constructor (em: Emitter, serverValues: Bindings)
      ensures this.em == em && State() == Start(serverValues)
    {
      this.em := em;
      serverParameters, nextLiteral, parameterIndices, nextParameter := serverValues, 0, map[], 0;
    }

    ghost function State(): EmitState
      reads this
    {
      EmitState(serverParameters, nextLiteral, parameterIndices, nextParameter)
    }

    /** The method ended as the function says, with its value and its state. */
    ghost predicate Did<T>(r: Result<T, EmitError>, spec: Emitted<T>)
      reads this
    {
      match spec
      case Ok((value, st)) => r == Ok(value) && State() == st
      case Err(error) => r == Err(error)
    }

    method Parameter(name: string) returns (r: Result<Sql.Expr, EmitError>)
      modifies this
      ensures Did(r, EmitParameter(name, old(State())))
    {
      var variable := ":" + name;
      var index := 0;
      if variable in parameterIndices {
        index := parameterIndices[variable];
      } else {
        if nextParameter >= MAX_PARAMETERS { return Err(TooManyLiterals); }
        nextParameter := nextParameter + 1;
        index := nextParameter;
        parameterIndices := parameterIndices[variable := index];
      }
      return Ok(Sql.Variable(variable, index));
    }

    /** Tries literal names until one was free. */
    method TextLiteral(value: LogicalValue) returns (r: Result<Sql.Expr, EmitError>)
      modifies this
      ensures Did(r, FreshLiteral(value, old(State())))
    {
      ghost var spec := FreshLiteral(value, State());
      while true
        invariant spec == FreshLiteral(value, State())
        decreases MAX_LITERALS - nextLiteral
      {
        if nextLiteral >= MAX_LITERALS { return Err(TooManyLiterals); }
        var suffix := "literal_" + Decimal(nextLiteral);
        if !CanonicalKey(suffix) { return Err(InvariantViolation); }
        var name := LiteralName(nextLiteral);
        var taken := name in serverParameters;
        serverParameters := serverParameters[name := value];
        nextLiteral := nextLiteral + 1;
        if !taken {
          r := Parameter(name);
          return;
        }
      }
    }

    method LiteralValue(value: LogicalValue) returns (r: Result<Sql.Expr, EmitError>)
      modifies this
      ensures Did(r, EmitLiteral(em, value, old(State())))
    {
      match value
      case Null => return Ok(Sql.Literal(Sql.NullToken));
      case Boolean(b) => return Ok(Sql.Literal(if b then Sql.TrueToken else Sql.FalseToken));
      case Int64(n) =>
        if n < 0 { return Ok(Negated(Numeral(Decimal(-(n as int))))); }
        return Ok(Numeral(Decimal(n)));
      case Number(NonFinite) => return Err(UnsupportedValue);
      case Number(Finite(x)) =>
        if x < 0.0 { return Ok(Negated(Numeral(em.numeral(-x)))); }
        return Ok(Numeral(em.numeral(x)));
      case _ => r := TextLiteral(value);
    }

    method Expression(e: BoundExpr) returns (r: Result<Sql.Expr, EmitError>)
      modifies this
      ensures Did(r, EmitExpr(em, e, old(State())))
      decreases e, 1
    {
      match e
      case Column(column) => return EmitColumn(em, column.id);
      case ClientParameter(name, _) => r := Parameter(name);
      case ServerParameter(name, _) =>
        if name !in serverParameters { return Err(MissingServerParameter); }
        r := Parameter(name);
      case Literal(value) => r := LiteralValue(value);
      case Binary(op, left, right) =>
        var x :- Expression(left);
        var y :- Expression(right);
        return Ok(EmitBinary(op, x, y));
      case Unary(op, inner) =>
        var x :- Expression(inner);
        return Ok(EmitUnary(op, x));
      case In(expression, values, negated) =>
        if values == [] { return Err(InvariantViolation); }
        var x :- Expression(expression);
        var members :- Expressions(values);
        return Ok(Wrapped(Sql.InList(x, negated, members)));
      case Case(branches, otherwise, _) =>
        var pairs :- Branches(branches);
        var other :- Optional(otherwise);
        return Ok(Sql.Case(None, pairs, other));
      case ConditionalOutput(value, visibleIf) =>
        var condition :- Expression(visibleIf);
        var x :- Expression(value);
        return Ok(Sql.Case(None, [Sql.When(condition, x)], Some(Sql.Literal(Sql.NullToken))));
      case Exists(select) =>
        var query :- SelectNode(select);
        return Ok(Sql.Exists(query));
      case CountAll(_) => return Ok(Sql.FunctionCallStar("COUNT", Sql.Tail(None, Sql.NoWindow)));
      case Scalar(routine, arguments, _) =>
        var xs :- Expressions(arguments);
        return Ok(Sql.Call(RoutineName(routine), xs));
      case RowNumber(_, partitionBy, orderBy) =>
        var partition :- EmitColumns(em, partitionBy);
        var orders :- Orders(orderBy);
        return Ok(Sql.FunctionCall("ROW_NUMBER", [], [], [], Sql.Tail(None, Sql.Window(partition, orders, false))));
    }

    method Expressions(es: seq<BoundExpr>) returns (r: Result<seq<Sql.Expr>, EmitError>)
      modifies this
      ensures Did(r, EmitAll(em, es, old(State())))
      decreases es, 1
    {
      ghost var spec := EmitAll(em, es, State());
      var out: seq<Sql.Expr> := [];
      assert es[0..] == es;
      Nothing(EmitAll(em, es, State()));
      for i := 0 to |es|
        invariant spec == Behind(out, EmitAll(em, es[i..], State()))
      {
        assert es[i..][0] == es[i] && es[i..][1..] == es[i + 1..];
        assert es decreases to es[i];
        var x :- Expression(es[i]);
        BehindTwice(out, [x], EmitAll(em, es[i + 1..], State()));
        out := out + [x];
      }
      assert out + [] == out;
      return Ok(out);
    }

    method Optional(e: Option<BoundExpr>) returns (r: Result<Option<Sql.Expr>, EmitError>)
      modifies this
      ensures Did(r, EmitOption(em, e, old(State())))
      decreases e, 1
    {
      if e.None? { return Ok(None); }
      assert e decreases to e.value;
      var x :- Expression(e.value);
      return Ok(Some(x));
    }

    method Branches(branches: seq<Branch>) returns (r: Result<seq<Sql.When>, EmitError>)
      modifies this
      ensures Did(r, EmitBranches(em, branches, old(State())))
      decreases branches, 1
    {
      ghost var spec := EmitBranches(em, branches, State());
      var out: seq<Sql.When> := [];
      assert branches[0..] == branches;
      Nothing(spec);
      for i := 0 to |branches|
        invariant spec == Behind(out, EmitBranches(em, branches[i..], State()))
      {
        assert branches[i..][0] == branches[i] && branches[i..][1..] == branches[i + 1..];
        assert branches decreases to branches[i];
        var condition :- Expression(branches[i].condition);
        var value :- Expression(branches[i].value);
        BehindTwice(out, [Sql.When(condition, value)], EmitBranches(em, branches[i + 1..], State()));
        out := out + [Sql.When(condition, value)];
      }
      assert out + [] == out;
      return Ok(out);
    }

    method Orders(orders: seq<BoundOrder>) returns (r: Result<seq<Sql.Sorted>, EmitError>)
      modifies this
      ensures Did(r, EmitOrders(em, orders, old(State())))
      decreases orders, 1
    {
      ghost var spec := EmitOrders(em, orders, State());
      var out: seq<Sql.Sorted> := [];
      assert orders[0..] == orders;
      Nothing(spec);
      for i := 0 to |orders|
        invariant spec == Behind(out, EmitOrders(em, orders[i..], State()))
      {
        assert orders[i..][0] == orders[i] && orders[i..][1..] == orders[i + 1..];
        assert orders decreases to orders[i];
        var x :- Expression(orders[i].expression);
        var sorted := Sql.Sorted(x, orders[i].direction == Descending);
        BehindTwice(out, [sorted], EmitOrders(em, orders[i + 1..], State()));
        out := out + [sorted];
      }
      assert out + [] == out;
      return Ok(out);
    }

    /** Each projection, followed by its visibility companion if it is a conditional output. */
    method Projections(projections: seq<BoundProjection>) returns (r: Result<seq<Sql.ResultColumn>, EmitError>)
      modifies this
      ensures Did(r, EmitProjections(em, projections, 0, old(State())))
      decreases projections, 1
    {
      ghost var spec := EmitProjections(em, projections, 0, State());
      var out: seq<Sql.ResultColumn> := [];
      assert projections[0..] == projections;
      Nothing(spec);
      for i := 0 to |projections|
        invariant spec == Behind(out, EmitProjections(em, projections[i..], i, State()))
      {
        assert projections[i..][0] == projections[i] && projections[i..][1..] == projections[i + 1..];
        assert projections decreases to projections[i];
        var e := projections[i].expression;
        var x :- Expression(e);
        var columns := [Sql.Output(x, projections[i].outputName)];
        if e.ConditionalOutput? {
          assert e decreases to e.visibleIf;
          var condition :- Expression(e.visibleIf);
          columns := [Sql.Output(x, projections[i].outputName), Sql.Output(FlagOf(condition), VisibilityName(i))];
        }
        BehindTwice(out, columns, EmitProjections(em, projections[i + 1..], i + 1, State()));
        out := out + columns;
      }
      assert out + [] == out;
      return Ok(out);
    }

    method Joins(joins: seq<BoundJoin>) returns (r: Result<seq<Sql.Join>, EmitError>)
      modifies this
      ensures Did(r, EmitJoins(em, joins, old(State())))
      decreases joins, 1
    {
      ghost var spec := EmitJoins(em, joins, State());
      var out: seq<Sql.Join> := [];
      assert joins[0..] == joins;
      Nothing(spec);
      for i := 0 to |joins|
        invariant spec == Behind(out, EmitJoins(em, joins[i..], State()))
      {
        var join := joins[i];
        assert joins[i..][0] == join && joins[i..][1..] == joins[i + 1..];
        assert joins decreases to joins[i];
        if join.resource !in em.catalog || join.resource !in em.aliases { return Err(UnknownResource); }
        var on :- Expression(join.on);
        var table := Sql.Named(em.catalog[join.resource].source, em.aliases[join.resource]);
        var joined := Sql.Join(join.kind == Left, table, Sql.On(on));
        BehindTwice(out, [joined], EmitJoins(em, joins[i + 1..], State()));
        out := out + [joined];
      }
      assert out + [] == out;
      return Ok(out);
    }

    method GroupByClause(
        columns: seq<BoundColumn>, having: Option<BoundExpr>) returns (r: Result<Option<Sql.GroupBy>, EmitError>)
      modifies this
      ensures Did(r, EmitGroupBy(em, columns, having, old(State())))
      decreases having, 2
    {
      if columns == [] && having.None? { return Ok(None); }
      var exprs :- EmitColumns(em, columns);
      var h :- Optional(having);
      return Ok(Some(Sql.GroupBy(exprs, h)));
    }

    method SelectNode(s: BoundSelect) returns (r: Result<Sql.Select, EmitError>)
      modifies this
      ensures Did(r, EmitSelect(em, s, old(State())))
      decreases s, 3
    {
      if s.resource !in em.catalog { return Err(UnknownResource); }
      if s.projections == [] { return Err(InvariantViolation); }
      if s.resource !in em.aliases { return Err(UnknownResource); }
      var joins :- Joins(s.joins);
      var groupBy :- GroupByClause(s.groupBy, s.having);
      var orderBy :- Orders(s.orderBy);
      if s.limit.None? && s.offset.Some? { return Err(InvariantViolation); }
      var limit :- Optional(s.limit);
      var offset :- Optional(s.offset);
      var columns :- Projections(s.projections);
      var filter :- Optional(s.filter);
      var from := Sql.From(Sql.Named(em.catalog[s.resource].source, em.aliases[s.resource]), joins);
      return Ok(Sql.Select([], Sql.Query(columns, Some(from), filter, groupBy, false), [], orderBy,
                           match limit case None => None case Some(l) => Some(Sql.Limit(l, offset))));
    }

    method Returning(returning: seq<BoundProjection>, check: Option<BoundExpr>)
      returns (r: Result<seq<Sql.ResultColumn>, EmitError>)
      modifies this
      ensures Did(r, EmitReturning(em, returning, check, old(State())))
    {
      var columns :- Projections(returning);
      if check.None? { return Err(InvariantViolation); }
      var condition :- Expression(check.value);
      return Ok(columns + [Sql.Output(FlagOf(condition), CHECK_COLUMN)]);
    }

    method Sets(resource: ResourceId, assignments: seq<BoundAssignment>) returns (r: Result<seq<Sql.Set>, EmitError>)
      requires resource in em.catalog
      modifies this
      ensures Did(r, EmitSets(em, resource, assignments, old(State())))
    {
      ghost var spec := EmitSets(em, resource, assignments, State());
      var out: seq<Sql.Set> := [];
      assert assignments[0..] == assignments;
      Nothing(spec);
      for i := 0 to |assignments|
        invariant spec == Behind(out, EmitSets(em, resource, assignments[i..], State()))
      {
        assert assignments[i..][0] == assignments[i] && assignments[i..][1..] == assignments[i + 1..];
        var name :- ColumnName(em, resource, assignments[i].column.id);
        var value :- Expression(assignments[i].value);
        BehindTwice(out, [Sql.Set(name, value)], EmitSets(em, resource, assignments[i + 1..], State()));
        out := out + [Sql.Set(name, value)];
      }
      assert out + [] == out;
      return Ok(out);
    }

    method Values(assignments: seq<BoundAssignment>) returns (r: Result<seq<Sql.Expr>, EmitError>)
      modifies this
      ensures Did(r, EmitValues(em, assignments, old(State())))
    {
      ghost var spec := EmitValues(em, assignments, State());
      var out: seq<Sql.Expr> := [];
      assert assignments[0..] == assignments;
      Nothing(spec);
      for i := 0 to |assignments|
        invariant spec == Behind(out, EmitValues(em, assignments[i..], State()))
      {
        assert assignments[i..][0] == assignments[i] && assignments[i..][1..] == assignments[i + 1..];
        var value :- Expression(assignments[i].value);
        BehindTwice(out, [value], EmitValues(em, assignments[i + 1..], State()));
        out := out + [value];
      }
      assert out + [] == out;
      return Ok(out);
    }

    method Rows(
        first: seq<BoundAssignment>, rows: seq<seq<BoundAssignment>>) returns (r: Result<seq<Sql.Row>, EmitError>)
      modifies this
      ensures Did(r, EmitRows(em, first, rows, old(State())))
    {
      ghost var spec := EmitRows(em, first, rows, State());
      var out: seq<Sql.Row> := [];
      assert rows[0..] == rows;
      Nothing(spec);
      for i := 0 to |rows|
        invariant spec == Behind(out, EmitRows(em, first, rows[i..], State()))
      {
        assert rows[i..][0] == rows[i] && rows[i..][1..] == rows[i + 1..];
        if !SameColumns(rows[i], first) { return Err(InvariantViolation); }
        var cells :- Values(rows[i]);
        BehindTwice(out, [Sql.Row(cells)], EmitRows(em, first, rows[i + 1..], State()));
        out := out + [Sql.Row(cells)];
      }
      assert out + [] == out;
      return Ok(out);
    }

    method Insert(insert: BoundInsert, check: Option<BoundExpr>) returns (r: Result<Sql.Statement, EmitError>)
      modifies this
      ensures Did(r, EmitInsert(em, insert, check, old(State())))
    {
      if insert.resource !in em.catalog { return Err(UnknownResource); }
      if insert.rows == [] { return Err(InvariantViolation); }
      var names :- ColumnNames(em, insert.resource, insert.rows[0]);
      var rows :- Rows(insert.rows[0], insert.rows);
      var returning :- Returning(insert.returning, check);
      var body := Sql.Select([], Sql.Values(rows), [], [], None);
      return Ok(Sql.InsertStatement(false, em.catalog[insert.resource].source, names, Sql.FromSelect(body, None),
          returning));
    }

    method Update(update: BoundUpdate, check: Option<BoundExpr>) returns (r: Result<Sql.Statement, EmitError>)
      modifies this
      ensures Did(r, EmitUpdate(em, update, check, old(State())))
    {
      if update.resource !in em.catalog { return Err(UnknownResource); }
      if update.assignments == [] { return Err(InvariantViolation); }
      var sets :- Sets(update.resource, update.assignments);
      var returning :- Returning(update.returning, check);
      var filter :- Optional(update.filter);
      return Ok(Sql.UpdateStatement(false, em.catalog[update.resource].source, false, sets, filter, [], None,
          returning));
    }

    method Delete(delete: BoundDelete) returns (r: Result<Sql.Statement, EmitError>)
      modifies this
      ensures Did(r, EmitDelete(em, delete, old(State())))
    {
      if delete.resource !in em.catalog { return Err(UnknownResource); }
      var filter :- Optional(delete.filter);
      var returning :- Projections(delete.returning);
      return Ok(Sql.DeleteStatement(false, em.catalog[delete.resource].source, filter, [], None, returning));
    }
  }

  /** A list whose first part is built already. */
  function Behind<T>(out: seq<T>, rest: Emitted<seq<T>>): Emitted<seq<T>> {
    match rest
    case Ok((more, st)) => Ok((out + more, st))
    case Err(error) => Err(error)
  }

  lemma Nothing<T>(rest: Emitted<seq<T>>)
    ensures Behind([], rest) == rest
  {
    if rest.Ok? { assert [] + rest.value.0 == rest.value.0; }
  }

  lemma BehindTwice<T>(a: seq<T>, b: seq<T>, rest: Emitted<seq<T>>)
    ensures Behind(a, Behind(b, rest)) == Behind(a + b, rest)
  {
    if rest.Ok? { assert a + (b + rest.value.0) == a + b + rest.value.0; }
  }
}
