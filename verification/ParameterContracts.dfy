/**
  * What constrains a client parameter, read off the statement itself: the types its name is written
  * with, the columns it is compared with or assigned to, and so which requests are accepted.
  */
module ParameterContracts {
  import opened Core
  import opened Ir
  import opened Parameters
  import opened Nullability

  // ---- Somewhere in an expression or a statement.

  /** The test holds of the expression or of one inside it, at any depth. */
  predicate Anywhere(e: BoundExpr, test: BoundExpr -> bool)
    decreases e
  {
    test(e) ||
    match e
    case Binary(_, left, right) => Anywhere(left, test) || Anywhere(right, test)
    case Unary(_, inner) => Anywhere(inner, test)
    case In(expression, values, _) => Anywhere(expression, test) || exists v <- values :: Anywhere(v, test)
    case Case(branches, otherwise, _) =>
      (exists b <- branches :: Anywhere(b.condition, test) || Anywhere(b.value, test)) ||
      (otherwise.Some? && Anywhere(otherwise.value, test))
    case ConditionalOutput(value, visibleIf) => Anywhere(value, test) || Anywhere(visibleIf, test)
    case Exists(select) => SelectAnywhere(select, test)
    case Scalar(_, arguments, _) => exists v <- arguments :: Anywhere(v, test)
    case RowNumber(_, _, orderBy) => exists o <- orderBy :: Anywhere(o.expression, test)
    case _ => false
  }

  predicate OptionAnywhere(e: Option<BoundExpr>, test: BoundExpr -> bool) {
    e.Some? && Anywhere(e.value, test)
  }

  predicate SelectAnywhere(s: BoundSelect, test: BoundExpr -> bool) {
    (exists p <- s.projections :: Anywhere(p.expression, test)) ||
    (exists j <- s.joins :: Anywhere(j.on, test)) ||
    (s.filter.Some? && Anywhere(s.filter.value, test)) ||
    (s.having.Some? && Anywhere(s.having.value, test)) ||
    (exists o <- s.orderBy :: Anywhere(o.expression, test)) ||
    (s.limit.Some? && Anywhere(s.limit.value, test)) ||
    (s.offset.Some? && Anywhere(s.offset.value, test))
  }

  /** The test on expressions, or on whole assignments. */
  predicate StatementAnywhere(
      statement: BoundStatement, test: BoundExpr -> bool, whole: BoundAssignment -> bool) {
    match statement
    case SelectStatement(select) => SelectAnywhere(select, test)
    case InsertStatement(insert) =>
      (exists row <- insert.rows :: AssignedAnywhere(row, test, whole)) ||
      (exists p <- insert.returning :: Anywhere(p.expression, test))
    case UpdateStatement(update) =>
      AssignedAnywhere(update.assignments, test, whole) || OptionAnywhere(update.filter, test) ||
      (exists p <- update.returning :: Anywhere(p.expression, test))
    case DeleteStatement(delete) =>
      OptionAnywhere(delete.filter, test) || (exists p <- delete.returning :: Anywhere(p.expression, test))
  }

  predicate AssignedAnywhere(
      assignments: seq<BoundAssignment>, test: BoundExpr -> bool, whole: BoundAssignment -> bool) {
    exists a <- assignments :: whole(a) || Anywhere(a.value, test)
  }

  // ---- What is looked for.

  predicate Named(e: BoundExpr, name: string) {
    e.ClientParameter? && e.name == name
  }

  predicate IsColumn(e: BoundExpr, id: ColumnId) {
    e.Column? && e.column.id == id
  }

  /** The parameter with this name and type. */
  function Written(name: string, logicalType: LogicalType): BoundExpr -> bool {
    (e: BoundExpr) => e == ClientParameter(name, logicalType)
  }

  /** The parameter stands beside the column: in an operation other than AND and OR, or in the column's IN list. */
  function ComparedWith(name: string, id: ColumnId): BoundExpr -> bool {
    (e: BoundExpr) =>
      match e
      case Binary(op, left, right) =>
        !op.And? && !op.Or? &&
        ((Named(left, name) && IsColumn(right, id)) || (IsColumn(left, id) && Named(right, name)))
      case In(expression, values, _) => IsColumn(expression, id) && exists v <- values :: Named(v, name)
      case _ => false
  }

  /** The parameter is the whole value written to the column. */
  function AssignedTo(name: string, id: ColumnId): BoundAssignment -> bool {
    (a: BoundAssignment) => Named(a.value, name) && a.column.id == id
  }

  function NoAssignment(): BoundAssignment -> bool {
    (_: BoundAssignment) => false
  }

  predicate Constrains(statement: BoundStatement, name: string, id: ColumnId) {
    StatementAnywhere(statement, ComparedWith(name, id), AssignedTo(name, id))
  }

  predicate WrittenAs(statement: BoundStatement, name: string, logicalType: LogicalType) {
    StatementAnywhere(statement, Written(name, logicalType), NoAssignment())
  }

  // ---- The traversal finds it.

  /** A name with a type and a constraining column, both sought in one walk. */
  datatype Sought = Sought(name: string, logicalType: LogicalType, id: ColumnId) {
    predicate Typed(os: seq<Occurrence>) { HasType(os, name, logicalType) }

    predicate Held(os: seq<Occurrence>) { Constrained(os, name, id) }

    predicate Top(e: BoundExpr, position: Position) {
      Named(e, name) && !position.Other? && position.column.id == id
    }

    function Type(): BoundExpr -> bool { Written(name, logicalType) }

    function Beside(): BoundExpr -> bool { ComparedWith(name, id) }
  }

  lemma Both(q: Sought, xs: seq<Occurrence>, ys: seq<Occurrence>)
    ensures q.Typed(xs + ys) <==> q.Typed(xs) || q.Typed(ys)
    ensures q.Held(xs + ys) <==> q.Held(xs) || q.Held(ys)
  {
    assert forall o :: o in xs + ys <==> o in xs || o in ys;
  }

  lemma {:induction false} ExprFound(e: BoundExpr, position: Position, q: Sought)
    ensures q.Typed(InExpr(e, position)) <==> Anywhere(e, q.Type())
    ensures q.Held(InExpr(e, position)) <==> q.Top(e, position) || Anywhere(e, q.Beside())
    decreases e, 1
  {
    match e
    case ClientParameter(_, _) => ParameterFound(e, position, q);
    case Binary(_, _, _) => BinaryFound(e, position, q);
    case Unary(_, _) => UnaryFound(e, position, q);
    case In(_, _, _) => InFound(e, position, q);
    case Case(_, _, _) => CaseFound(e, position, q);
    case ConditionalOutput(_, _) => ConditionalFound(e, position, q);
    case Exists(_) => ExistsFound(e, position, q);
    case Scalar(_, _, _) => ScalarFound(e, position, q);
    case RowNumber(_, _, _) => RowNumberFound(e, position, q);
    case Column(_) => LeafFound(e, position, q);
    case ServerParameter(_, _) => LeafFound(e, position, q);
    case Literal(_) => LeafFound(e, position, q);
    case CountAll(_) => LeafFound(e, position, q);
  }

  lemma LeafFound(e: BoundExpr, position: Position, q: Sought)
    requires e.Column? || e.ServerParameter? || e.Literal? || e.CountAll?
    ensures !q.Typed(InExpr(e, position)) && !Anywhere(e, q.Type())
    ensures !q.Held(InExpr(e, position)) && !q.Top(e, position) && !Anywhere(e, q.Beside())
  {
  }

  lemma ParameterFound(e: BoundExpr, position: Position, q: Sought)
    requires e.ClientParameter?
    ensures q.Typed(InExpr(e, position)) <==> Anywhere(e, q.Type())
    ensures q.Held(InExpr(e, position)) <==> q.Top(e, position) || Anywhere(e, q.Beside())
  {
    assert InExpr(e, position) == [Occurrence(e.name, e.logicalType, position)];
    assert InExpr(e, position)[0] in InExpr(e, position);
  }

  lemma {:induction false} BinaryFound(e: BoundExpr, position: Position, q: Sought)
    requires e.Binary?
    ensures q.Typed(InExpr(e, position)) <==> Anywhere(e, q.Type())
    ensures q.Held(InExpr(e, position)) <==> q.Top(e, position) || Anywhere(e, q.Beside())
    decreases e, 0
  {
    var connective := e.op.And? || e.op.Or?;
    var first := if connective then Other else Beside(e.right);
    var second := if connective then Other else Beside(e.left);
    ExprFound(e.left, first, q);
    ExprFound(e.right, second, q);
    Both(q, InExpr(e.left, first), InExpr(e.right, second));
  }

  lemma {:induction false} InFound(e: BoundExpr, position: Position, q: Sought)
    requires e.In?
    ensures q.Typed(InExpr(e, position)) <==> Anywhere(e, q.Type())
    ensures q.Held(InExpr(e, position)) <==> q.Top(e, position) || Anywhere(e, q.Beside())
    decreases e, 0
  {
    ExprFound(e.expression, Other, q);
    EachFound(e.values, Beside(e.expression), q);
    Both(q, InExpr(e.expression, Other), InEach(e.values, Beside(e.expression)));
  }

  lemma {:induction false} UnaryFound(e: BoundExpr, position: Position, q: Sought)
    requires e.Unary?
    ensures q.Typed(InExpr(e, position)) <==> Anywhere(e, q.Type())
    ensures q.Held(InExpr(e, position)) <==> q.Top(e, position) || Anywhere(e, q.Beside())
    decreases e, 0
  {
    ExprFound(e.inner, Other, q);
  }

  lemma {:induction false} CaseFound(e: BoundExpr, position: Position, q: Sought)
    requires e.Case?
    ensures q.Typed(InExpr(e, position)) <==> Anywhere(e, q.Type())
    ensures q.Held(InExpr(e, position)) <==> q.Top(e, position) || Anywhere(e, q.Beside())
    decreases e, 0
  {
    BranchesFound(e.branches, q);
    OptionFound(e.otherwise, q);
    Both(q, InBranches(e.branches), InOptional(e.otherwise));
  }

  lemma {:induction false} ConditionalFound(e: BoundExpr, position: Position, q: Sought)
    requires e.ConditionalOutput?
    ensures q.Typed(InExpr(e, position)) <==> Anywhere(e, q.Type())
    ensures q.Held(InExpr(e, position)) <==> q.Top(e, position) || Anywhere(e, q.Beside())
    decreases e, 0
  {
    ExprFound(e.value, Other, q);
    ExprFound(e.visibleIf, Other, q);
    Both(q, InExpr(e.value, Other), InExpr(e.visibleIf, Other));
  }

  lemma {:induction false} ExistsFound(e: BoundExpr, position: Position, q: Sought)
    requires e.Exists?
    ensures q.Typed(InExpr(e, position)) <==> Anywhere(e, q.Type())
    ensures q.Held(InExpr(e, position)) <==> q.Top(e, position) || Anywhere(e, q.Beside())
    decreases e, 0
  {
    assert e decreases to e.select;
    SelectFound(e.select, q);
  }

  lemma {:induction false} ScalarFound(e: BoundExpr, position: Position, q: Sought)
    requires e.Scalar?
    ensures q.Typed(InExpr(e, position)) <==> Anywhere(e, q.Type())
    ensures q.Held(InExpr(e, position)) <==> q.Top(e, position) || Anywhere(e, q.Beside())
    decreases e, 0
  {
    EachFound(e.arguments, Other, q);
  }

  lemma {:induction false} RowNumberFound(e: BoundExpr, position: Position, q: Sought)
    requires e.RowNumber?
    ensures q.Typed(InExpr(e, position)) <==> Anywhere(e, q.Type())
    ensures q.Held(InExpr(e, position)) <==> q.Top(e, position) || Anywhere(e, q.Beside())
    decreases e, 0
  {
    OrdersFound(e.orderBy, q);
  }

  lemma {:induction false} OptionFound(e: Option<BoundExpr>, q: Sought)
    ensures q.Typed(InOptional(e)) <==> OptionAnywhere(e, q.Type())
    ensures q.Held(InOptional(e)) <==> OptionAnywhere(e, q.Beside())
    decreases e
  {
    if e.Some? {
      assert e decreases to e.value;
      ExprFound(e.value, Other, q);
    }
  }

  lemma {:induction false} EachFound(es: seq<BoundExpr>, position: Position, q: Sought)
    ensures q.Typed(InEach(es, position)) <==> exists v <- es :: Anywhere(v, q.Type())
    ensures q.Held(InEach(es, position)) <==> exists v <- es :: q.Top(v, position) || Anywhere(v, q.Beside())
    decreases es
  {
    if es != [] {
      assert es decreases to es[0];
      ExprFound(es[0], position, q);
      EachFound(es[1..], position, q);
      Both(q, InExpr(es[0], position), InEach(es[1..], position));
      assert es == [es[0]] + es[1..];
    }
  }

  lemma {:induction false} BranchesFound(bs: seq<Branch>, q: Sought)
    ensures q.Typed(InBranches(bs)) <==>
            exists b <- bs :: Anywhere(b.condition, q.Type()) || Anywhere(b.value, q.Type())
    ensures q.Held(InBranches(bs)) <==>
            exists b <- bs :: Anywhere(b.condition, q.Beside()) || Anywhere(b.value, q.Beside())
    decreases bs
  {
    if bs != [] {
      assert bs decreases to bs[0];
      ExprFound(bs[0].condition, Other, q);
      ExprFound(bs[0].value, Other, q);
      BranchesFound(bs[1..], q);
      Both(q, InExpr(bs[0].condition, Other), InExpr(bs[0].value, Other));
      Both(q, InExpr(bs[0].condition, Other) + InExpr(bs[0].value, Other), InBranches(bs[1..]));
      assert bs == [bs[0]] + bs[1..];
    }
  }

  lemma {:induction false} OrdersFound(os: seq<BoundOrder>, q: Sought)
    ensures q.Typed(InOrders(os)) <==> exists o <- os :: Anywhere(o.expression, q.Type())
    ensures q.Held(InOrders(os)) <==> exists o <- os :: Anywhere(o.expression, q.Beside())
    decreases os
  {
    if os != [] {
      assert os decreases to os[0];
      ExprFound(os[0].expression, Other, q);
      OrdersFound(os[1..], q);
      Both(q, InExpr(os[0].expression, Other), InOrders(os[1..]));
      assert os == [os[0]] + os[1..];
    }
  }

  lemma {:induction false} ProjectionsFound(ps: seq<BoundProjection>, q: Sought)
    ensures q.Typed(InProjections(ps)) <==> exists p <- ps :: Anywhere(p.expression, q.Type())
    ensures q.Held(InProjections(ps)) <==> exists p <- ps :: Anywhere(p.expression, q.Beside())
    decreases ps
  {
    if ps != [] {
      assert ps decreases to ps[0];
      ExprFound(ps[0].expression, Other, q);
      ProjectionsFound(ps[1..], q);
      Both(q, InExpr(ps[0].expression, Other), InProjections(ps[1..]));
      assert ps == [ps[0]] + ps[1..];
    }
  }

  lemma {:induction false} JoinsFound(js: seq<BoundJoin>, q: Sought)
    ensures q.Typed(InJoins(js)) <==> exists j <- js :: Anywhere(j.on, q.Type())
    ensures q.Held(InJoins(js)) <==> exists j <- js :: Anywhere(j.on, q.Beside())
    decreases js
  {
    if js != [] {
      assert js decreases to js[0];
      ExprFound(js[0].on, Other, q);
      JoinsFound(js[1..], q);
      Both(q, InExpr(js[0].on, Other), InJoins(js[1..]));
      assert js == [js[0]] + js[1..];
    }
  }

  lemma {:induction false} SelectFound(s: BoundSelect, q: Sought)
    ensures q.Typed(InSelect(s)) <==> SelectAnywhere(s, q.Type())
    ensures q.Held(InSelect(s)) <==> SelectAnywhere(s, q.Beside())
    decreases s
  {
    var a, b, c, d := InProjections(s.projections), InJoins(s.joins), InOptional(s.filter), InOptional(s.having);
    var e, f, g := InOrders(s.orderBy), InOptional(s.limit), InOptional(s.offset);
    ProjectionsFound(s.projections, q);
    JoinsFound(s.joins, q);
    OptionFound(s.filter, q);
    OptionFound(s.having, q);
    OrdersFound(s.orderBy, q);
    OptionFound(s.limit, q);
    OptionFound(s.offset, q);
    Both(q, a, b);
    Both(q, a + b, c);
    Both(q, a + b + c, d);
    Both(q, a + b + c + d, e);
    Both(q, a + b + c + d + e, f);
    Both(q, a + b + c + d + e + f, g);
  }

  lemma {:induction false} AssignmentsFound(assignments: seq<BoundAssignment>, q: Sought)
    ensures q.Typed(InAssignments(assignments)) <==> AssignedAnywhere(assignments, q.Type(), NoAssignment())
    ensures q.Held(InAssignments(assignments))
       <==> AssignedAnywhere(assignments, q.Beside(), AssignedTo(q.name, q.id))
    decreases |assignments|
  {
    if assignments != [] {
      var a, rest := assignments[0], assignments[1..];
      ExprFound(a.value, Assignment(a.column), q);
      AssignmentsFound(rest, q);
      Both(q, InExpr(a.value, Assignment(a.column)), InAssignments(rest));
      assert assignments == [a] + rest;
    }
  }

  lemma {:induction false} RowsFound(rows: seq<seq<BoundAssignment>>, q: Sought)
    ensures q.Typed(InRows(rows)) <==> exists row <- rows :: AssignedAnywhere(row, q.Type(), NoAssignment())
    ensures q.Held(InRows(rows)) <==> exists row <- rows :: AssignedAnywhere(row, q.Beside(), AssignedTo(q.name, q.id))
    decreases |rows|
  {
    if rows != [] {
      RowsFound(rows[1..], q);
      AssignmentsFound(rows[0], q);
      Both(q, InAssignments(rows[0]), InRows(rows[1..]));
      assert rows == [rows[0]] + rows[1..];
    }
  }

  lemma StatementFound(statement: BoundStatement, q: Sought)
    ensures q.Typed(Occurrences(statement)) <==> WrittenAs(statement, q.name, q.logicalType)
    ensures q.Held(Occurrences(statement)) <==> Constrains(statement, q.name, q.id)
  {
    match statement
    case SelectStatement(select) => SelectFound(select, q);
    case InsertStatement(insert) =>
      RowsFound(insert.rows, q);
      ProjectionsFound(insert.returning, q);
      Both(q, InRows(insert.rows), InProjections(insert.returning));
    case UpdateStatement(update) =>
      var a, b, c := InAssignments(update.assignments), InOptional(update.filter), InProjections(update.returning);
      AssignmentsFound(update.assignments, q);
      OptionFound(update.filter, q);
      ProjectionsFound(update.returning, q);
      Both(q, a, b);
      Both(q, a + b, c);
    case DeleteStatement(delete) =>
      OptionFound(delete.filter, q);
      ProjectionsFound(delete.returning, q);
      Both(q, InOptional(delete.filter), InProjections(delete.returning));
  }

  // ---- What the pass knows, from the statement.

  /** The columns that constrain a name are those it is compared with or assigned to, and no others. */
  lemma ColumnsExact(catalog: Catalog, statement: BoundStatement, name: string, id: ColumnId)
    requires name in Analyze(catalog, statement).parameters
    ensures Knows(Analyze(catalog, statement).parameters[name].columns, id) <==> Constrains(statement, name, id)
  {
    var os := Occurrences(statement);
    AnalysisDescribes(catalog, os);
    var contract := Analyze(catalog, statement).parameters[name];
    assert DescribesOne(catalog, contract, os, name);
    StatementFound(statement, Sought(name, contract.logicalType, id));
  }

  /** Its type is one it is written with; two types for one name are the conflict. */
  lemma TypesExact(catalog: Catalog, statement: BoundStatement)
    ensures var a := Analyze(catalog, statement);
            && (forall name <- a.parameters :: WrittenAs(statement, name, a.parameters[name].logicalType))
            && (a.typeConflict <==> exists name, t, u ::
                  t != u && WrittenAs(statement, name, t) && WrittenAs(statement, name, u))
  {
    var os := Occurrences(statement);
    var a := Analyze(catalog, statement);
    AnalysisDescribes(catalog, os);
    ConflictExact(catalog, os);
    forall name, t
      ensures HasType(os, name, t) <==> WrittenAs(statement, name, t)
    {
      StatementFound(statement, Sought(name, t, ColumnId(0, 0)));
    }
    forall name | name in a.parameters
      ensures WrittenAs(statement, name, a.parameters[name].logicalType)
    {
      assert DescribesOne(catalog, a.parameters[name], os, name);
    }
    ConflictingTypes(os);
  }

  lemma ConflictingTypes(os: seq<Occurrence>)
    ensures Conflicting(os) <==> exists name, t, u :: t != u && HasType(os, name, t) && HasType(os, name, u)
  {
    if Conflicting(os) {
      var o, o' :| o in os && o' in os && o.name == o'.name && o.logicalType != o'.logicalType;
      assert HasType(os, o.name, o.logicalType) && HasType(os, o.name, o'.logicalType);
    }
  }

  // ---- Which requests are accepted.

  /** The values of each type: dates are texts, an integer is one that a double can tell, bytes are limited. */
  predicate OfType(value: LogicalValue, t: LogicalType, maxBytes: nat) {
    match t
    case StringType => value.String?
    case DateType => value.String?
    case DateTimeType => value.String?
    case InstantType => value.String?
    case BooleanType => value.Boolean?
    case IntegerType => value.Int64? && -MAX_SAFE_INTEGER <= value.integer <= MAX_SAFE_INTEGER
    case Int64Type => value.Int64?
    case NumberType => value.Number?
    case BytesType => value.Bytes? && |value.bytes| <= maxBytes
    case JsonType => value.Json?
  }

  /** A NULL needs a nullable column, any other value its contract, and bytes their limit. */
  predicate MeetsColumn(value: LogicalValue, column: Descriptor, maxBytes: nat) {
    if value.Null? then column.nullable
    else column.accepts(value) && (value.Bytes? ==> |value.bytes| <= maxBytes)
  }

  /** Some type the name is written with has the value. */
  ghost predicate FitsType(statement: BoundStatement, name: string, value: LogicalValue, maxBytes: nat) {
    exists t :: WrittenAs(statement, name, t) && OfType(value, t, maxBytes)
  }

  lemma TypeExact(value: LogicalValue, t: LogicalType, maxBytes: nat)
    ensures ValueMatches(value, t, maxBytes) <==> OfType(value, t, maxBytes)
  {
  }

  /** The value fits, or is a NULL where all mentions may be; every column it reaches accepts it. */
  ghost predicate ValueFits(
    catalog: Catalog, statement: BoundStatement, name: string, value: LogicalValue, maxBytes: nat)
  {
    && ((value.Null? && AssignedOnly(catalog, statement, name)) || FitsType(statement, name, value, maxBytes))
    && forall id :: Constrains(statement, name, id) ==>
         id in catalog && MeetsColumn(value, catalog[id], maxBytes)
  }

  ghost predicate OneTypeEach(statement: BoundStatement) {
    forall name, t, u :: WrittenAs(statement, name, t) && WrittenAs(statement, name, u) ==> t == u
  }

  lemma ValueExact(catalog: Catalog, statement: BoundStatement, name: string, value: LogicalValue, maxBytes: nat)
    requires name in Analyze(catalog, statement).parameters && OneTypeEach(statement)
    ensures Accepts(catalog, Analyze(catalog, statement).parameters[name], value, maxBytes)
       <==> ValueFits(catalog, statement, name, value, maxBytes)
  {
    var contract := Analyze(catalog, statement).parameters[name];
    NullableExact(catalog, statement, name);
    TypesExact(catalog, statement);
    assert WrittenAs(statement, name, contract.logicalType);
    TypeExact(value, contract.logicalType, maxBytes);
    forall id
      ensures Knows(contract.columns, id) <==> Constrains(statement, name, id)
    {
      ColumnsExact(catalog, statement, name, id);
    }
    ColumnsAccept(catalog, contract.columns, value, maxBytes);
  }

  lemma ColumnsAccept(catalog: Catalog, columns: seq<BoundColumn>, value: LogicalValue, maxBytes: nat)
    ensures (forall column <- columns :: ColumnAccepts(catalog, column, value, maxBytes))
       <==> forall id :: Knows(columns, id) ==> id in catalog && MeetsColumn(value, catalog[id], maxBytes)
  {
    forall column | column in columns
      ensures Knows(columns, column.id)
    {
    }
  }

  lemma NamesExact(catalog: Catalog, statement: BoundStatement, values: Bindings)
    ensures Analyze(catalog, statement).parameters.Keys == values.Keys
       <==> forall name :: name in values <==> StatementMentions(statement, name)
  {
    var a := Analyze(catalog, statement);
    forall name
      ensures name in a.parameters <==> StatementMentions(statement, name)
    {
      NullableExact(catalog, statement, name);
    }
    assert a.parameters.Keys == values.Keys <==> forall name :: name in a.parameters <==> name in values;
  }

  /**
    * A request is accepted exactly when it gives a value to the names of the statement and no
    * others, no name has two types, and every value fits where its name stands.
    */
  lemma RequestAcceptedExactly(catalog: Catalog, statement: BoundStatement, values: Bindings, maxBytes: nat)
    ensures Verdict(catalog, Analyze(catalog, statement), values, maxBytes).None?
       <==> (&& (forall name :: name in values <==> StatementMentions(statement, name))
             && OneTypeEach(statement)
             && forall name <- values :: ValueFits(catalog, statement, name, values[name], maxBytes))
    ensures Verdict(catalog, Analyze(catalog, statement), values, maxBytes) == Some(ParameterMismatch)
       <==> exists name :: !(name in values <==> StatementMentions(statement, name))
  {
    var a := Analyze(catalog, statement);
    NamesExact(catalog, statement, values);
    TypesExact(catalog, statement);
    assert a.typeConflict <==> !OneTypeEach(statement);
    forall name | name in a.parameters && name in values && OneTypeEach(statement)
      ensures Accepts(catalog, a.parameters[name], values[name], maxBytes)
         <==> ValueFits(catalog, statement, name, values[name], maxBytes)
    {
      ValueExact(catalog, statement, name, values[name], maxBytes);
    }
  }
}
