/**
  * The binder of crates/policysql-parser/src/lib.rs: names become column identities, and a derived
  * table or CTE over one resource disappears into a select over that resource. Type inference
  * and the separate grammar of conditions, which only refuse more, are not modelled.
  */
module Binder {
  import opened Core
  import opened Text
  import opened Surface
  import I = Ir

  datatype BindError =
    | MissingFrom | UnknownResource | UnknownColumn | AmbiguousColumn | ImplicitRowId | DuplicateAlias
    | DuplicateResultName | InvalidResultName | InvalidLimit | Unsupported | ProjectionLimit

  type Bound<T> = Result<T, BindError>

  /** A source in scope: its resource, its qualifier, and its visible columns. */
  datatype BindScope = BindScope(resource: ResourceId, qualifier: string, columns: map<string, Descriptor>)

  function BindTable(cat: Catalog, table: string, alias: Option<string>): Bound<BindScope> {
    if LowerText(table) !in cat.tables then Err(UnknownResource)
    else
      var info := cat.tables[LowerText(table)];
      var qualifier := match alias case Some(name) => name case None => table;
      Ok(BindScope(info.id, LowerText(qualifier), info.columns))
  }

  predicate IsRowId(name: string) {
    LowerText(name) == "rowid" || LowerText(name) == "_rowid_" || LowerText(name) == "oid"
  }

  /** The first scope with the qualifier. */
  function FirstScope(scopes: seq<BindScope>, qualifier: string): Option<BindScope> {
    if scopes == [] then None
    else if scopes[0].qualifier == qualifier then Some(scopes[0])
    else FirstScope(scopes[1..], qualifier)
  }

  /** All columns with the name, over all scopes. */
  function Holders(scopes: seq<BindScope>, key: string): seq<Descriptor> {
    if scopes == [] then []
    else (if key in scopes[0].columns then [scopes[0].columns[key]] else []) + Holders(scopes[1..], key)
  }

  function Resolve(scopes: seq<BindScope>, qualifier: Option<string>, name: string): Bound<Descriptor> {
    var key := LowerText(name);
    if IsRowId(name) then Err(ImplicitRowId)
    else if qualifier.Some? then
      match FirstScope(scopes, LowerText(qualifier.value))
      case None => Err(UnknownResource)
      case Some(scope) => if key in scope.columns then Ok(scope.columns[key]) else Err(UnknownColumn)
    else
      var holders := Holders(scopes, key);
      if holders == [] then Err(UnknownColumn) else if |holders| > 1 then Err(AmbiguousColumn) else Ok(holders[0])
  }

  predicate InScope(scopes: seq<BindScope>, resource: ResourceId) {
    exists i | 0 <= i < |scopes| :: scopes[i].resource == resource
  }

  predicate Qualified(scopes: seq<BindScope>, qualifier: string) {
    exists i | 0 <= i < |scopes| :: scopes[i].qualifier == qualifier
  }

  function BindExpr(cat: Catalog, scopes: seq<BindScope>, e: Expr): Bound<I.BoundExpr>
    decreases e, 0
  {
    match e
    case Name(qualifier, name) =>
      var d :- Resolve(scopes, qualifier, name);
      Ok(I.Column(d.column))
    case Constant(value) => Ok(I.Literal(value))
    case Parameter(name, logicalType) => Ok(I.ClientParameter(name, logicalType))
    case Infix(op, left, right) =>
      var x :- BindExpr(cat, scopes, left);
      var y :- BindExpr(cat, scopes, right);
      Ok(I.Binary(op, x, y))
    case Prefix(op, inner) =>
      var x :- BindExpr(cat, scopes, inner);
      Ok(I.Unary(op, x))
    case Among(expression, values, negated) =>
      var x :- BindExpr(cat, scopes, expression);
      var xs :- BindAll(cat, scopes, values);
      Ok(I.In(x, xs, negated))
    case Call(routine, arguments, logicalType) =>
      var xs :- BindAll(cat, scopes, arguments);
      Ok(I.Scalar(routine, xs, logicalType))
    case Choice(arms, otherwise, logicalType) =>
      if arms == [] then Err(Unsupported)
      else
        var branches :- BindArms(cat, scopes, arms);
        var other :- BindOption(cat, scopes, otherwise);
        Ok(I.Case(branches, other, logicalType))
    case CountStar => if scopes == [] then Err(MissingFrom) else Ok(I.CountAll(scopes[|scopes| - 1].resource))
    case Ranked(_, _) => Err(Unsupported)
    case ExistsIn(table, alias, filter) =>
      var source :- BindTable(cat, table, alias);
      if InScope(scopes, source.resource) then Err(Unsupported)
      else
        var x :- BindOption(cat, scopes + [source], filter);
        var one := I.BoundProjection(I.Literal(Int64(1)), "exists_value");
        Ok(I.Exists(I.BoundSelect(source.resource, [], [one], x, [], None, [], None, None)))
  }

  function BindAll(cat: Catalog, scopes: seq<BindScope>, es: seq<Expr>): Bound<seq<I.BoundExpr>>
    decreases es, 0
  {
    if es == [] then Ok([])
    else
      assert es decreases to es[0];
      var x :- BindExpr(cat, scopes, es[0]);
      var rest :- BindAll(cat, scopes, es[1..]);
      Ok([x] + rest)
  }

  function BindArms(cat: Catalog, scopes: seq<BindScope>, arms: seq<Arm>): Bound<seq<I.Branch>>
    decreases arms, 0
  {
    if arms == [] then Ok([])
    else
      assert arms decreases to arms[0];
      var condition :- BindExpr(cat, scopes, arms[0].condition);
      var value :- BindExpr(cat, scopes, arms[0].value);
      var rest :- BindArms(cat, scopes, arms[1..]);
      Ok([I.Branch(condition, value)] + rest)
  }

  function BindOption(cat: Catalog, scopes: seq<BindScope>, e: Option<Expr>): Bound<Option<I.BoundExpr>>
    decreases e, 0
  {
    if e.None? then Ok(None)
    else
      assert e decreases to e.value;
      var x :- BindExpr(cat, scopes, e.value);
      Ok(Some(x))
  }

  /** Joins in order; each condition sees the sources before it and its own. */
  function BindJoins(cat: Catalog, scopes: seq<BindScope>, joins: seq<Join>): Bound<(seq<I.BoundJoin>, seq<BindScope>)>
    decreases |joins|
  {
    if joins == [] then Ok(([], scopes))
    else
      var joined :- BindTable(cat, joins[0].table, joins[0].alias);
      if InScope(scopes, joined.resource) then Err(Unsupported)
      else if Qualified(scopes, joined.qualifier) then Err(DuplicateAlias)
      else
        var on :- BindExpr(cat, scopes + [joined], joins[0].on);
        var (rest, all) :- BindJoins(cat, scopes + [joined], joins[1..]);
        Ok(([I.BoundJoin(joined.resource, joins[0].kind, on)] + rest, all))
  }

  // ----- Windows, grouping and ordering: direct columns only -----

  function BindDirect(scopes: seq<BindScope>, e: Expr): Bound<Descriptor> {
    if e.Name? then Resolve(scopes, e.qualifier, e.name) else Err(Unsupported)
  }

  function BindDirects(scopes: seq<BindScope>, es: seq<Expr>): Bound<seq<I.BoundColumn>> {
    if es == [] then Ok([])
    else
      var d :- BindDirect(scopes, es[0]);
      var rest :- BindDirects(scopes, es[1..]);
      Ok([d.column] + rest)
  }

  function BindWindowOrders(scopes: seq<BindScope>, orders: seq<Order>): Bound<seq<I.BoundOrder>> {
    if orders == [] then Ok([])
    else
      var d :- BindDirect(scopes, orders[0].expression);
      var rest :- BindWindowOrders(scopes, orders[1..]);
      Ok([I.BoundOrder(I.Column(d.column), Direction(orders[0]))] + rest)
  }

  function Direction(order: Order): I.SortDirection {
    if order.descending then I.Descending else I.Ascending
  }

  /** ROW_NUMBER over columns of one resource; anything else is bound as an expression. */
  function BindProjected(cat: Catalog, scopes: seq<BindScope>, e: Expr): Bound<I.BoundExpr> {
    match e
    case Ranked(partitionBy, orderBy) =>
      if orderBy == [] then Err(Unsupported)
      else
        var partition :- BindDirects(scopes, partitionBy);
        var orders :- BindWindowOrders(scopes, orderBy);
        var resource := orders[0].expression.column.id.resource;
        if exists i | 0 <= i < |partition| :: partition[i].id.resource != resource then Err(Unsupported)
        else if exists i | 0 <= i < |orders| ::
            !orders[i].expression.Column? || orders[i].expression.column.id.resource != resource then
          Err(Unsupported)
        else Ok(I.RowNumber(resource, partition, orders))
    case _ => BindExpr(cat, scopes, e)
  }

  /** The bound projection with the output name. */
  function ProjectionNamed(ps: seq<I.BoundProjection>, name: string): Option<I.BoundExpr> {
    if ps == [] then None
    else if LowerText(ps[0].outputName) == LowerText(name) then Some(ps[0].expression)
    else ProjectionNamed(ps[1..], name)
  }

  /** A column in scope is preferred; only an unknown unqualified name is looked for among the outputs. */
  function BindOrderTerm(scopes: seq<BindScope>, ps: seq<I.BoundProjection>, e: Expr): Bound<I.BoundExpr> {
    match BindDirect(scopes, e)
    case Ok(d) => Ok(I.Column(d.column))
    case Err(error) =>
      if error != UnknownColumn || e.qualifier.Some? then Err(error)
      else
        match ProjectionNamed(ps, e.name)
        case None => Err(UnknownColumn)
        case Some(x) => Ok(x)
  }

  function BindOrders(
      scopes: seq<BindScope>, ps: seq<I.BoundProjection>, orders: seq<Order>): Bound<seq<I.BoundOrder>> {
    if orders == [] then Ok([])
    else
      var x :- BindOrderTerm(scopes, ps, orders[0].expression);
      var rest :- BindOrders(scopes, ps, orders[1..]);
      Ok([I.BoundOrder(x, Direction(orders[0]))] + rest)
  }

  /** LIMIT and OFFSET take a number that is not negative, or a parameter. */
  function BindLimit(e: Expr): Bound<I.BoundExpr> {
    match e
    case Constant(Int64(n)) => if n < 0 then Err(InvalidLimit) else Ok(I.Literal(Int64(n)))
    case Parameter(name, logicalType) => Ok(I.ClientParameter(name, logicalType))
    case _ => Err(InvalidLimit)
  }

  datatype BoundClauses = BoundClauses(
    groupBy: seq<I.BoundColumn>, having: Option<I.BoundExpr>, orderBy: seq<I.BoundOrder>,
    limit: Option<I.BoundExpr>, offset: Option<I.BoundExpr>)

  function BindClauses(
    cat: Catalog, scopes: seq<BindScope>, ps: seq<I.BoundProjection>, clauses: Clauses): Bound<BoundClauses>
  {
    if clauses.groupBy == [] && clauses.having.Some? then Err(Unsupported)
    else
      var groups :- BindDirects(scopes, clauses.groupBy);
      var having :- BindOption(cat, scopes, clauses.having);
      var orders :- BindOrders(scopes, ps, clauses.orderBy);
      if clauses.limit.None? then Ok(BoundClauses(groups, having, orders, None, None))
      else
        var limit :- BindLimit(clauses.limit.value.count);
        if clauses.limit.value.offset.None? then Ok(BoundClauses(groups, having, orders, Some(limit), None))
        else
          var offset :- BindLimit(clauses.limit.value.offset.value);
          Ok(BoundClauses(groups, having, orders, Some(limit), Some(offset)))
  }

  lemma PlainClauses(cat: Catalog, scopes: seq<BindScope>, ps: seq<I.BoundProjection>)
    ensures BindClauses(cat, scopes, ps, PLAIN) == Ok(BoundClauses([], None, [], None, None))
  {
    assert BindOption(cat, scopes, None) == Ok(None);
  }

  /** A projected column; without an alias it is called what the catalog calls the column. */
  function BindColumn(cat: Catalog, scopes: seq<BindScope>, column: Column): Bound<I.BoundProjection> {
    var x :- BindProjected(cat, scopes, column.expression);
    if column.alias.Some? then Ok(I.BoundProjection(x, column.alias.value))
    else if x.Column? then
      if x.column.id in cat.names then Ok(I.BoundProjection(x, cat.names[x.column.id])) else Err(UnknownColumn)
    else if x.Scalar? then Ok(I.BoundProjection(x, FunctionName(x.routine)))
    else if x.CountAll? then Ok(I.BoundProjection(x, "count"))
    else if x.RowNumber? then Ok(I.BoundProjection(x, "row_number"))
    else Err(InvalidResultName)
  }

  function BindColumns(cat: Catalog, scopes: seq<BindScope>, columns: seq<Column>): Bound<seq<I.BoundProjection>> {
    if columns == [] then Ok([])
    else
      var p :- BindColumn(cat, scopes, columns[0]);
      var rest :- BindColumns(cat, scopes, columns[1..]);
      Ok([p] + rest)
  }

  predicate UniqueNames(ps: seq<I.BoundProjection>) {
    forall i, j | 0 <= i < j < |ps| :: LowerText(ps[i].outputName) != LowerText(ps[j].outputName)
  }

  /** The columns a derived source shows: plain columns only, each under its output name. */
  function Shown(cat: Catalog, ps: seq<I.BoundProjection>): Bound<map<string, Descriptor>> {
    if ps == [] then Ok(map[])
    else if !ps[0].expression.Column? then Err(Unsupported)
    else if ps[0].expression.column.id !in cat.names then Err(UnknownColumn)
    else
      var column, key := ps[0].expression.column, LowerText(ps[0].outputName);
      var rest :- Shown(cat, ps[1..]);
      if key in rest then Err(DuplicateResultName) else Ok(rest[key := Descriptor(column, cat.names[column.id])])
  }

  /** The root scope and the predicate it brings along. */
  function BindSource(cat: Catalog, source: Source): Bound<(BindScope, Option<I.BoundExpr>)>
    decreases source, 0
  {
    match source
    case Table(name, alias) =>
      var scope :- BindTable(cat, name, alias);
      Ok((scope, None))
    case Derived(query, alias) =>
      var inner :- BindSelect(cat, query);
      if inner.joins != [] || query.clauses != PLAIN then Err(Unsupported)
      else
        var columns :- Shown(cat, inner.projections);
        Ok((BindScope(inner.resource, LowerText(alias), columns), inner.filter))
  }

  function Merge(inherited: Option<I.BoundExpr>, outer: Option<I.BoundExpr>): Option<I.BoundExpr> {
    if inherited.Some? && outer.Some? then Some(I.Binary(I.And, inherited.value, outer.value))
    else if inherited.Some? then inherited
    else outer
  }

  /** Binding a query: the derived source is gone, its predicate comes first. */
  function BindSelect(cat: Catalog, s: Select): Bound<I.BoundSelect>
    decreases s, 1
  {
    var (root, inherited) :- BindSource(cat, s.source);
    if s.columns == [] then Err(ProjectionLimit)
    else
      var (joins, scopes) :- BindJoins(cat, [root], s.joins);
      var projections :- BindColumns(cat, scopes, s.columns);
      if exists i | 0 <= i < |projections| :: SERVER_PARAMETER_PREFIX <= LowerText(projections[i].outputName) then
        Err(InvalidResultName)
      else if !UniqueNames(projections) then Err(DuplicateResultName)
      else
        var filter :- BindOption(cat, scopes, s.filter);
        var tail :- BindClauses(cat, scopes, projections, s.clauses);
        Ok(I.BoundSelect(root.resource, joins, projections, Merge(inherited, filter),
                         tail.groupBy, tail.having, tail.orderBy, tail.limit, tail.offset))
  }

  /** The scopes in which a query's columns and condition are bound. */
  function SelectScope(cat: Catalog, s: Select): Bound<seq<BindScope>> {
    var (root, _) :- BindSource(cat, s.source);
    var (_, scopes) :- BindJoins(cat, [root], s.joins);
    Ok(scopes)
  }

  // ----- The binding state -----

  /** The state that joins extend in place. */
  class BindState {
    const cat: Catalog
    var scopes: seq<BindScope>

    constructor (cat: Catalog, root: BindScope)
      ensures this.cat == cat && scopes == [root]
    {
      this.cat := cat;
      scopes := [root];
    }

    method Joins(joins: seq<Join>) returns (r: Bound<seq<I.BoundJoin>>)
      modifies this
      ensures match BindJoins(cat, old(scopes), joins)
              case Ok((bound, all)) => r == Ok(bound) && scopes == all
              case Err(error) => r == Err(error)
    {
      ghost var spec := BindJoins(cat, scopes, joins);
      var output: seq<I.BoundJoin> := [];
      assert joins[0..] == joins;
      JoinedNothing(spec);
      for i := 0 to |joins|
        invariant spec == Joined(output, BindJoins(cat, scopes, joins[i..]))
      {
        var join := joins[i];
        assert joins[i..][0] == join && joins[i..][1..] == joins[i + 1..];
        var joined :- BindTable(cat, join.table, join.alias);
        if exists k | 0 <= k < |scopes| :: scopes[k].resource == joined.resource { return Err(Unsupported); }
        if exists k | 0 <= k < |scopes| :: scopes[k].qualifier == joined.qualifier { return Err(DuplicateAlias); }
        scopes := scopes + [joined];
        var on :- BindExpr(cat, scopes, join.on);
        JoinedTwice(output, [I.BoundJoin(joined.resource, join.kind, on)], BindJoins(cat, scopes, joins[i + 1..]));
        output := output + [I.BoundJoin(joined.resource, join.kind, on)];
      }
      assert output + [] == output;
      return Ok(output);
    }
  }

  function Joined(
      done: seq<I.BoundJoin>, rest: Bound<(seq<I.BoundJoin>, seq<BindScope>)>)
      : Bound<(seq<I.BoundJoin>, seq<BindScope>)> {
    match rest
    case Ok((joins, scopes)) => Ok((done + joins, scopes))
    case Err(error) => Err(error)
  }

  lemma JoinedNothing(rest: Bound<(seq<I.BoundJoin>, seq<BindScope>)>)
    ensures Joined([], rest) == rest
  {
    if rest.Ok? { assert [] + rest.value.0 == rest.value.0; }
  }

  lemma JoinedTwice(a: seq<I.BoundJoin>, b: seq<I.BoundJoin>, rest: Bound<(seq<I.BoundJoin>, seq<BindScope>)>)
    ensures Joined(a, Joined(b, rest)) == Joined(a + b, rest)
  {
    if rest.Ok? { assert a + (b + rest.value.0) == a + b + rest.value.0; }
  }
}
