/**
  * What the binder refuses: whatever it binds has sources that can be told apart, outputs the caller
  * may name, no row identifier, no negative bound, and derived tables that show plain rows.
  */
module BoundFit {
  import opened Core
  import opened Text
  import opened Surface
  import opened Binder
  import I = Ir

  // ----- Sources -----

  /** The name by which a table is meant: its alias if it has one. */
  function CalledBy(table: string, alias: Option<string>): string {
    if alias == None then LowerText(table) else LowerText(alias.value)
  }

  function RootCalledBy(source: Source): string {
    match source
    case Table(name, alias) => CalledBy(name, alias)
    case Derived(_, alias) => LowerText(alias)
  }

  /** The names of a query's sources, as written. */
  function SourceNames(s: Select): seq<string> {
    [RootCalledBy(s.source)] + JoinNames(s.joins)
  }

  function JoinNames(joins: seq<Join>): seq<string> {
    if joins == [] then [] else [CalledBy(joins[0].table, joins[0].alias)] + JoinNames(joins[1..])
  }

  predicate Distinct<T(==)>(items: seq<T>) {
    forall i, j | 0 <= i < j < |items| :: items[i] != items[j]
  }

  function QualifiersOf(scopes: seq<BindScope>): seq<string> {
    seq(|scopes|, i requires 0 <= i < |scopes| => scopes[i].qualifier)
  }

  function ResourcesOf(scopes: seq<BindScope>): seq<ResourceId> {
    seq(|scopes|, i requires 0 <= i < |scopes| => scopes[i].resource)
  }

  function JoinedResources(joins: seq<I.BoundJoin>): seq<ResourceId> {
    if joins == [] then [] else [joins[0].resource] + JoinedResources(joins[1..])
  }

  lemma {:induction false} JoinsFit(cat: Catalog, scopes: seq<BindScope>, joins: seq<Join>)
    requires BindJoins(cat, scopes, joins).Ok?
    requires Distinct(QualifiersOf(scopes)) && Distinct(ResourcesOf(scopes))
    ensures var (bound, all) := BindJoins(cat, scopes, joins).value;
            && Distinct(QualifiersOf(all)) && Distinct(ResourcesOf(all))
            && QualifiersOf(all) == QualifiersOf(scopes) + JoinNames(joins)
            && ResourcesOf(all) == ResourcesOf(scopes) + JoinedResources(bound)
    decreases |joins|
  {
    if joins != [] {
      var joined := BindTable(cat, joins[0].table, joins[0].alias).value;
      var next := scopes + [joined];
      assert QualifiersOf(next) == QualifiersOf(scopes) + [CalledBy(joins[0].table, joins[0].alias)];
      assert ResourcesOf(next) == ResourcesOf(scopes) + [joined.resource];
      Fresh(scopes, joined);
      JoinsFit(cat, next, joins[1..]);
    }
  }

  lemma Fresh(scopes: seq<BindScope>, joined: BindScope)
    requires Distinct(QualifiersOf(scopes)) && Distinct(ResourcesOf(scopes))
    requires !InScope(scopes, joined.resource) && !Qualified(scopes, joined.qualifier)
    ensures Distinct(QualifiersOf(scopes + [joined])) && Distinct(ResourcesOf(scopes + [joined]))
  {
    var qs, rs := QualifiersOf(scopes), ResourcesOf(scopes);
    forall i | 0 <= i < |scopes|
      ensures QualifiersOf(scopes + [joined])[i] == qs[i] && ResourcesOf(scopes + [joined])[i] == rs[i]
      ensures qs[i] != joined.qualifier && rs[i] != joined.resource
    {
    }
  }

  // ----- Expressions -----

  /** A name that stands for the row identifier, anywhere in the expression. */
  predicate NamesRowId(e: Expr)
    decreases e
  {
    match e
    case Name(_, name) => LowerText(name) in {"rowid", "_rowid_", "oid"}
    case Infix(_, left, right) => NamesRowId(left) || NamesRowId(right)
    case Prefix(_, inner) => NamesRowId(inner)
    case Among(x, values, _) => NamesRowId(x) || exists v | v in values :: NamesRowId(v)
    case Call(_, arguments, _) => exists v | v in arguments :: NamesRowId(v)
    case Choice(arms, otherwise, _) =>
      || (exists arm: Arm | arm in arms :: NamesRowId(arm.condition) || NamesRowId(arm.value))
      || (otherwise.Some? && NamesRowId(otherwise.value))
    case Ranked(partitionBy, orderBy) =>
      || (exists v | v in partitionBy :: NamesRowId(v))
      || (exists o: Order | o in orderBy :: NamesRowId(o.expression))
    case ExistsIn(_, _, filter) => filter.Some? && NamesRowId(filter.value)
    case _ => false
  }

  lemma {:induction false} RowIdRefused(cat: Catalog, scopes: seq<BindScope>, e: Expr)
    requires BindExpr(cat, scopes, e).Ok?
    ensures !NamesRowId(e)
    decreases e, 1
  {
    match e
    case Infix(_, left, right) =>
      RowIdRefused(cat, scopes, left);
      RowIdRefused(cat, scopes, right);
    case Prefix(_, inner) => RowIdRefused(cat, scopes, inner);
    case Among(x, values, _) =>
      RowIdRefused(cat, scopes, x);
      RowIdRefusedInAll(cat, scopes, values);
    case Call(_, arguments, _) => RowIdRefusedInAll(cat, scopes, arguments);
    case Choice(arms, otherwise, _) =>
      RowIdRefusedInArms(cat, scopes, arms);
      if otherwise.Some? {
        RowIdRefused(cat, scopes, otherwise.value);
      }
    case ExistsIn(table, alias, filter) =>
      if filter.Some? {
        RowIdRefused(cat, scopes + [BindTable(cat, table, alias).value], filter.value);
      }
    case _ =>
  }

  lemma {:induction false} RowIdRefusedInAll(cat: Catalog, scopes: seq<BindScope>, es: seq<Expr>)
    requires BindAll(cat, scopes, es).Ok?
    ensures forall x | x in es :: !NamesRowId(x)
    decreases es, 0
  {
    if es != [] {
      RowIdRefused(cat, scopes, es[0]);
      RowIdRefusedInAll(cat, scopes, es[1..]);
    }
  }

  lemma {:induction false} RowIdRefusedInArms(cat: Catalog, scopes: seq<BindScope>, arms: seq<Arm>)
    requires BindArms(cat, scopes, arms).Ok?
    ensures forall arm: Arm | arm in arms :: !NamesRowId(arm.condition) && !NamesRowId(arm.value)
    decreases arms, 0
  {
    if arms != [] {
      assert arms decreases to arms[0];
      RowIdRefused(cat, scopes, arms[0].condition);
      RowIdRefused(cat, scopes, arms[0].value);
      RowIdRefusedInArms(cat, scopes, arms[1..]);
    }
  }

  lemma {:induction false} DirectsFit(scopes: seq<BindScope>, es: seq<Expr>)
    requires BindDirects(scopes, es).Ok?
    ensures forall x | x in es :: x.Name? && !NamesRowId(x)
  {
    if es != [] {
      DirectsFit(scopes, es[1..]);
    }
  }

  lemma {:induction false} WindowOrdersFit(scopes: seq<BindScope>, orders: seq<Order>)
    requires BindWindowOrders(scopes, orders).Ok?
    ensures forall o: Order | o in orders :: o.expression.Name? && !NamesRowId(o.expression)
    ensures forall o: I.BoundOrder | o in BindWindowOrders(scopes, orders).value :: o.expression.Column?
    ensures |BindWindowOrders(scopes, orders).value| == |orders|
  {
    if orders != [] {
      WindowOrdersFit(scopes, orders[1..]);
    }
  }

  /** ROW_NUMBER ranks by at least one column, over columns of one resource. */
  predicate WindowFit(e: I.BoundExpr) {
    e.RowNumber? ==>
      && e.orderBy != []
      && (forall column | column in e.partitionBy :: column.id.resource == e.resource)
      && forall o: I.BoundOrder | o in e.orderBy ::
           o.expression.Column? && o.expression.column.id.resource == e.resource
  }

  /** COUNT(*) is charged to the last source. */
  predicate CountFit(e: I.BoundExpr, resources: seq<ResourceId>) {
    e.CountAll? ==> resources != [] && e.resource == resources[|resources| - 1]
  }

  lemma ProjectedFit(cat: Catalog, scopes: seq<BindScope>, e: Expr)
    requires BindProjected(cat, scopes, e).Ok?
    ensures !NamesRowId(e) && WindowFit(BindProjected(cat, scopes, e).value)
    ensures BindProjected(cat, scopes, e).value.RowNumber? <==> e.Ranked?
    ensures CountFit(BindProjected(cat, scopes, e).value, ResourcesOf(scopes))
  {
    if e.Ranked? {
      DirectsFit(scopes, e.partitionBy);
      WindowOrdersFit(scopes, e.orderBy);
    } else {
      RowIdRefused(cat, scopes, e);
      NoWindowInside(cat, scopes, e);
    }
  }

  /** Inside an expression there is no ROW_NUMBER to bind. */
  lemma NoWindowInside(cat: Catalog, scopes: seq<BindScope>, e: Expr)
    requires BindExpr(cat, scopes, e).Ok?
    ensures !BindExpr(cat, scopes, e).value.RowNumber? && !e.Ranked?
  {
  }

  lemma {:induction false} ColumnsFit(cat: Catalog, scopes: seq<BindScope>, columns: seq<Column>)
    requires BindColumns(cat, scopes, columns).Ok?
    ensures |BindColumns(cat, scopes, columns).value| == |columns|
    ensures forall column: Column | column in columns :: !NamesRowId(column.expression)
    ensures forall p: I.BoundProjection | p in BindColumns(cat, scopes, columns).value ::
              WindowFit(p.expression) && CountFit(p.expression, ResourcesOf(scopes))
  {
    if columns != [] {
      ProjectedFit(cat, scopes, columns[0].expression);
      ColumnsFit(cat, scopes, columns[1..]);
    }
  }

  lemma {:induction false} OrdersFit(scopes: seq<BindScope>, ps: seq<I.BoundProjection>, orders: seq<Order>)
    requires BindOrders(scopes, ps, orders).Ok?
    ensures forall o: Order | o in orders :: o.expression.Name? && !NamesRowId(o.expression)
  {
    if orders != [] {
      OrdersFit(scopes, ps, orders[1..]);
    }
  }

  // ----- Clauses -----

  /** A number of rows: not negative as written, or left to a parameter. */
  predicate BoundFits(e: Option<I.BoundExpr>) {
    e.Some? ==> e.value.ClientParameter? || (e.value.Literal? && e.value.literal.Int64? && e.value.literal.integer >= 0)
  }

  /** Which clauses may stand together. */
  predicate ClausesFit(b: I.BoundSelect) {
    && (b.having.Some? ==> b.groupBy != [])
    && BoundFits(b.limit) && BoundFits(b.offset) && (b.offset.Some? ==> b.limit.Some?)
  }

  /** Output names can be told apart, whatever their case, and none is the compiler's own. */
  predicate OutputsFit(ps: seq<I.BoundProjection>) {
    && ps != []
    && (forall i, j | 0 <= i < |ps| && 0 <= j < |ps| ::
          LowerText(ps[i].outputName) == LowerText(ps[j].outputName) ==> i == j)
    && (forall p: I.BoundProjection | p in ps :: !Prefixed(SERVER_PARAMETER_PREFIX, LowerText(p.outputName)))
    && forall p: I.BoundProjection | p in ps :: WindowFit(p.expression)
  }

  predicate Prefixed(prefix: string, name: string) {
    |prefix| <= |name| && name[..|prefix|] == prefix
  }

  /** A derived table, at any depth, joins nothing and groups, orders and cuts nothing. */
  predicate DerivedPlain(source: Source) {
    match source
    case Table(_, _) => true
    case Derived(query, _) =>
      && query.joins == [] && query.clauses.groupBy == [] && query.clauses.having == None
      && query.clauses.orderBy == [] && query.clauses.limit == None
      && DerivedPlain(query.source)
  }

  /** No clause of the query, or of a query it reads from, names a row identifier. */
  predicate NoRowId(s: Select) {
    && (s.source.Derived? ==> NoRowId(s.source.query))
    && (forall j: Join | j in s.joins :: !NamesRowId(j.on))
    && (forall column: Column | column in s.columns :: !NamesRowId(column.expression))
    && (s.filter.Some? ==> !NamesRowId(s.filter.value))
    && (forall x | x in s.clauses.groupBy :: !NamesRowId(x))
    && (s.clauses.having.Some? ==> !NamesRowId(s.clauses.having.value))
    && forall o: Order | o in s.clauses.orderBy :: !NamesRowId(o.expression)
  }

  lemma {:induction false} JoinConditionsFit(cat: Catalog, scopes: seq<BindScope>, joins: seq<Join>)
    requires BindJoins(cat, scopes, joins).Ok?
    ensures |BindJoins(cat, scopes, joins).value.0| == |joins|
    ensures forall j: Join | j in joins :: !NamesRowId(j.on)
    decreases |joins|
  {
    if joins != [] {
      var next := scopes + [BindTable(cat, joins[0].table, joins[0].alias).value];
      RowIdRefused(cat, next, joins[0].on);
      JoinConditionsFit(cat, next, joins[1..]);
    }
  }

  lemma {:induction false} SourceFits(cat: Catalog, source: Source)
    requires BindSource(cat, source).Ok?
    ensures DerivedPlain(source) && (source.Derived? ==> NoRowId(source.query))
    ensures BindSource(cat, source).value.0.qualifier == RootCalledBy(source)
    decreases source, 0
  {
    if source.Derived? {
      var query := source.query;
      SelectFits(cat, query);
      var (root, _) := BindSource(cat, query.source).value;
      JoinConditionsFit(cat, [root], query.joins);
    }
  }

  /** The root's scope and those of the joins. */
  lemma ScopesFit(cat: Catalog, s: Select)
    requires BindSelect(cat, s).Ok?
    ensures Distinct(SourceNames(s))
    ensures var b := BindSelect(cat, s).value; Distinct([b.resource] + JoinedResources(b.joins))
    ensures var b := BindSelect(cat, s).value;
            forall p: I.BoundProjection | p in b.projections ::
              CountFit(p.expression, [b.resource] + JoinedResources(b.joins))
  {
    var (root, _) := BindSource(cat, s.source).value;
    SourceFits(cat, s.source);
    JoinsFit(cat, [root], s.joins);
    var (bound, all) := BindJoins(cat, [root], s.joins).value;
    assert QualifiersOf([root]) == [RootCalledBy(s.source)] && ResourcesOf([root]) == [root.resource];
    assert SourceNames(s) == QualifiersOf(all);
    ColumnsFit(cat, all, s.columns);
  }

  lemma ClausesBound(cat: Catalog, scopes: seq<BindScope>, ps: seq<I.BoundProjection>, clauses: Clauses)
    requires BindClauses(cat, scopes, ps, clauses).Ok?
    ensures forall x | x in clauses.groupBy :: !NamesRowId(x)
    ensures clauses.having.Some? ==> !NamesRowId(clauses.having.value)
    ensures forall o: Order | o in clauses.orderBy :: !NamesRowId(o.expression)
    ensures var tail := BindClauses(cat, scopes, ps, clauses).value;
            && (tail.having.Some? ==> tail.groupBy != [])
            && BoundFits(tail.limit) && BoundFits(tail.offset) && (tail.offset.Some? ==> tail.limit.Some?)
  {
    DirectsFit(scopes, clauses.groupBy);
    OrdersFit(scopes, ps, clauses.orderBy);
    if clauses.having.Some? {
      RowIdRefused(cat, scopes, clauses.having.value);
    }
  }

  /**
    * Whatever binds has distinct source names and resources, fit outputs and clauses, plain derived
    * tables at every depth, and names no row identifier anywhere.
    */
  lemma {:induction false} SelectFits(cat: Catalog, s: Select)
    requires BindSelect(cat, s).Ok?
    ensures var b := BindSelect(cat, s).value; OutputsFit(b.projections) && ClausesFit(b)
    ensures DerivedPlain(s.source) && NoRowId(s)
    decreases s, 1
  {
    SourceFits(cat, s.source);
    var (root, _) := BindSource(cat, s.source).value;
    JoinConditionsFit(cat, [root], s.joins);
    var (_, scopes) := BindJoins(cat, [root], s.joins).value;
    ColumnsFit(cat, scopes, s.columns);
    var ps := BindColumns(cat, scopes, s.columns).value;
    if s.filter.Some? {
      RowIdRefused(cat, scopes, s.filter.value);
    }
    ClausesBound(cat, scopes, ps, s.clauses);
    OutputsBound(ps);
  }

  lemma OutputsBound(ps: seq<I.BoundProjection>)
    requires ps != [] && UniqueNames(ps)
    requires forall i | 0 <= i < |ps| :: !(SERVER_PARAMETER_PREFIX <= LowerText(ps[i].outputName))
    requires forall p: I.BoundProjection | p in ps :: WindowFit(p.expression)
    ensures OutputsFit(ps)
  {
    forall i, j | 0 <= i < |ps| && 0 <= j < |ps| && LowerText(ps[i].outputName) == LowerText(ps[j].outputName)
      ensures i == j
    {
    }
  }
}
