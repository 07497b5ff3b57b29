/**
  * What crates/policysql-sqlite/src/complexity.rs counts, by plain recursion on the tree: the
  * height of an expression, and over a whole statement the tallest expression, the deepest
  * nesting of parser calls, the widest column list and the variables used as patterns.
  * A node the counter was not taught makes the count undefined.
  */
module Complexity {
  import opened Core
  import opened Sql

  datatype Measure = Measure(height: nat, recursion: nat, columns: nat, patterns: seq<string>)

  const ZERO := Measure(0, 0, 0, [])

  /** Counts of two parts, one after the other. */
  function Merge(a: Measure, b: Measure): Measure {
    Measure(Max(a.height, b.height), Max(a.recursion, b.recursion), Max(a.columns, b.columns), a.patterns + b.patterns)
  }

  function Plus(a: Option<Measure>, b: Option<Measure>): Option<Measure> {
    if a.Some? && b.Some? then Some(Merge(a.value, b.value)) else None
  }

  lemma PlusAssociative(a: Option<Measure>, b: Option<Measure>, c: Option<Measure>)
    ensures Plus(Plus(a, b), c) == Plus(a, Plus(b, c))
  {
    if a.Some? && b.Some? && c.Some? {
      assert a.value.patterns + b.value.patterns + c.value.patterns ==
             a.value.patterns + (b.value.patterns + c.value.patterns);
    }
  }

  lemma PlusZero(a: Option<Measure>)
    ensures Plus(a, Some(ZERO)) == a && Plus(Some(ZERO), a) == a
  {
    if a.Some? { assert a.value.patterns + [] == a.value.patterns && [] + a.value.patterns == a.value.patterns; }
  }

  // ---- Height.

  /** The operand a postfix or infix operator wraps: the left spine continues there. */
  function Spine(e: Expr): Option<Expr> {
    match e
    case Binary(left, _, _) => Some(left)
    case Collate(inner) => Some(inner)
    case IsNull(inner) => Some(inner)
    case NotNull(inner) => Some(inner)
    case Between(left, _, _) => Some(left)
    case InList(left, _, _) => Some(left)
    case InSelect(left, _) => Some(left)
    case Match(left, _, _, _) => Some(left)
    case _ => None
  }

  function Height(e: Expr): nat
    decreases e, 1
  {
    if Spine(e).Some? then
      if e.InList? && e.members == [] then 1 else 1 + Max(Height(Spine(e).value), RightHeight(e))
    else OperandHeight(e)
  }

  /** The tallest operand besides the one on the spine. */
  function RightHeight(e: Expr): nat
    decreases e, 0
  {
    match e
    case Binary(_, _, right) => Height(right)
    case Between(_, low, high) => Max(Height(low), Height(high))
    case InList(_, _, members) => Tallest(members)
    case InSelect(_, _) => 1
    case Match(_, _, pattern, escape) => Max(Height(pattern), OptionHeight(escape))
    case _ => 0
  }

  function OperandHeight(e: Expr): nat
    decreases e, 0
  {
    match e
    case Parenthesized(elements) => 1 + Tallest(elements)
    case Unary(_, inner) => 1 + Height(inner)
    case Cast(inner) => 1 + Height(inner)
    case Case(base, pairs, otherwise) => 1 + Max(Max(OptionHeight(base), PairsHeight(pairs)), OptionHeight(otherwise))
    case FunctionCall(_, arguments, orderBy, withinGroup, tail) =>
      1 + Max(Max(Max(Tallest(arguments), SortedHeight(orderBy)), SortedHeight(withinGroup)), TailHeight(tail))
    case FunctionCallStar(_, tail) => 1 + TailHeight(tail)
    case _ => 1
  }

  function Tallest(es: seq<Expr>): nat {
    if es == [] then 0 else assert es decreases to es[0]; Max(Height(es[0]), Tallest(es[1..]))
  }

  function OptionHeight(e: Option<Expr>): nat {
    if e.None? then 0 else assert e decreases to e.value; Height(e.value)
  }

  function PairsHeight(ps: seq<When>): nat {
    if ps == [] then 0
    else assert ps decreases to ps[0]; Max(Max(Height(ps[0].condition), Height(ps[0].value)), PairsHeight(ps[1..]))
  }

  function SortedHeight(ss: seq<Sorted>): nat {
    if ss == [] then 0 else assert ss decreases to ss[0]; Max(Height(ss[0].expr), SortedHeight(ss[1..]))
  }

  function TailHeight(tail: Tail): nat {
    Max(OptionHeight(tail.filter),
        match tail.over
        case Window(partitionBy, orderBy, _) => Max(Tallest(partitionBy), SortedHeight(orderBy))
        case _ => 0)
  }

  // ---- The measure of every part, entered at a nesting depth.

  function Alone(e: Expr, frame: nat): Option<Measure> {
    Some(Measure(Height(e), frame, 0, []))
  }

  /** An expression whose parser call is at depth `frame`; its left spine stays in that call. */
  function Tally(e: Expr, frame: nat): Option<Measure>
    decreases e, 1
  {
    if Spine(e).Some? then Plus(Plus(Tally(Spine(e).value, frame), TallyRight(e, frame)), Alone(e, frame))
    else Plus(TallyOperand(e, frame), Alone(e, frame))
  }

  function TallyRight(e: Expr, frame: nat): Option<Measure>
    decreases e, 0
  {
    match e
    case Binary(_, _, right) => Tally(right, frame + 1)
    case Between(_, low, high) => Plus(Tally(low, frame + 1), Tally(high, frame + 1))
    case InList(_, _, members) => TallyEach(members, frame + 1)
    case InSelect(_, query) => TallySelect(query, frame)
    case Match(_, _, pattern, escape) => Plus(TallyPattern(pattern, frame + 1), TallyEscape(escape, frame + 1))
    case _ => Some(ZERO)
  }

  function TallyPattern(e: Expr, frame: nat): Option<Measure>
    decreases e, 2
  {
    Plus(Some(Measure(0, 0, 0, if e.Variable? then [e.variable] else [])), Tally(e, frame))
  }

  function TallyEscape(e: Option<Expr>, frame: nat): Option<Measure> {
    if e.None? then Some(ZERO) else assert e decreases to e.value; TallyPattern(e.value, frame)
  }

  function TallyOperand(e: Expr, frame: nat): Option<Measure>
    decreases e, 0
  {
    match e
    case Parenthesized(elements) => TallyEach(elements, frame + 1)
    case Subquery(query) => TallySelect(query, frame)
    case Exists(query) => TallySelect(query, frame)
    case Unary(_, inner) => Tally(inner, frame + 1)
    case Cast(inner) => Tally(inner, frame + 1)
    case Case(base, pairs, otherwise) =>
      Plus(Plus(TallyOption(base, frame + 1), TallyPairs(pairs, frame + 1)), TallyOption(otherwise, frame + 1))
    case FunctionCall(_, arguments, orderBy, withinGroup, tail) =>
      Plus(Plus(Plus(TallyEach(arguments, frame + 1), TallySorted(orderBy, frame + 1)),
                TallySorted(withinGroup, frame + 1)), TallyTail(tail, frame + 1))
    case FunctionCallStar(_, tail) => TallyTail(tail, frame + 1)
    case OtherNode => None
    case _ => Some(ZERO)
  }

  function TallyEach(es: seq<Expr>, frame: nat): Option<Measure> {
    if es == [] then Some(ZERO) else assert es decreases to es[0]; Plus(Tally(es[0], frame), TallyEach(es[1..], frame))
  }

  function TallyOption(e: Option<Expr>, frame: nat): Option<Measure> {
    if e.None? then Some(ZERO) else assert e decreases to e.value; Tally(e.value, frame)
  }

  function TallyPairs(ps: seq<When>, frame: nat): Option<Measure> {
    if ps == [] then Some(ZERO)
    else
      assert ps decreases to ps[0];
      Plus(Plus(Tally(ps[0].condition, frame), Tally(ps[0].value, frame)), TallyPairs(ps[1..], frame))
  }

  function TallySorted(ss: seq<Sorted>, frame: nat): Option<Measure> {
    if ss == [] then Some(ZERO)
    else assert ss decreases to ss[0]; Plus(Tally(ss[0].expr, frame), TallySorted(ss[1..], frame))
  }

  function TallyTail(tail: Tail, frame: nat): Option<Measure> {
    Plus(TallyOption(tail.filter, frame),
         match tail.over
         case NoWindow => Some(ZERO)
         case NamedWindow => None
         case Window(partitionBy, orderBy, framed) =>
           if framed then None else Plus(TallyEach(partitionBy, frame), TallySorted(orderBy, frame)))
  }

  // ---- Queries and statements: their expressions are entered at `base + 1`.

  function TallySelect(s: Select, base: nat): Option<Measure>
    decreases s, 0
  {
    Plus(Plus(Plus(Plus(TallySelects(s.ctes, base), TallyOne(s.body, base)), TallyOnes(s.compounds, base)),
              TallySorted(s.orderBy, base + 1)), TallyLimit(s.limit, base))
  }

  function TallySelects(ss: seq<Select>, base: nat): Option<Measure>
    decreases ss, 0
  {
    if ss == [] then Some(ZERO)
    else assert ss decreases to ss[0]; Plus(TallySelect(ss[0], base), TallySelects(ss[1..], base))
  }

  function TallyOnes(ss: seq<OneSelect>, base: nat): Option<Measure>
    decreases ss, 0
  {
    if ss == [] then Some(ZERO) else assert ss decreases to ss[0]; Plus(TallyOne(ss[0], base), TallyOnes(ss[1..], base))
  }

  function TallyOne(s: OneSelect, base: nat): Option<Measure>
    decreases s, 0
  {
    match s
    case Query(columns, from, filter, groupBy, windows) =>
      if windows then None
      else Plus(Plus(Plus(TallyColumns(columns, base), TallyFromOption(from, base)), TallyOption(filter, base + 1)),
                TallyGroupBy(groupBy, base))
    case Values(rows) => TallyRows(rows, base)
  }

  function TallyColumns(columns: seq<ResultColumn>, base: nat): Option<Measure>
    decreases columns, 1
  {
    Plus(Some(Measure(0, 0, |columns|, [])), TallyOutputs(columns, base))
  }

  function TallyOutputs(columns: seq<ResultColumn>, base: nat): Option<Measure>
    decreases columns, 0
  {
    if columns == [] then Some(ZERO)
    else
      assert columns decreases to columns[0];
      if columns[0].Star? then None else Plus(Tally(columns[0].expr, base + 1), TallyOutputs(columns[1..], base))
  }

  function TallyRows(rows: seq<Row>, base: nat): Option<Measure>
    decreases rows, 0
  {
    if rows == [] then Some(ZERO)
    else assert rows decreases to rows[0]; Plus(TallyEach(rows[0].cells, base + 1), TallyRows(rows[1..], base))
  }

  function TallyFromOption(from: Option<From>, base: nat): Option<Measure>
    decreases from, 0
  {
    if from.None? then Some(ZERO) else assert from decreases to from.value; TallyFrom(from.value, base)
  }

  function TallyFrom(from: From, base: nat): Option<Measure>
    decreases from, 0
  {
    Plus(TallyTable(from.table, base), TallyJoins(from.joins, base))
  }

  function TallyTable(table: Table, base: nat): Option<Measure>
    decreases table, 0
  {
    match table
    case Named(_, _) => Some(ZERO)
    case TableCall(arguments) => TallyEach(arguments, base + 1)
    case Derived(query) => TallySelect(query, base)
    case Nested(from) => TallyFrom(from, base)
  }

  function TallyJoins(joins: seq<Sql.Join>, base: nat): Option<Measure>
    decreases joins, 0
  {
    if joins == [] then Some(ZERO)
    else assert joins decreases to joins[0]; Plus(TallyJoin(joins[0], base), TallyJoins(joins[1..], base))
  }

  function TallyJoin(join: Sql.Join, base: nat): Option<Measure>
    decreases join, 0
  {
    Plus(TallyTable(join.table, base),
         match join.constraint
         case NoConstraint => Some(ZERO)
         case On(condition) => Tally(condition, base + 1)
         case Using => None)
  }

  function TallyGroupBy(groupBy: Option<GroupBy>, base: nat): Option<Measure>
    decreases groupBy, 0
  {
    if groupBy.None? then Some(ZERO)
    else
      assert groupBy decreases to groupBy.value;
      Plus(TallyEach(groupBy.value.exprs, base + 1), TallyOption(groupBy.value.having, base + 1))
  }

  function TallyLimit(limit: Option<Limit>, base: nat): Option<Measure>
    decreases limit, 0
  {
    if limit.None? then Some(ZERO)
    else
      assert limit decreases to limit.value;
      Plus(Tally(limit.value.expr, base + 1), TallyOption(limit.value.offset, base + 1))
  }

  function TallySets(sets: seq<Set>): Option<Measure> {
    if sets == [] then Some(ZERO) else Plus(Tally(sets[0].value, 1), TallySets(sets[1..]))
  }

  function TallyUpsert(upsert: Option<Upsert>): Option<Measure>
    decreases upsert
  {
    if upsert.None? then Some(ZERO)
    else
      assert upsert decreases to upsert.value;
      Plus(Plus(TallyTarget(upsert.value.target), TallyAction(upsert.value.action)), TallyUpsert(upsert.value.next))
  }

  function TallyTarget(target: Option<Target>): Option<Measure> {
    if target.None? then Some(ZERO)
    else Plus(TallySorted(target.value.columns, 1), TallyOption(target.value.filter, 1))
  }

  function TallyAction(action: Action): Option<Measure> {
    match action
    case DoNothing => Some(ZERO)
    case DoSet(sets, filter) => Plus(TallySets(sets), TallyOption(filter, 1))
  }

  function TallyInsertBody(body: InsertBody): Option<Measure> {
    match body
    case FromSelect(query, upsert) => Plus(TallySelect(query, 0), TallyUpsert(upsert))
    case DefaultValues => Some(ZERO)
  }

  function TallyOrdered(orderBy: seq<Sorted>, limit: Option<Limit>): Option<Measure> {
    Plus(TallySorted(orderBy, 1), TallyLimit(limit, 0))
  }

  function TallyStatement(statement: Statement): Option<Measure> {
    match statement
    case SelectStatement(query) => TallySelect(query, 0)
    case InsertStatement(with_, _, _, body, returning) =>
      if with_ then None else Plus(TallyInsertBody(body), TallyColumns(returning, 0))
    case UpdateStatement(with_, _, from, sets, filter, orderBy, limit, returning) =>
      if with_ || from then None
      else Plus(Plus(Plus(TallySets(sets), TallyOption(filter, 1)), TallyOrdered(orderBy, limit)),
          TallyColumns(returning, 0))
    case DeleteStatement(with_, _, filter, orderBy, limit, returning) =>
      if with_ then None
      else Plus(Plus(TallyOption(filter, 1), TallyOrdered(orderBy, limit)), TallyColumns(returning, 0))
    case OtherStatement => None
  }
}
