/**
  * The counter object of crates/policysql-sqlite/src/complexity.rs. It walks the left spine of an
  * operator chain with a loop and then back up; every method records exactly the measure
  * of its part and returns the height of the expression.
  */
module ComplexityCounter {
  import opened Core
  import opened Sql
  import opened Complexity

  datatype Uncountable = Uncountable

  type Counted<T> = Result<T, Uncountable>

  class Counter {
    var measure: Measure

    constructor ()
      ensures measure == ZERO
    {
      measure := ZERO;
    }

    /** The measure after a part was counted; undefined when counting failed. */
    ghost function After(ok: bool): Option<Measure>
      reads this
    {
      if ok then Some(measure) else None
    }

    method Enter(frame: nat)
      modifies this
      ensures measure == Merge(old(measure), Measure(0, frame, 0, []))
    {
      assert measure.patterns + [] == measure.patterns;
      measure := measure.(recursion := Max(measure.recursion, frame));
    }

    method Tall(height: nat)
      modifies this
      ensures measure == Merge(old(measure), Measure(height, 0, 0, []))
    {
      assert measure.patterns + [] == measure.patterns;
      measure := measure.(height := Max(measure.height, height));
    }

    method Pattern(e: Expr)
      modifies this
      ensures measure == Merge(old(measure), Measure(0, 0, 0, if e.Variable? then [e.variable] else []))
    {
      assert measure.patterns + [] == measure.patterns;
      if e.Variable? { measure := measure.(patterns := measure.patterns + [e.variable]); }
    }

    /** One parser call entered at depth `base`. */
    method Expression(expression: Expr, base: nat) returns (r: Counted<nat>)
      modifies this
      ensures Plus(Some(old(measure)), Tally(expression, base + 1)) == After(r.Ok?)
      ensures r.Ok? ==> r.value == Height(expression)
      decreases expression, 2
    {
      var frame := base + 1;
      ghost var before := measure;
      Enter(frame);
      ghost var entered := measure;
      var spine: seq<Expr> := [];
      var operand := expression;
      while Spine(operand).Some?
        invariant Path(expression, spine + [operand])
        invariant measure == entered
        invariant expression == operand || (expression decreases to operand)
        decreases operand
      {
        PathExtend(expression, spine + [operand]);
        spine := spine + [operand];
        operand := Spine(operand).value;
      }
      ghost var path := spine + [operand];
      var counted := Operand(operand, frame);
      if counted.Err? {
        PathNone(expression, path, |spine|, frame);
        return Err(Uncountable);
      }
      var height := counted.value;
      AddAlone(entered, TallyOperand(operand, frame), operand, frame, measure);
      Tall(height);
      var i := |spine|;
      while i > 0
        invariant 0 <= i <= |spine|
        invariant height == Height(path[i])
        invariant Some(measure) == Plus(Some(entered), Tally(path[i], frame))
        decreases i
      {
        i := i - 1;
        var node := spine[i];
        assert node == path[i] && Spine(node) == Some(path[i + 1]);
        assert expression == node || (expression decreases to node);
        ghost var start := measure;
        var right := Right(node, frame);
        if right.Err? {
          PathNone(expression, path, i, frame);
          return Err(Uncountable);
        }
        PlusAssociative(Some(entered), Tally(path[i + 1], frame), TallyRight(node, frame));
        AddAlone(entered, Plus(Tally(path[i + 1], frame), TallyRight(node, frame)), node, frame, measure);
        height := if node.InList? && node.members == [] then 1 else 1 + Max(height, right.value);
        Tall(height);
      }
      EnterAbsorbed(before, expression, frame);
      return Ok(height);
    }

    /** The operands of one spine node besides the spine itself; returns the tallest. */
    method Right(node: Expr, frame: nat) returns (r: Counted<nat>)
      requires Spine(node).Some?
      modifies this
      ensures Plus(Some(old(measure)), TallyRight(node, frame)) == After(r.Ok?)
      ensures r.Ok? ==> r.value == RightHeight(node)
      decreases node, 1
    {
      PlusZero(Some(measure));
      match node
      case Binary(_, _, right) =>
        r := Expression(right, frame);
      case Between(_, low, high) =>
        PlusAssociative(Some(measure), Tally(low, frame + 1), Tally(high, frame + 1));
        var start := Expression(low, frame);
        if start.Err? { return Err(Uncountable); }
        var end := Expression(high, frame);
        if end.Err? { return Err(Uncountable); }
        return Ok(Max(start.value, end.value));
      case InList(_, _, members) =>
        r := Each(members, frame);
      case InSelect(_, query) =>
        var ok := Query(query, frame);
        if ok.Err? { return Err(Uncountable); }
        return Ok(1);
      case Match(_, _, pattern, escape) =>
        PlusAssociative(Some(measure), TallyPattern(pattern, frame + 1), TallyEscape(escape, frame + 1));
        var tallest := PatternExpression(pattern, frame);
        if tallest.Err? { return Err(Uncountable); }
        PlusZero(Some(measure));
        if escape.None? { return tallest; }
        assert escape decreases to escape.value;
        var other := PatternExpression(escape.value, frame);
        if other.Err? { return Err(Uncountable); }
        return Ok(Max(tallest.value, other.value));
      case Collate(_) => return Ok(0);
      case IsNull(_) => return Ok(0);
      case NotNull(_) => return Ok(0);
      case _ => return Err(Uncountable);
    }

    method PatternExpression(e: Expr, frame: nat) returns (r: Counted<nat>)
      modifies this
      ensures Plus(Some(old(measure)), TallyPattern(e, frame + 1)) == After(r.Ok?)
      ensures r.Ok? ==> r.value == Height(e)
      decreases e, 3
    {
      PlusAssociative(Some(measure), Some(Measure(0, 0, 0, if e.Variable? then [e.variable] else [])),
          Tally(e, frame + 1));
      Pattern(e);
      r := Expression(e, frame);
    }

    /** The height of an operand parsed inside the call at depth `frame`. */
    method Operand(operand: Expr, frame: nat) returns (r: Counted<nat>)
      requires Spine(operand).None?
      modifies this
      ensures Plus(Some(old(measure)), TallyOperand(operand, frame)) == After(r.Ok?)
      ensures r.Ok? ==> r.value == OperandHeight(operand)
      decreases operand, 1
    {
      PlusZero(Some(measure));
      match operand
      case Parenthesized(elements) =>
        var tallest :- Each(elements, frame);
        return Ok(1 + tallest);
      case Subquery(query) =>
        var counted := Query(query, frame);
        return if counted.Ok? then Ok(1) else Err(Uncountable);
      case Exists(query) =>
        var counted := Query(query, frame);
        return if counted.Ok? then Ok(1) else Err(Uncountable);
      case Unary(_, inner) =>
        var height :- Expression(inner, frame);
        return Ok(1 + height);
      case Cast(inner) =>
        var height :- Expression(inner, frame);
        return Ok(1 + height);
      case Case(_, _, _) =>
        r := CaseParts(operand, frame);
      case FunctionCall(_, _, _, _, _) =>
        r := CallParts(operand, frame);
      case FunctionCallStar(_, tail) =>
        var tallest :- Suffix(tail, frame);
        return Ok(1 + tallest);
      case Literal(_) => return Ok(1);
      case Id(_) => return Ok(1);
      case Qualified(_, _) => return Ok(1);
      case DoublyQualified(_, _, _) => return Ok(1);
      case Variable(_, _) => return Ok(1);
      case _ => return Err(Uncountable);
    }

    method CaseParts(e: Expr, frame: nat) returns (r: Counted<nat>)
      requires e.Case?
      modifies this
      ensures Plus(Some(old(measure)), TallyOperand(e, frame)) == After(r.Ok?)
      ensures r.Ok? ==> r.value == OperandHeight(e)
      decreases e, 0
    {
      ThreeParts(Some(measure), TallyOption(e.base, frame + 1), TallyPairs(e.pairs, frame + 1),
                 TallyOption(e.otherwise, frame + 1));
      var base :- Optional(e.base, frame);
      var pairs :- Pairs(e.pairs, frame);
      var otherwise :- Optional(e.otherwise, frame);
      return Ok(1 + Max(Max(base, pairs), otherwise));
    }

    method CallParts(e: Expr, frame: nat) returns (r: Counted<nat>)
      requires e.FunctionCall?
      modifies this
      ensures Plus(Some(old(measure)), TallyOperand(e, frame)) == After(r.Ok?)
      ensures r.Ok? ==> r.value == OperandHeight(e)
      decreases e, 0
    {
      FourParts(Some(measure), TallyEach(e.arguments, frame + 1), TallySorted(e.orderBy, frame + 1),
                TallySorted(e.withinGroup, frame + 1), TallyTail(e.tail, frame + 1));
      var arguments :- Each(e.arguments, frame);
      var orders :- SortedHeights(e.orderBy, frame);
      var within :- SortedHeights(e.withinGroup, frame);
      var tail :- Suffix(e.tail, frame);
      return Ok(1 + Max(Max(Max(arguments, orders), within), tail));
    }

    method Each(es: seq<Expr>, frame: nat) returns (r: Counted<nat>)
      modifies this
      ensures Plus(Some(old(measure)), TallyEach(es, frame + 1)) == After(r.Ok?)
      ensures r.Ok? ==> r.value == Tallest(es)
      decreases es, 0
    {
      ghost var whole := Plus(Some(measure), TallyEach(es, frame + 1));
      var tallest := 0;
      assert es[0..] == es;
      for i := 0 to |es|
        invariant whole == Plus(Some(measure), TallyEach(es[i..], frame + 1))
        invariant Tallest(es) == Max(tallest, Tallest(es[i..]))
      {
        assert es[i..][0] == es[i] && es[i..][1..] == es[i + 1..];
        assert es decreases to es[i];
        PlusAssociative(Some(measure), Tally(es[i], frame + 1), TallyEach(es[i + 1..], frame + 1));
        var height :- Expression(es[i], frame);
        tallest := Max(tallest, height);
      }
      PlusZero(Some(measure));
      return Ok(tallest);
    }

    method Optional(e: Option<Expr>, frame: nat) returns (r: Counted<nat>)
      modifies this
      ensures Plus(Some(old(measure)), TallyOption(e, frame + 1)) == After(r.Ok?)
      ensures r.Ok? ==> r.value == OptionHeight(e)
      decreases e, 0
    {
      PlusZero(Some(measure));
      if e.None? { return Ok(0); }
      assert e decreases to e.value;
      r := Expression(e.value, frame);
    }

    method Pairs(ps: seq<When>, frame: nat) returns (r: Counted<nat>)
      modifies this
      ensures Plus(Some(old(measure)), TallyPairs(ps, frame + 1)) == After(r.Ok?)
      ensures r.Ok? ==> r.value == PairsHeight(ps)
      decreases ps, 0
    {
      ghost var whole := Plus(Some(measure), TallyPairs(ps, frame + 1));
      var tallest := 0;
      assert ps[0..] == ps;
      for i := 0 to |ps|
        invariant whole == Plus(Some(measure), TallyPairs(ps[i..], frame + 1))
        invariant PairsHeight(ps) == Max(tallest, PairsHeight(ps[i..]))
      {
        assert ps[i..][0] == ps[i] && ps[i..][1..] == ps[i + 1..];
        assert ps decreases to ps[i];
        ThreeParts(Some(measure), Tally(ps[i].condition, frame + 1), Tally(ps[i].value, frame + 1),
                   TallyPairs(ps[i + 1..], frame + 1));
        var condition :- Expression(ps[i].condition, frame);
        tallest := Max(tallest, condition);
        var value :- Expression(ps[i].value, frame);
        tallest := Max(tallest, value);
      }
      PlusZero(Some(measure));
      return Ok(tallest);
    }

    method SortedHeights(ss: seq<Sorted>, frame: nat) returns (r: Counted<nat>)
      modifies this
      ensures Plus(Some(old(measure)), TallySorted(ss, frame + 1)) == After(r.Ok?)
      ensures r.Ok? ==> r.value == SortedHeight(ss)
      decreases ss, 0
    {
      ghost var whole := Plus(Some(measure), TallySorted(ss, frame + 1));
      var tallest := 0;
      assert ss[0..] == ss;
      for i := 0 to |ss|
        invariant whole == Plus(Some(measure), TallySorted(ss[i..], frame + 1))
        invariant SortedHeight(ss) == Max(tallest, SortedHeight(ss[i..]))
      {
        assert ss[i..][0] == ss[i] && ss[i..][1..] == ss[i + 1..];
        assert ss decreases to ss[i];
        PlusAssociative(Some(measure), Tally(ss[i].expr, frame + 1), TallySorted(ss[i + 1..], frame + 1));
        var height :- Expression(ss[i].expr, frame);
        tallest := Max(tallest, height);
      }
      PlusZero(Some(measure));
      return Ok(tallest);
    }

    method Suffix(tail: Tail, frame: nat) returns (r: Counted<nat>)
      modifies this
      ensures Plus(Some(old(measure)), TallyTail(tail, frame + 1)) == After(r.Ok?)
      ensures r.Ok? ==> r.value == TailHeight(tail)
      decreases tail, 0
    {
      ghost var filtered := TallyOption(tail.filter, frame + 1);
      PlusZero(Plus(Some(measure), filtered));
      PlusZero(filtered);
      if tail.over.Window? {
        PlusAssociative(filtered, TallyEach(tail.over.partitionBy, frame + 1),
            TallySorted(tail.over.orderBy, frame + 1));
        ThreeParts(Some(measure), filtered, TallyEach(tail.over.partitionBy, frame + 1),
                   TallySorted(tail.over.orderBy, frame + 1));
      }
      var filter :- Optional(tail.filter, frame);
      match tail.over
      case NoWindow => return Ok(filter);
      case NamedWindow => return Err(Uncountable);
      case Window(partitionBy, orderBy, framed) =>
        if framed { return Err(Uncountable); }
        var partition :- Each(partitionBy, frame);
        var orders :- SortedHeights(orderBy, frame);
        return Ok(Max(filter, Max(partition, orders)));
    }

    // ---- Queries.

    method Query(s: Select, base: nat) returns (r: Counted<()>)
      modifies this
      ensures Plus(Some(old(measure)), TallySelect(s, base)) == After(r.Ok?)
      decreases s, 1
    {
      FiveParts(Some(measure), TallySelects(s.ctes, base), TallyOne(s.body, base), TallyOnes(s.compounds, base),
                TallySorted(s.orderBy, base + 1), TallyLimit(s.limit, base));
      var _ :- Queries(s.ctes, base);
      var _ :- OneQuery(s.body, base);
      var _ :- OneQueries(s.compounds, base);
      var _ :- SortedHeights(s.orderBy, base);
      r := LimitClause(s.limit, base);
    }

    method Queries(ss: seq<Select>, base: nat) returns (r: Counted<()>)
      modifies this
      ensures Plus(Some(old(measure)), TallySelects(ss, base)) == After(r.Ok?)
      decreases ss, 1
    {
      ghost var whole := Plus(Some(measure), TallySelects(ss, base));
      assert ss[0..] == ss;
      for i := 0 to |ss|
        invariant whole == Plus(Some(measure), TallySelects(ss[i..], base))
      {
        assert ss[i..][0] == ss[i] && ss[i..][1..] == ss[i + 1..];
        assert ss decreases to ss[i];
        PlusAssociative(Some(measure), TallySelect(ss[i], base), TallySelects(ss[i + 1..], base));
        var _ :- Query(ss[i], base);
      }
      PlusZero(Some(measure));
      return Ok(());
    }

    method OneQueries(ss: seq<OneSelect>, base: nat) returns (r: Counted<()>)
      modifies this
      ensures Plus(Some(old(measure)), TallyOnes(ss, base)) == After(r.Ok?)
      decreases ss, 1
    {
      ghost var whole := Plus(Some(measure), TallyOnes(ss, base));
      assert ss[0..] == ss;
      for i := 0 to |ss|
        invariant whole == Plus(Some(measure), TallyOnes(ss[i..], base))
      {
        assert ss[i..][0] == ss[i] && ss[i..][1..] == ss[i + 1..];
        assert ss decreases to ss[i];
        PlusAssociative(Some(measure), TallyOne(ss[i], base), TallyOnes(ss[i + 1..], base));
        var _ :- OneQuery(ss[i], base);
      }
      PlusZero(Some(measure));
      return Ok(());
    }

    method OneQuery(s: OneSelect, base: nat) returns (r: Counted<()>)
      modifies this
      ensures Plus(Some(old(measure)), TallyOne(s, base)) == After(r.Ok?)
      decreases s, 1
    {
      match s
      case Query(columns, from, filter, groupBy, windows) =>
        if windows { return Err(Uncountable); }
        FourParts(Some(measure), TallyColumns(columns, base), TallyFromOption(from, base),
                  TallyOption(filter, base + 1), TallyGroupBy(groupBy, base));
        var _ :- ResultColumns(columns, base);
        var _ :- FromOption(from, base);
        var _ :- Optional(filter, base);
        r := GroupByClause(groupBy, base);
      case Values(rows) =>
        r := Rows(rows, base);
    }

    method Rows(rows: seq<Row>, base: nat) returns (r: Counted<()>)
      modifies this
      ensures Plus(Some(old(measure)), TallyRows(rows, base)) == After(r.Ok?)
      decreases rows, 1
    {
      ghost var whole := Plus(Some(measure), TallyRows(rows, base));
      assert rows[0..] == rows;
      for i := 0 to |rows|
        invariant whole == Plus(Some(measure), TallyRows(rows[i..], base))
      {
        assert rows[i..][0] == rows[i] && rows[i..][1..] == rows[i + 1..];
        assert rows decreases to rows[i];
        PlusAssociative(Some(measure), TallyEach(rows[i].cells, base + 1), TallyRows(rows[i + 1..], base));
        var _ :- Each(rows[i].cells, base);
      }
      PlusZero(Some(measure));
      return Ok(());
    }

    method ResultColumns(columns: seq<ResultColumn>, base: nat) returns (r: Counted<()>)
      modifies this
      ensures Plus(Some(old(measure)), TallyColumns(columns, base)) == After(r.Ok?)
      decreases columns, 1
    {
      ghost var before := measure;
      PlusAssociative(Some(measure), Some(Measure(0, 0, |columns|, [])), TallyOutputs(columns, base));
      assert measure.patterns + [] == measure.patterns;
      measure := measure.(columns := Max(measure.columns, |columns|));
      ghost var whole := Plus(Some(measure), TallyOutputs(columns, base));
      assert columns[0..] == columns;
      for i := 0 to |columns|
        invariant whole == Plus(Some(measure), TallyOutputs(columns[i..], base))
      {
        assert columns[i..][0] == columns[i] && columns[i..][1..] == columns[i + 1..];
        if columns[i].Star? { return Err(Uncountable); }
        assert columns decreases to columns[i];
        PlusAssociative(Some(measure), Tally(columns[i].expr, base + 1), TallyOutputs(columns[i + 1..], base));
        var _ :- Expression(columns[i].expr, base);
      }
      PlusZero(Some(measure));
      return Ok(());
    }

    method FromOption(from: Option<From>, base: nat) returns (r: Counted<()>)
      modifies this
      ensures Plus(Some(old(measure)), TallyFromOption(from, base)) == After(r.Ok?)
      decreases from, 1
    {
      PlusZero(Some(measure));
      if from.None? { return Ok(()); }
      assert from decreases to from.value;
      r := FromClause(from.value, base);
    }

    method FromClause(from: From, base: nat) returns (r: Counted<()>)
      modifies this
      ensures Plus(Some(old(measure)), TallyFrom(from, base)) == After(r.Ok?)
      decreases from, 1
    {
      PlusAssociative(Some(measure), TallyTable(from.table, base), TallyJoins(from.joins, base));
      var _ :- SelectTable(from.table, base);
      ghost var whole := Plus(Some(measure), TallyJoins(from.joins, base));
      var joins := from.joins;
      assert joins[0..] == joins;
      for i := 0 to |joins|
        invariant whole == Plus(Some(measure), TallyJoins(joins[i..], base))
      {
        assert joins[i..][0] == joins[i] && joins[i..][1..] == joins[i + 1..];
        assert joins decreases to joins[i];
        PlusAssociative(Some(measure), TallyJoin(joins[i], base), TallyJoins(joins[i + 1..], base));
        var _ :- JoinClause(joins[i], base);
      }
      PlusZero(Some(measure));
      return Ok(());
    }

    method JoinClause(join: Sql.Join, base: nat) returns (r: Counted<()>)
      modifies this
      ensures Plus(Some(old(measure)), TallyJoin(join, base)) == After(r.Ok?)
      decreases join, 1
    {
      PlusZero(TallyTable(join.table, base));
      if join.constraint.On? {
        PlusAssociative(Some(measure), TallyTable(join.table, base), Tally(join.constraint.condition, base + 1));
      }
      var _ :- SelectTable(join.table, base);
      match join.constraint
      case NoConstraint => return Ok(());
      case On(condition) =>
        var _ :- Expression(condition, base);
        return Ok(());
      case Using => return Err(Uncountable);
    }

    method SelectTable(table: Table, base: nat) returns (r: Counted<()>)
      modifies this
      ensures Plus(Some(old(measure)), TallyTable(table, base)) == After(r.Ok?)
      decreases table, 1
    {
      PlusZero(Some(measure));
      match table
      case Named(_, _) => return Ok(());
      case TableCall(arguments) =>
        var _ :- Each(arguments, base);
        return Ok(());
      case Derived(query) => r := Query(query, base);
      case Nested(from) => r := FromClause(from, base);
    }

    method GroupByClause(groupBy: Option<GroupBy>, base: nat) returns (r: Counted<()>)
      modifies this
      ensures Plus(Some(old(measure)), TallyGroupBy(groupBy, base)) == After(r.Ok?)
      decreases groupBy, 1
    {
      PlusZero(Some(measure));
      if groupBy.None? { return Ok(()); }
      assert groupBy decreases to groupBy.value;
      PlusAssociative(Some(measure), TallyEach(groupBy.value.exprs, base + 1),
          TallyOption(groupBy.value.having, base + 1));
      var _ :- Each(groupBy.value.exprs, base);
      var _ :- Optional(groupBy.value.having, base);
      return Ok(());
    }

    method LimitClause(limit: Option<Limit>, base: nat) returns (r: Counted<()>)
      modifies this
      ensures Plus(Some(old(measure)), TallyLimit(limit, base)) == After(r.Ok?)
      decreases limit, 1
    {
      PlusZero(Some(measure));
      if limit.None? { return Ok(()); }
      assert limit decreases to limit.value;
      PlusAssociative(Some(measure), Tally(limit.value.expr, base + 1), TallyOption(limit.value.offset, base + 1));
      var _ :- Expression(limit.value.expr, base);
      var _ :- Optional(limit.value.offset, base);
      return Ok(());
    }

    // ---- Statements.

    method Sets(sets: seq<Set>) returns (r: Counted<()>)
      modifies this
      ensures Plus(Some(old(measure)), TallySets(sets)) == After(r.Ok?)
    {
      ghost var whole := Plus(Some(measure), TallySets(sets));
      assert sets[0..] == sets;
      for i := 0 to |sets|
        invariant whole == Plus(Some(measure), TallySets(sets[i..]))
      {
        assert sets[i..][0] == sets[i] && sets[i..][1..] == sets[i + 1..];
        PlusAssociative(Some(measure), Tally(sets[i].value, 1), TallySets(sets[i + 1..]));
        var _ :- Expression(sets[i].value, 0);
      }
      PlusZero(Some(measure));
      return Ok(());
    }

    method CountUpsert(upsert: Upsert) returns (r: Counted<()>)
      modifies this
      ensures Plus(Some(old(measure)), TallyUpsert(Some(upsert))) == After(r.Ok?)
      decreases upsert
    {
      ThreeParts(Some(measure), TallyTarget(upsert.target), TallyAction(upsert.action), TallyUpsert(upsert.next));
      var _ :- ConflictTarget(upsert.target);
      var _ :- ConflictAction(upsert.action);
      PlusZero(Some(measure));
      if upsert.next.None? { return Ok(()); }
      r := CountUpsert(upsert.next.value);
    }

    method ConflictTarget(target: Option<Target>) returns (r: Counted<()>)
      modifies this
      ensures Plus(Some(old(measure)), TallyTarget(target)) == After(r.Ok?)
    {
      PlusZero(Some(measure));
      if target.None? { return Ok(()); }
      PlusAssociative(Some(measure), TallySorted(target.value.columns, 1), TallyOption(target.value.filter, 1));
      var _ :- SortedHeights(target.value.columns, 0);
      var _ :- Optional(target.value.filter, 0);
      return Ok(());
    }

    method ConflictAction(action: Action) returns (r: Counted<()>)
      modifies this
      ensures Plus(Some(old(measure)), TallyAction(action)) == After(r.Ok?)
    {
      PlusZero(Some(measure));
      if action.DoNothing? { return Ok(()); }
      PlusAssociative(Some(measure), TallySets(action.sets), TallyOption(action.filter, 1));
      var _ :- Sets(action.sets);
      var _ :- Optional(action.filter, 0);
      return Ok(());
    }

    method Body(body: InsertBody) returns (r: Counted<()>)
      modifies this
      ensures Plus(Some(old(measure)), TallyInsertBody(body)) == After(r.Ok?)
    {
      PlusZero(Some(measure));
      if body.DefaultValues? { return Ok(()); }
      PlusAssociative(Some(measure), TallySelect(body.query, 0), TallyUpsert(body.upsert));
      var _ :- Query(body.query, 0);
      PlusZero(Some(measure));
      if body.upsert.None? { return Ok(()); }
      r := CountUpsert(body.upsert.value);
    }

    method CountStatement(statement: Statement) returns (r: Counted<()>)
      modifies this
      ensures Plus(Some(old(measure)), TallyStatement(statement)) == After(r.Ok?)
    {
      match statement
      case SelectStatement(query) => r := Query(query, 0);
      case InsertStatement(with_, _, _, body, returning) =>
        if with_ { return Err(Uncountable); }
        PlusAssociative(Some(measure), TallyInsertBody(body), TallyColumns(returning, 0));
        var _ :- Body(body);
        r := ResultColumns(returning, 0);
      case UpdateStatement(_, _, _, _, _, _, _, _) => r := Update(statement);
      case DeleteStatement(_, _, _, _, _, _) => r := Delete(statement);
      case OtherStatement => return Err(Uncountable);
    }

    method Ordered(orderBy: seq<Sorted>, limit: Option<Limit>) returns (r: Counted<()>)
      modifies this
      ensures Plus(Some(old(measure)), TallyOrdered(orderBy, limit)) == After(r.Ok?)
    {
      PlusAssociative(Some(measure), TallySorted(orderBy, 1), TallyLimit(limit, 0));
      var _ :- SortedHeights(orderBy, 0);
      r := LimitClause(limit, 0);
    }

    method Update(statement: Statement) returns (r: Counted<()>)
      requires statement.UpdateStatement?
      modifies this
      ensures Plus(Some(old(measure)), TallyStatement(statement)) == After(r.Ok?)
    {
      if statement.with_ || statement.from { return Err(Uncountable); }
      FourParts(Some(measure), TallySets(statement.sets), TallyOption(statement.filter, 1),
                TallyOrdered(statement.orderBy, statement.limit), TallyColumns(statement.returning, 0));
      var _ :- Sets(statement.sets);
      var _ :- Optional(statement.filter, 0);
      var _ :- Ordered(statement.orderBy, statement.limit);
      r := ResultColumns(statement.returning, 0);
    }

    method Delete(statement: Statement) returns (r: Counted<()>)
      requires statement.DeleteStatement?
      modifies this
      ensures Plus(Some(old(measure)), TallyStatement(statement)) == After(r.Ok?)
    {
      if statement.with_ { return Err(Uncountable); }
      ThreeParts(Some(measure), TallyOption(statement.filter, 1), TallyOrdered(statement.orderBy, statement.limit),
                 TallyColumns(statement.returning, 0));
      var _ :- Optional(statement.filter, 0);
      var _ :- Ordered(statement.orderBy, statement.limit);
      r := ResultColumns(statement.returning, 0);
    }
  }

  lemma ThreeParts(m: Option<Measure>, a: Option<Measure>, b: Option<Measure>, c: Option<Measure>)
    ensures Plus(m, Plus(Plus(a, b), c)) == Plus(Plus(Plus(m, a), b), c)
  {
    PlusAssociative(m, Plus(a, b), c);
    PlusAssociative(m, a, b);
  }

  lemma FourParts(m: Option<Measure>, a: Option<Measure>, b: Option<Measure>, c: Option<Measure>, d: Option<Measure>)
    ensures Plus(m, Plus(Plus(Plus(a, b), c), d)) == Plus(Plus(Plus(Plus(m, a), b), c), d)
  {
    PlusAssociative(m, Plus(Plus(a, b), c), d);
    ThreeParts(m, a, b, c);
  }

  lemma FiveParts(m: Option<Measure>, a: Option<Measure>, b: Option<Measure>, c: Option<Measure>, d: Option<Measure>,
                  e: Option<Measure>)
    ensures Plus(m, Plus(Plus(Plus(Plus(a, b), c), d), e)) == Plus(Plus(Plus(Plus(Plus(m, a), b), c), d), e)
  {
    PlusAssociative(m, Plus(Plus(Plus(a, b), c), d), e);
    FourParts(m, a, b, c, d);
  }

  // ---- The left spine.

  /** The nodes from an expression down its left spine. */
  ghost predicate Path(expression: Expr, path: seq<Expr>) {
    path != [] && path[0] == expression &&
    (forall i :: 0 <= i < |path| - 1 ==> Spine(path[i]) == Some(path[i + 1])) &&
    (forall i :: 0 <= i < |path| ==> path[i] == expression || (expression decreases to path[i]))
  }

  lemma PathExtend(expression: Expr, path: seq<Expr>)
    requires Path(expression, path) && Spine(path[|path| - 1]).Some?
    ensures Path(expression, path + [Spine(path[|path| - 1]).value])
  {
    var last := path[|path| - 1];
    assert last decreases to Spine(last).value;
  }

  /** A node that cannot be counted makes the whole chain uncountable. */
  lemma {:induction false} PathNone(expression: Expr, path: seq<Expr>, i: nat, frame: nat)
    requires Path(expression, path) && i < |path| && Tally(path[i], frame).None?
    ensures Tally(expression, frame).None?
    decreases i
  {
    if i > 0 {
      assert Spine(path[i - 1]) == Some(path[i]);
      PathNone(expression, path, i - 1, frame);
    }
  }

  /** Recording a node's height completes its measure, since the call's depth is recorded already. */
  lemma AddAlone(entered: Measure, parts: Option<Measure>, e: Expr, frame: nat, m: Measure)
    requires entered.recursion >= frame && Plus(Some(entered), parts) == Some(m)
    ensures Plus(Some(entered), Plus(parts, Alone(e, frame))) == Some(Merge(m, Measure(Height(e), 0, 0, [])))
  {
    PlusAssociative(Some(entered), parts, Alone(e, frame));
  }

  /** Entering the call is part of the expression's own measure. */
  lemma EnterAbsorbed(before: Measure, e: Expr, frame: nat)
    ensures Plus(Some(Merge(before, Measure(0, frame, 0, []))), Tally(e, frame)) == Plus(Some(before), Tally(e, frame))
  {
    if Tally(e, frame).Some? {
      assert Tally(e, frame).value.recursion >= frame;
      assert before.patterns + [] == before.patterns;
    }
  }

  /** A whole statement measured by a fresh counter. */
  method MeasureStatement(statement: Statement) returns (r: Counted<Measure>)
    ensures r == if TallyStatement(statement).Some? then Ok(TallyStatement(statement).value) else Err(Uncountable)
  {
    var counter := new Counter();
    PlusZero(TallyStatement(statement));
    var counted := counter.CountStatement(statement);
    return if counted.Ok? then Ok(counter.measure) else Err(Uncountable);
  }
}
