/**
  * The counter and the emitter together: every emitted statement can be counted, an emitted
  * expression without EXISTS nests no deeper than it is tall, and its height is at most twice
  * that of the bound expression it came from.
  */
module EmitComplexity {
  import opened Core
  import opened Ir
  import opened Emit
  import opened EmitMutation
  import opened Complexity
  import Results
  import Sql

  // ----- The bound side -----

  /** The height of a bound expression; EXISTS and ROW_NUMBER over plain columns are leaves. */
  function BoundHeight(e: BoundExpr): nat {
    match e
    case Binary(_, left, right) => 1 + Max(BoundHeight(left), BoundHeight(right))
    case Unary(_, inner) => 1 + BoundHeight(inner)
    case In(expression, values, _) => 1 + Max(BoundHeight(expression), BoundTallest(values))
    case Case(branches, otherwise, _) => 1 + Max(BranchesHeight(branches), OptionalHeight(otherwise))
    case ConditionalOutput(value, visibleIf) => 1 + Max(BoundHeight(value), BoundHeight(visibleIf))
    case Scalar(_, arguments, _) => 1 + BoundTallest(arguments)
    case RowNumber(_, _, orderBy) => if DirectOrders(orderBy) then 1 else 1 + OrdersHeight(orderBy)
    case _ => 1
  }

  function BoundTallest(es: seq<BoundExpr>): nat {
    if es == [] then 0 else assert es decreases to es[0]; Max(BoundHeight(es[0]), BoundTallest(es[1..]))
  }

  function OptionalHeight(e: Option<BoundExpr>): nat {
    if e.None? then 0 else assert e decreases to e.value; BoundHeight(e.value)
  }

  function BranchesHeight(bs: seq<Branch>): nat {
    if bs == [] then 0
    else
      assert bs decreases to bs[0];
      Max(Max(BoundHeight(bs[0].condition), BoundHeight(bs[0].value)), BranchesHeight(bs[1..]))
  }

  function OrdersHeight(os: seq<BoundOrder>): nat {
    if os == [] then 0 else assert os decreases to os[0]; Max(BoundHeight(os[0].expression), OrdersHeight(os[1..]))
  }

  predicate DirectOrders(os: seq<BoundOrder>) {
    forall i | 0 <= i < |os| :: os[i].expression.Column?
  }

  /** No EXISTS anywhere in the expression. */
  predicate Flat(e: BoundExpr) {
    match e
    case Binary(_, left, right) => Flat(left) && Flat(right)
    case Unary(_, inner) => Flat(inner)
    case In(expression, values, _) => Flat(expression) && AllFlat(values)
    case Case(branches, otherwise, _) => BranchesFlat(branches) && OptionalFlat(otherwise)
    case ConditionalOutput(value, visibleIf) => Flat(value) && Flat(visibleIf)
    case Exists(_) => false
    case Scalar(_, arguments, _) => AllFlat(arguments)
    case RowNumber(_, _, orderBy) => OrdersFlat(orderBy)
    case _ => true
  }

  predicate AllFlat(es: seq<BoundExpr>) {
    es == [] || (assert es decreases to es[0]; Flat(es[0]) && AllFlat(es[1..]))
  }

  predicate OptionalFlat(e: Option<BoundExpr>) {
    e.None? || (assert e decreases to e.value; Flat(e.value))
  }

  predicate BranchesFlat(bs: seq<Branch>) {
    bs == [] || (assert bs decreases to bs[0]; Flat(bs[0].condition) && Flat(bs[0].value) && BranchesFlat(bs[1..]))
  }

  predicate OrdersFlat(os: seq<BoundOrder>) {
    os == [] || (assert os decreases to os[0]; Flat(os[0].expression) && OrdersFlat(os[1..]))
  }

  predicate ProjectionsFlat(ps: seq<BoundProjection>) {
    forall i | 0 <= i < |ps| :: Flat(ps[i].expression)
  }

  predicate JoinsFlat(js: seq<BoundJoin>) {
    forall i | 0 <= i < |js| :: Flat(js[i].on)
  }

  predicate SelectFlat(s: BoundSelect) {
    && ProjectionsFlat(s.projections) && JoinsFlat(s.joins) && OptionalFlat(s.filter) && OptionalFlat(s.having)
    && OrdersFlat(s.orderBy) && OptionalFlat(s.limit) && OptionalFlat(s.offset)
  }

  predicate AssignmentsFlat(assignments: seq<BoundAssignment>) {
    forall i | 0 <= i < |assignments| :: Flat(assignments[i].value)
  }

  predicate RowsFlat(rows: seq<seq<BoundAssignment>>) {
    forall i | 0 <= i < |rows| :: AssignmentsFlat(rows[i])
  }

  predicate InsertFlat(insert: BoundInsert, check: Option<BoundExpr>) {
    RowsFlat(insert.rows) && ProjectionsFlat(insert.returning) && OptionalFlat(check)
  }

  predicate UpdateFlat(update: BoundUpdate, check: Option<BoundExpr>) {
    && AssignmentsFlat(update.assignments) && OptionalFlat(update.filter)
    && ProjectionsFlat(update.returning) && OptionalFlat(check)
  }

  predicate DeleteFlat(delete: BoundDelete) {
    OptionalFlat(delete.filter) && ProjectionsFlat(delete.returning)
  }

  // ----- Counted parts -----

  /** A part is countable; if it is flat, it nests no deeper than its height, nothing in it is taller or has columns. */
  predicate Fits(t: Option<Measure>, frame: nat, height: nat, flat: bool) {
    && t.Some?
    && (flat ==> t.value.recursion + 1 <= frame + height && t.value.height == height && t.value.columns == 0)
  }

  /** A clause entered at `base` is countable; if it is flat, it nests no deeper than its tallest expression. */
  predicate Shallow(t: Option<Measure>, base: nat, flat: bool) {
    Wide(t, base, 0, flat)
  }

  /** The same of a part that has a list of `width` result columns and no wider one. */
  predicate Wide(t: Option<Measure>, base: nat, width: nat, flat: bool) {
    t.Some? && (flat ==> t.value.recursion <= base + t.value.height && t.value.columns == width)
  }

  lemma FitsShallow(t: Option<Measure>, base: nat, height: nat, flat: bool, weak: bool)
    requires Fits(t, base + 1, height, flat) && (weak ==> flat)
    ensures Shallow(t, base, weak)
  {
  }

  lemma ZeroShallow(base: nat, flat: bool)
    ensures Shallow(Some(ZERO), base, flat)
  {
  }

  lemma PlusShallow(a: Option<Measure>, b: Option<Measure>, base: nat, flat: bool)
    requires Shallow(a, base, flat) && Shallow(b, base, flat)
    ensures Shallow(Plus(a, b), base, flat)
  {
  }

  ghost predicate Counts(x: Sql.Expr, flat: bool) {
    Height(x) >= 1 && forall frame: nat | frame >= 1 :: Fits(Tally(x, frame), frame, Height(x), flat)
  }

  ghost predicate CountsEach(xs: seq<Sql.Expr>, flat: bool) {
    forall frame: nat | frame >= 1 :: Fits(TallyEach(xs, frame), frame, Tallest(xs), flat)
  }

  ghost predicate CountsOption(x: Option<Sql.Expr>, flat: bool) {
    forall frame: nat | frame >= 1 :: Fits(TallyOption(x, frame), frame, OptionHeight(x), flat)
  }

  ghost predicate CountsPairs(ps: seq<Sql.When>, flat: bool) {
    forall frame: nat | frame >= 1 :: Fits(TallyPairs(ps, frame), frame, PairsHeight(ps), flat)
  }

  ghost predicate CountsSorted(ss: seq<Sql.Sorted>, flat: bool) {
    forall frame: nat | frame >= 1 :: Fits(TallySorted(ss, frame), frame, SortedHeight(ss), flat)
  }

  lemma PlusFits(a: Option<Measure>, b: Option<Measure>, frame: nat, m: nat, n: nat, flat: bool)
    requires Fits(a, frame, m, flat) && Fits(b, frame, n, flat)
    ensures Fits(Plus(a, b), frame, Max(m, n), flat)
  {
  }

  lemma LeafCounts(x: Sql.Expr, flat: bool)
    requires x.Literal? || x.Id? || x.Qualified? || x.Variable?
    ensures Counts(x, flat) && Height(x) == 1
  {
  }

  lemma EachNone(flat: bool)
    ensures CountsEach([], flat) && CountsOption(None, flat) && CountsPairs([], flat) && CountsSorted([], flat)
  {
  }

  lemma EachCons(x: Sql.Expr, xs: seq<Sql.Expr>, flat: bool)
    requires Counts(x, flat) && CountsEach(xs, flat)
    ensures CountsEach([x] + xs, flat) && Tallest([x] + xs) == Max(Height(x), Tallest(xs))
  {
    assert ([x] + xs)[1..] == xs;
    forall frame: nat | frame >= 1 ensures Fits(TallyEach([x] + xs, frame), frame, Tallest([x] + xs), flat) {
      PlusFits(Tally(x, frame), TallyEach(xs, frame), frame, Height(x), Tallest(xs), flat);
    }
  }

  lemma EachOne(x: Sql.Expr, flat: bool)
    requires Counts(x, flat)
    ensures CountsEach([x], flat) && Tallest([x]) == Height(x)
  {
    EachNone(flat);
    EachCons(x, [], flat);
    assert [x] + [] == [x];
  }

  lemma WrappedCounts(x: Sql.Expr, flat: bool)
    requires Counts(x, flat)
    ensures Counts(Wrapped(x), flat) && Height(Wrapped(x)) == 1 + Height(x)
  {
    EachOne(x, flat);
    forall frame: nat | frame >= 1 ensures Fits(Tally(Wrapped(x), frame), frame, 1 + Height(x), flat) {
      assert Fits(TallyEach([x], frame + 1), frame + 1, Height(x), flat);
    }
  }

  lemma BinaryCounts(x: Sql.Expr, op: Sql.Operator, y: Sql.Expr, flat: bool)
    requires Counts(x, flat) && Counts(y, flat)
    ensures var b := Sql.Binary(x, op, y); Counts(b, flat) && Height(b) == 1 + Max(Height(x), Height(y))
  {
    var b := Sql.Binary(x, op, y);
    forall frame: nat | frame >= 1 ensures Fits(Tally(b, frame), frame, Height(b), flat) {
      assert Fits(Tally(x, frame), frame, Height(x), flat) && Fits(Tally(y, frame + 1), frame + 1, Height(y), flat);
    }
  }

  lemma MatchCounts(x: Sql.Expr, m: Sql.Matcher, y: Sql.Expr, flat: bool)
    requires Counts(x, flat) && Counts(y, flat)
    ensures var b := Sql.Match(x, m, y, None); Counts(b, flat) && Height(b) == 1 + Max(Height(x), Height(y))
  {
    var b := Sql.Match(x, m, y, None);
    assert RightHeight(b) == Max(Height(y), OptionHeight(None)) && OptionHeight(None) == 0;
    forall frame: nat | frame >= 1 ensures Fits(Tally(b, frame), frame, Height(b), flat) {
      assert Fits(Tally(x, frame), frame, Height(x), flat) && Fits(Tally(y, frame + 1), frame + 1, Height(y), flat);
      assert TallyEscape(None, frame + 1) == Some(ZERO);
      var pattern := TallyPattern(y, frame + 1);
      assert pattern == Plus(Some(Measure(0, 0, 0, if y.Variable? then [y.variable] else [])), Tally(y, frame + 1));
      PlusZero(pattern);
      assert TallyRight(b, frame) == pattern;
    }
  }

  lemma InListCounts(x: Sql.Expr, negated: bool, xs: seq<Sql.Expr>, flat: bool)
    requires Counts(x, flat) && CountsEach(xs, flat) && xs != []
    ensures var b := Sql.InList(x, negated, xs); Counts(b, flat) && Height(b) == 1 + Max(Height(x), Tallest(xs))
  {
    var b := Sql.InList(x, negated, xs);
    forall frame: nat | frame >= 1 ensures Fits(Tally(b, frame), frame, Height(b), flat) {
      assert Fits(Tally(x, frame), frame, Height(x), flat) &&
             Fits(TallyEach(xs, frame + 1), frame + 1, Tallest(xs), flat);
    }
  }

  lemma PrefixCounts(x: Sql.Expr, prefix: Sql.Prefix, flat: bool)
    requires Counts(x, flat)
    ensures var u := Sql.Unary(prefix, x); Counts(u, flat) && Height(u) == 1 + Height(x)
    ensures Counts(Sql.Cast(x), flat) && Height(Sql.Cast(x)) == 1 + Height(x)
  {
    var u, t := Sql.Unary(prefix, x), Sql.Cast(x);
    forall frame: nat | frame >= 1
      ensures Fits(Tally(u, frame), frame, Height(u), flat) && Fits(Tally(t, frame), frame, Height(t), flat)
    {
      assert Fits(Tally(x, frame + 1), frame + 1, Height(x), flat);
    }
  }

  lemma CaseCounts(ps: seq<Sql.When>, x: Option<Sql.Expr>, flat: bool)
    requires CountsPairs(ps, flat) && CountsOption(x, flat)
    ensures var k := Sql.Case(None, ps, x); Counts(k, flat) && Height(k) == 1 + Max(PairsHeight(ps), OptionHeight(x))
  {
    var k := Sql.Case(None, ps, x);
    assert OptionHeight(None) == 0;
    assert OperandHeight(k) == 1 + Max(Max(0, PairsHeight(ps)), OptionHeight(x));
    forall frame: nat | frame >= 1 ensures Fits(Tally(k, frame), frame, Height(k), flat) {
      var p, o := TallyPairs(ps, frame + 1), TallyOption(x, frame + 1);
      assert Fits(p, frame + 1, PairsHeight(ps), flat) && Fits(o, frame + 1, OptionHeight(x), flat);
      PlusZero(p);
      assert TallyOption(None, frame + 1) == Some(ZERO);
      PlusFits(p, o, frame + 1, PairsHeight(ps), OptionHeight(x), flat);
      assert TallyOperand(k, frame) == Plus(p, o);
    }
  }

  lemma SomeCounts(x: Sql.Expr, flat: bool)
    requires Counts(x, flat)
    ensures CountsOption(Some(x), flat) && OptionHeight(Some(x)) == Height(x)
  {
  }

  lemma PairsCons(x: Sql.Expr, y: Sql.Expr, ps: seq<Sql.When>, flat: bool)
    requires Counts(x, flat) && Counts(y, flat) && CountsPairs(ps, flat)
    ensures var qs := [Sql.When(x, y)] + ps;
            CountsPairs(qs, flat) && PairsHeight(qs) == Max(Max(Height(x), Height(y)), PairsHeight(ps))
  {
    var qs := [Sql.When(x, y)] + ps;
    assert qs[1..] == ps;
    forall frame: nat | frame >= 1 ensures Fits(TallyPairs(qs, frame), frame, PairsHeight(qs), flat) {
      PlusFits(Tally(x, frame), Tally(y, frame), frame, Height(x), Height(y), flat);
      PlusFits(Plus(Tally(x, frame), Tally(y, frame)), TallyPairs(ps, frame), frame, Max(Height(x), Height(y)),
               PairsHeight(ps), flat);
    }
  }

  lemma SortedCons(x: Sql.Expr, descending: bool, ss: seq<Sql.Sorted>, flat: bool)
    requires Counts(x, flat) && CountsSorted(ss, flat)
    ensures var ts := [Sql.Sorted(x, descending)] + ss;
            CountsSorted(ts, flat) && SortedHeight(ts) == Max(Height(x), SortedHeight(ss))
  {
    var ts := [Sql.Sorted(x, descending)] + ss;
    assert ts[1..] == ss;
    forall frame: nat | frame >= 1 ensures Fits(TallySorted(ts, frame), frame, SortedHeight(ts), flat) {
      PlusFits(Tally(x, frame), TallySorted(ss, frame), frame, Height(x), SortedHeight(ss), flat);
    }
  }

  lemma CallCounts(name: string, xs: seq<Sql.Expr>, flat: bool)
    requires CountsEach(xs, flat)
    ensures Counts(Sql.Call(name, xs), flat) && Height(Sql.Call(name, xs)) == 1 + Tallest(xs)
  {
    var k := Sql.Call(name, xs);
    assert OptionHeight(None) == 0 && TailHeight(k.tail) == 0 && SortedHeight([]) == 0;
    forall frame: nat | frame >= 1 ensures Fits(Tally(k, frame), frame, Height(k), flat) {
      var t := TallyEach(xs, frame + 1);
      assert Fits(t, frame + 1, Tallest(xs), flat);
      PlusZero(t);
      assert TallyTail(k.tail, frame + 1) == Plus(Some(ZERO), Some(ZERO));
      PlusZero(Some(ZERO));
      assert TallyOperand(k, frame) == t;
    }
  }

  lemma WindowCounts(partition: seq<Sql.Expr>, orders: seq<Sql.Sorted>, flat: bool)
    requires CountsEach(partition, flat) && CountsSorted(orders, flat)
    ensures var k := Sql.FunctionCall("ROW_NUMBER", [], [], [], Sql.Tail(None, Sql.Window(partition, orders, false)));
            Counts(k, flat) && Height(k) == 1 + Max(Tallest(partition), SortedHeight(orders))
  {
    var k := Sql.FunctionCall("ROW_NUMBER", [], [], [], Sql.Tail(None, Sql.Window(partition, orders, false)));
    assert OptionHeight(None) == 0 && TailHeight(k.tail) == Max(Tallest(partition), SortedHeight(orders));
    assert OperandHeight(k) == 1 + TailHeight(k.tail) by { assert Tallest([]) == 0 && SortedHeight([]) == 0; }
    forall frame: nat | frame >= 1 ensures Fits(Tally(k, frame), frame, Height(k), flat) {
      var p, o := TallyEach(partition, frame + 1), TallySorted(orders, frame + 1);
      assert Fits(p, frame + 1, Tallest(partition), flat) && Fits(o, frame + 1, SortedHeight(orders), flat);
      PlusFits(p, o, frame + 1, Tallest(partition), SortedHeight(orders), flat);
      PlusZero(Plus(p, o));
      PlusZero(Some(ZERO));
      assert TallyTail(k.tail, frame + 1) == Plus(p, o);
      assert TallyOperand(k, frame) == Plus(p, o);
    }
  }

  lemma CountStarCounts(flat: bool)
    ensures var k := Sql.FunctionCallStar("COUNT", Sql.Tail(None, Sql.NoWindow)); Counts(k, flat) && Height(k) == 1
  {
    PlusZero(Some(ZERO));
  }

  // ----- Emitted expressions -----

  /** What holds of an emitted expression. */
  ghost predicate Emits(x: Sql.Expr, e: BoundExpr) {
    Counts(x, Flat(e)) && Height(x) <= 2 * BoundHeight(e)
  }

  lemma FlatWeaken(x: Sql.Expr, strong: bool, weak: bool)
    requires Counts(x, strong) && (weak ==> strong)
    ensures Counts(x, weak)
  {
    forall frame: nat | frame >= 1 ensures Fits(Tally(x, frame), frame, Height(x), weak) {
      assert Fits(Tally(x, frame), frame, Height(x), strong);
    }
  }

  lemma LiteralEmits(em: Emitter, v: LogicalValue, st: EmitState)
    requires EmitLiteral(em, v, st).Ok?
    ensures Emits(EmitLiteral(em, v, st).value.0, Literal(v))
  {
    var x := EmitLiteral(em, v, st).value.0;
    match v
    case String(_) => FreshIsVariable(v, st); LeafCounts(x, true);
    case Bytes(_) => FreshIsVariable(v, st); LeafCounts(x, true);
    case Json(_) => FreshIsVariable(v, st); LeafCounts(x, true);
    case _ => SignedCounts(x);
  }

  lemma SignedCounts(x: Sql.Expr)
    requires x.Literal? || (x.Unary? && x.inner.Literal?)
    ensures Counts(x, true) && Height(x) <= 2
  {
    if x.Unary? {
      LeafCounts(x.inner, true);
      PrefixCounts(x.inner, x.prefix, true);
    } else {
      LeafCounts(x, true);
    }
  }

  lemma {:induction false} FreshIsVariable(v: LogicalValue, st: EmitState)
    requires FreshLiteral(v, st).Ok?
    ensures FreshLiteral(v, st).value.0.Variable?
    decreases MAX_LITERALS - st.nextLiteral
  {
    var name := LiteralName(st.nextLiteral);
    var st' := st.(serverParameters := st.serverParameters[name := v], nextLiteral := st.nextLiteral + 1);
    if name in st.serverParameters { FreshIsVariable(v, st'); }
  }

  lemma InfixCounts(x: Sql.Expr, op: Sql.Operator, y: Sql.Expr, flat: bool)
    requires Counts(x, flat) && Counts(y, flat)
    ensures var b := Wrapped(Sql.Binary(x, op, y)); Counts(b, flat) && Height(b) == 2 + Max(Height(x), Height(y))
  {
    BinaryCounts(x, op, y, flat);
    WrappedCounts(Sql.Binary(x, op, y), flat);
  }

  lemma PatternCounts(x: Sql.Expr, m: Sql.Matcher, y: Sql.Expr, flat: bool)
    requires Counts(x, flat) && Counts(y, flat)
    ensures var b := Wrapped(Sql.Match(x, m, y, None)); Counts(b, flat) && Height(b) == 2 + Max(Height(x), Height(y))
  {
    MatchCounts(x, m, y, flat);
    WrappedCounts(Sql.Match(x, m, y, None), flat);
  }

  lemma MinCounts(x: Sql.Expr, y: Sql.Expr, flat: bool)
    requires Counts(x, flat) && Counts(y, flat)
    ensures var b := Sql.Call("MIN", [x, y]); Counts(b, flat) && Height(b) == 1 + Max(Height(x), Height(y))
  {
    EachOne(y, flat);
    EachCons(x, [y], flat);
    assert [x] + [y] == [x, y];
    CallCounts("MIN", [x, y], flat);
  }

  lemma OperatorCounts(op: BinaryOp, x: Sql.Expr, y: Sql.Expr, flat: bool)
    requires Counts(x, flat) && Counts(y, flat)
    ensures Counts(EmitBinary(op, x, y), flat) && Height(EmitBinary(op, x, y)) <= 2 + Max(Height(x), Height(y))
  {
    match op
    case Equal => InfixCounts(x, Sql.Equals, y, flat);
    case NotEqual => InfixCounts(x, Sql.NotEquals, y, flat);
    case Less => InfixCounts(x, Sql.LessThan, y, flat);
    case LessEqual => InfixCounts(x, Sql.LessEquals, y, flat);
    case Greater => InfixCounts(x, Sql.GreaterThan, y, flat);
    case GreaterEqual => InfixCounts(x, Sql.GreaterEquals, y, flat);
    case And => InfixCounts(x, Sql.AndOp, y, flat);
    case Or => InfixCounts(x, Sql.OrOp, y, flat);
    case Like => PatternCounts(x, Sql.LikeOp, y, flat);
    case Glob => PatternCounts(x, Sql.GlobOp, y, flat);
    case Least => MinCounts(x, y, flat);
    case Concat => InfixCounts(x, Sql.ConcatOp, y, flat);
  }

  lemma BinaryEmits(op: BinaryOp, x: Sql.Expr, left: BoundExpr, y: Sql.Expr, right: BoundExpr)
    requires Emits(x, left) && Emits(y, right)
    ensures Emits(EmitBinary(op, x, y), Binary(op, left, right))
  {
    var flat := Flat(left) && Flat(right);
    FlatWeaken(x, Flat(left), flat);
    FlatWeaken(y, Flat(right), flat);
    OperatorCounts(op, x, y, flat);
  }

  lemma UnaryEmits(op: UnaryOp, x: Sql.Expr, inner: BoundExpr)
    requires Emits(x, inner)
    ensures Emits(EmitUnary(op, x), Unary(op, inner))
  {
    var flat := Flat(inner);
    PrefixCounts(x, Sql.NotOp, flat);
    match op
    case Not => WrappedCounts(Sql.Unary(Sql.NotOp, x), flat);
    case IsNull =>
      LeafCounts(Sql.Literal(Sql.NullToken), flat);
      BinaryCounts(x, Sql.IsOp, Sql.Literal(Sql.NullToken), flat);
      WrappedCounts(Sql.Binary(x, Sql.IsOp, Sql.Literal(Sql.NullToken)), flat);
    case CastText =>
  }

  lemma EachWeaken(xs: seq<Sql.Expr>, strong: bool, weak: bool)
    requires CountsEach(xs, strong) && (weak ==> strong)
    ensures CountsEach(xs, weak)
  {
    forall frame: nat | frame >= 1 ensures Fits(TallyEach(xs, frame), frame, Tallest(xs), weak) {
      assert Fits(TallyEach(xs, frame), frame, Tallest(xs), strong);
    }
  }

  lemma OptionWeaken(x: Option<Sql.Expr>, strong: bool, weak: bool)
    requires CountsOption(x, strong) && (weak ==> strong)
    ensures CountsOption(x, weak)
  {
    forall frame: nat | frame >= 1 ensures Fits(TallyOption(x, frame), frame, OptionHeight(x), weak) {
      assert Fits(TallyOption(x, frame), frame, OptionHeight(x), strong);
    }
  }

  lemma PairsWeaken(ps: seq<Sql.When>, strong: bool, weak: bool)
    requires CountsPairs(ps, strong) && (weak ==> strong)
    ensures CountsPairs(ps, weak)
  {
    forall frame: nat | frame >= 1 ensures Fits(TallyPairs(ps, frame), frame, PairsHeight(ps), weak) {
      assert Fits(TallyPairs(ps, frame), frame, PairsHeight(ps), strong);
    }
  }

  lemma SortedWeaken(ss: seq<Sql.Sorted>, strong: bool, weak: bool)
    requires CountsSorted(ss, strong) && (weak ==> strong)
    ensures CountsSorted(ss, weak)
  {
    forall frame: nat | frame >= 1 ensures Fits(TallySorted(ss, frame), frame, SortedHeight(ss), weak) {
      assert Fits(TallySorted(ss, frame), frame, SortedHeight(ss), strong);
    }
  }

  /** Every emitted expression is countable, within its height when flat, and at most twice as tall. */
  lemma {:induction false} ExprEmits(em: Emitter, e: BoundExpr, st: EmitState)
    requires EmitExpr(em, e, st).Ok?
    ensures Emits(EmitExpr(em, e, st).value.0, e)
    decreases e, 1
  {
    match e
    case Column(_) => LeafCounts(EmitExpr(em, e, st).value.0, true);
    case ClientParameter(_, _) => LeafCounts(EmitExpr(em, e, st).value.0, true);
    case ServerParameter(_, _) => LeafCounts(EmitExpr(em, e, st).value.0, true);
    case Literal(v) => LiteralEmits(em, v, st);
    case Binary(op, left, right) =>
      var (x, st1) := EmitExpr(em, left, st).value;
      ExprEmits(em, left, st);
      ExprEmits(em, right, st1);
      BinaryEmits(op, x, left, EmitExpr(em, right, st1).value.0, right);
    case Unary(op, inner) =>
      ExprEmits(em, inner, st);
      UnaryEmits(op, EmitExpr(em, inner, st).value.0, inner);
    case In(_, _, _) => InEmits(em, e, st);
    case Case(_, _, _) => CaseEmits(em, e, st);
    case ConditionalOutput(_, _) => ConditionalEmits(em, e, st);
    case Exists(select) =>
      SelectEmits(em, select, st);
      ExistsCounts(EmitSelect(em, select, st).value.0, Outputs(select.projections), SelectFlat(select));
    case CountAll(_) => CountStarCounts(true);
    case Scalar(routine, arguments, _) =>
      AllEmits(em, arguments, st);
      CallCounts(RoutineName(routine), EmitAll(em, arguments, st).value.0, AllFlat(arguments));
    case RowNumber(_, _, _) => RowNumberEmits(em, e, st);
  }

  lemma ExistsCounts(query: Sql.Select, width: nat, flat: bool)
    requires forall base: nat :: Wide(TallySelect(query, base), base, width, flat)
    ensures Counts(Sql.Exists(query), false) && Height(Sql.Exists(query)) == 1
  {
    forall frame: nat | frame >= 1 ensures Fits(Tally(Sql.Exists(query), frame), frame, 1, false) {
      assert Wide(TallySelect(query, frame), frame, width, flat);
    }
  }

  lemma {:induction false} InEmits(em: Emitter, e: BoundExpr, st: EmitState)
    requires e.In? && EmitExpr(em, e, st).Ok?
    ensures Emits(EmitExpr(em, e, st).value.0, e)
    decreases e, 0
  {
    var (x, st1) := EmitExpr(em, e.expression, st).value;
    var members := EmitAll(em, e.values, st1).value.0;
    ExprEmits(em, e.expression, st);
    AllEmits(em, e.values, st1);
    FlatWeaken(x, Flat(e.expression), Flat(e));
    EachWeaken(members, AllFlat(e.values), Flat(e));
    InListCounts(x, e.negated, members, Flat(e));
    WrappedCounts(Sql.InList(x, e.negated, members), Flat(e));
  }

  lemma {:induction false} CaseEmits(em: Emitter, e: BoundExpr, st: EmitState)
    requires e.Case? && EmitExpr(em, e, st).Ok?
    ensures Emits(EmitExpr(em, e, st).value.0, e)
    decreases e, 0
  {
    var (pairs, st1) := EmitBranches(em, e.branches, st).value;
    var other := EmitOption(em, e.otherwise, st1).value.0;
    BranchesEmit(em, e.branches, st);
    OptionEmits(em, e.otherwise, st1);
    PairsWeaken(pairs, BranchesFlat(e.branches), Flat(e));
    OptionWeaken(other, OptionalFlat(e.otherwise), Flat(e));
    CaseCounts(pairs, other, Flat(e));
  }

  lemma {:induction false} ConditionalEmits(em: Emitter, e: BoundExpr, st: EmitState)
    requires e.ConditionalOutput? && EmitExpr(em, e, st).Ok?
    ensures Emits(EmitExpr(em, e, st).value.0, e)
    decreases e, 0
  {
    var (condition, st1) := EmitExpr(em, e.visibleIf, st).value;
    var x := EmitExpr(em, e.value, st1).value.0;
    ExprEmits(em, e.visibleIf, st);
    ExprEmits(em, e.value, st1);
    FlatWeaken(condition, Flat(e.visibleIf), Flat(e));
    FlatWeaken(x, Flat(e.value), Flat(e));
    EachNone(Flat(e));
    PairsCons(condition, x, [], Flat(e));
    assert [Sql.When(condition, x)] + [] == [Sql.When(condition, x)] && PairsHeight([]) == 0;
    LeafCounts(Sql.Literal(Sql.NullToken), Flat(e));
    SomeCounts(Sql.Literal(Sql.NullToken), Flat(e));
    CaseCounts([Sql.When(condition, x)], Some(Sql.Literal(Sql.NullToken)), Flat(e));
  }

  lemma {:induction false} RowNumberEmits(em: Emitter, e: BoundExpr, st: EmitState)
    requires e.RowNumber? && EmitExpr(em, e, st).Ok?
    ensures Emits(EmitExpr(em, e, st).value.0, e)
    decreases e, 0
  {
    var partition := EmitColumns(em, e.partitionBy).value;
    var orders := EmitOrders(em, e.orderBy, st).value.0;
    ColumnsEmit(em, e.partitionBy, Flat(e));
    OrdersEmit(em, e.orderBy, st);
    WindowCounts(partition, orders, Flat(e));
    if DirectOrders(e.orderBy) { DirectOrdersHeight(em, e.orderBy, st); }
  }

  lemma {:induction false} ColumnsEmit(em: Emitter, columns: seq<BoundColumn>, flat: bool)
    requires EmitColumns(em, columns).Ok?
    ensures CountsEach(EmitColumns(em, columns).value, flat) && Tallest(EmitColumns(em, columns).value) <= 1
    decreases |columns|
  {
    EachNone(flat);
    if columns != [] {
      var x, rest := EmitColumn(em, columns[0].id).value, EmitColumns(em, columns[1..]).value;
      ColumnsEmit(em, columns[1..], flat);
      LeafCounts(x, flat);
      EachCons(x, rest, flat);
    }
  }

  lemma {:induction false} DirectOrdersHeight(em: Emitter, orders: seq<BoundOrder>, st: EmitState)
    requires EmitOrders(em, orders, st).Ok? && DirectOrders(orders)
    ensures SortedHeight(EmitOrders(em, orders, st).value.0) <= 1
    decreases |orders|
  {
    if orders != [] {
      var (x, st1) := EmitExpr(em, orders[0].expression, st).value;
      var rest := EmitOrders(em, orders[1..], st1).value.0;
      DirectOrdersHeight(em, orders[1..], st1);
      LeafCounts(x, true);
      assert ([Sql.Sorted(x, orders[0].direction == Descending)] + rest)[1..] == rest;
    }
  }

  lemma {:induction false} AllEmits(em: Emitter, es: seq<BoundExpr>, st: EmitState)
    requires EmitAll(em, es, st).Ok?
    ensures var xs := EmitAll(em, es, st).value.0;
            |xs| == |es| && CountsEach(xs, AllFlat(es)) && Tallest(xs) <= 2 * BoundTallest(es)
    decreases es, 0
  {
    EachNone(true);
    if es != [] {
      assert es decreases to es[0];
      var (x, st1) := EmitExpr(em, es[0], st).value;
      var rest := EmitAll(em, es[1..], st1).value.0;
      ExprEmits(em, es[0], st);
      AllEmits(em, es[1..], st1);
      FlatWeaken(x, Flat(es[0]), AllFlat(es));
      EachWeaken(rest, AllFlat(es[1..]), AllFlat(es));
      EachCons(x, rest, AllFlat(es));
    }
  }

  lemma {:induction false} OptionEmits(em: Emitter, e: Option<BoundExpr>, st: EmitState)
    requires EmitOption(em, e, st).Ok?
    ensures var x := EmitOption(em, e, st).value.0;
            CountsOption(x, OptionalFlat(e)) && OptionHeight(x) <= 2 * OptionalHeight(e)
    decreases e, 0
  {
    EachNone(true);
    if e.Some? {
      assert e decreases to e.value;
      ExprEmits(em, e.value, st);
      SomeCounts(EmitExpr(em, e.value, st).value.0, Flat(e.value));
    }
  }

  lemma {:induction false} BranchesEmit(em: Emitter, bs: seq<Branch>, st: EmitState)
    requires EmitBranches(em, bs, st).Ok?
    ensures var ps := EmitBranches(em, bs, st).value.0;
            CountsPairs(ps, BranchesFlat(bs)) && PairsHeight(ps) <= 2 * BranchesHeight(bs)
    decreases bs, 0
  {
    EachNone(true);
    if bs != [] {
      assert bs decreases to bs[0];
      var (x, st1) := EmitExpr(em, bs[0].condition, st).value;
      var (y, st2) := EmitExpr(em, bs[0].value, st1).value;
      var rest := EmitBranches(em, bs[1..], st2).value.0;
      ExprEmits(em, bs[0].condition, st);
      ExprEmits(em, bs[0].value, st1);
      BranchesEmit(em, bs[1..], st2);
      FlatWeaken(x, Flat(bs[0].condition), BranchesFlat(bs));
      FlatWeaken(y, Flat(bs[0].value), BranchesFlat(bs));
      PairsWeaken(rest, BranchesFlat(bs[1..]), BranchesFlat(bs));
      PairsCons(x, y, rest, BranchesFlat(bs));
    }
  }

  lemma {:induction false} OrdersEmit(em: Emitter, os: seq<BoundOrder>, st: EmitState)
    requires EmitOrders(em, os, st).Ok?
    ensures var ss := EmitOrders(em, os, st).value.0;
            CountsSorted(ss, OrdersFlat(os)) && SortedHeight(ss) <= 2 * OrdersHeight(os)
    decreases os, 0
  {
    EachNone(true);
    if os != [] {
      assert os decreases to os[0];
      var (x, st1) := EmitExpr(em, os[0].expression, st).value;
      var rest := EmitOrders(em, os[1..], st1).value.0;
      ExprEmits(em, os[0].expression, st);
      OrdersEmit(em, os[1..], st1);
      FlatWeaken(x, Flat(os[0].expression), OrdersFlat(os));
      SortedWeaken(rest, OrdersFlat(os[1..]), OrdersFlat(os));
      SortedCons(x, os[0].direction == Descending, rest, OrdersFlat(os));
    }
  }

  // ----- Emitted queries and statements -----

  lemma FlagCounts(condition: Sql.Expr, flat: bool)
    requires Counts(condition, flat)
    ensures Counts(FlagOf(condition), flat) && Height(FlagOf(condition)) == 1 + Max(Height(condition), 1)
  {
    var yes, no := Sql.Literal(Sql.TrueToken), Sql.Literal(Sql.FalseToken);
    LeafCounts(yes, flat);
    LeafCounts(no, flat);
    EachNone(flat);
    PairsCons(condition, yes, [], flat);
    assert [Sql.When(condition, yes)] + [] == [Sql.When(condition, yes)] && PairsHeight([]) == 0;
    SomeCounts(no, flat);
    CaseCounts([Sql.When(condition, yes)], Some(no), flat);
  }

  lemma OutputsCons(x: Sql.Expr, alias: string, rest: seq<Sql.ResultColumn>, base: nat, flat: bool)
    requires Counts(x, flat) && Shallow(TallyOutputs(rest, base), base, flat)
    ensures Shallow(TallyOutputs([Sql.Output(x, alias)] + rest, base), base, flat)
  {
    assert ([Sql.Output(x, alias)] + rest)[1..] == rest;
    assert Fits(Tally(x, base + 1), base + 1, Height(x), flat);
  }

  lemma {:induction false} ProjectionsEmit(
      em: Emitter, ps: seq<BoundProjection>, index: nat, st: EmitState, base: nat, flat: bool)
    requires EmitProjections(em, ps, index, st).Ok? && (flat ==> ProjectionsFlat(ps))
    ensures Shallow(TallyOutputs(EmitProjections(em, ps, index, st).value.0, base), base, flat)
    decreases ps, 0
  {
    if ps != [] {
      assert ps decreases to ps[0];
      var e, name := ps[0].expression, ps[0].outputName;
      var (x, st1) := EmitExpr(em, e, st).value;
      ExprEmits(em, e, st);
      FlatWeaken(x, Flat(e), flat);
      if e.ConditionalOutput? {
        assert e decreases to e.visibleIf;
        var (condition, st2) := EmitExpr(em, e.visibleIf, st1).value;
        var rest := EmitProjections(em, ps[1..], index + 1, st2).value.0;
        ExprEmits(em, e.visibleIf, st1);
        FlatWeaken(condition, Flat(e.visibleIf), flat);
        FlagCounts(condition, flat);
        ProjectionsEmit(em, ps[1..], index + 1, st2, base, flat);
        var flag := Sql.Output(FlagOf(condition), Results.VisibilityName(index));
        OutputsCons(flag.expr, flag.alias, rest, base, flat);
        OutputsCons(x, name, [flag] + rest, base, flat);
        assert [Sql.Output(x, name), flag] + rest == [Sql.Output(x, name)] + ([flag] + rest);
      } else {
        var rest := EmitProjections(em, ps[1..], index + 1, st1).value.0;
        ProjectionsEmit(em, ps[1..], index + 1, st1, base, flat);
        OutputsCons(x, name, rest, base, flat);
      }
    }
  }

  /** One result column for every projection, and one more for the visibility of each conditional output. */
  function Outputs(ps: seq<BoundProjection>): nat {
    if ps == [] then 0 else (if ps[0].expression.ConditionalOutput? then 2 else 1) + Outputs(ps[1..])
  }

  lemma {:induction false} OutputsEmitted(em: Emitter, ps: seq<BoundProjection>, index: nat, st: EmitState)
    requires EmitProjections(em, ps, index, st).Ok?
    ensures |EmitProjections(em, ps, index, st).value.0| == Outputs(ps)
    decreases |ps|
  {
    if ps != [] {
      var st1 := EmitExpr(em, ps[0].expression, st).value.1;
      if ps[0].expression.ConditionalOutput? {
        OutputsEmitted(em, ps[1..], index + 1, EmitExpr(em, ps[0].expression.visibleIf, st1).value.1);
      } else {
        OutputsEmitted(em, ps[1..], index + 1, st1);
      }
    }
  }

  lemma ColumnsWide(columns: seq<Sql.ResultColumn>, base: nat, flat: bool)
    requires Shallow(TallyOutputs(columns, base), base, flat)
    ensures Wide(TallyColumns(columns, base), base, |columns|, flat)
  {
  }

  lemma {:induction false} JoinsEmit(em: Emitter, js: seq<BoundJoin>, st: EmitState, base: nat, flat: bool)
    requires EmitJoins(em, js, st).Ok? && (flat ==> JoinsFlat(js))
    ensures Shallow(TallyJoins(EmitJoins(em, js, st).value.0, base), base, flat)
    decreases js, 0
  {
    if js != [] {
      assert js decreases to js[0];
      var (on, st1) := EmitExpr(em, js[0].on, st).value;
      var rest := EmitJoins(em, js[1..], st1).value.0;
      ExprEmits(em, js[0].on, st);
      JoinsEmit(em, js[1..], st1, base, flat);
      FlatWeaken(on, Flat(js[0].on), flat);
      var join := EmitJoins(em, js, st).value.0[0];
      JoinShallow(join, on, base, flat);
      PlusShallow(TallyJoin(join, base), TallyJoins(rest, base), base, flat);
      assert EmitJoins(em, js, st).value.0[1..] == rest;
    }
  }

  lemma JoinShallow(join: Sql.Join, on: Sql.Expr, base: nat, flat: bool)
    requires join.table.Named? && join.constraint == Sql.On(on) && Counts(on, flat)
    ensures Shallow(TallyJoin(join, base), base, flat)
  {
    assert Fits(Tally(on, base + 1), base + 1, Height(on), flat);
    assert TallyTable(join.table, base) == Some(ZERO);
  }

  lemma {:induction false} GroupByEmits(
      em: Emitter, columns: seq<BoundColumn>, having: Option<BoundExpr>, st: EmitState, base: nat, flat: bool)
    requires EmitGroupBy(em, columns, having, st).Ok? && (flat ==> OptionalFlat(having))
    ensures Shallow(TallyGroupBy(EmitGroupBy(em, columns, having, st).value.0, base), base, flat)
    decreases having, 1
  {
    if !(columns == [] && having.None?) {
      ColumnsEmit(em, columns, flat);
      OptionEmits(em, having, st);
      var g := EmitGroupBy(em, columns, having, st).value.0.value;
      assert Fits(TallyEach(g.exprs, base + 1), base + 1, Tallest(g.exprs), flat);
      FitsShallow(TallyEach(g.exprs, base + 1), base, Tallest(g.exprs), flat, flat);
      OptionShallow(g.having, OptionalFlat(having), base, flat);
    }
  }

  lemma OptionShallow(x: Option<Sql.Expr>, flat: bool, base: nat, weak: bool)
    requires CountsOption(x, flat) && (weak ==> flat)
    ensures Shallow(TallyOption(x, base + 1), base, weak)
  {
    assert Fits(TallyOption(x, base + 1), base + 1, OptionHeight(x), flat);
  }

  lemma SortedShallow(ss: seq<Sql.Sorted>, flat: bool, base: nat, weak: bool)
    requires CountsSorted(ss, flat) && (weak ==> flat)
    ensures Shallow(TallySorted(ss, base + 1), base, weak)
  {
    assert Fits(TallySorted(ss, base + 1), base + 1, SortedHeight(ss), flat);
  }

  /** Every emitted query is countable, at any nesting, and nests no deeper than it is tall if it is flat. */
  lemma {:induction false} SelectEmits(em: Emitter, s: BoundSelect, st: EmitState)
    requires EmitSelect(em, s, st).Ok?
    ensures forall base: nat ::
              Wide(TallySelect(EmitSelect(em, s, st).value.0, base), base, Outputs(s.projections), SelectFlat(s))
    decreases s, 2
  {
    var (joins, st1) := EmitJoins(em, s.joins, st).value;
    var (groupBy, st2) := EmitGroupBy(em, s.groupBy, s.having, st1).value;
    var (orderBy, st3) := EmitOrders(em, s.orderBy, st2).value;
    var (limit, st4) := EmitOption(em, s.limit, st3).value;
    var (offset, st5) := EmitOption(em, s.offset, st4).value;
    var (columns, st6) := EmitProjections(em, s.projections, 0, st5).value;
    var (filter, st7) := EmitOption(em, s.filter, st6).value;
    var flat := SelectFlat(s);
    OrdersEmit(em, s.orderBy, st2);
    OptionEmits(em, s.limit, st3);
    OptionEmits(em, s.offset, st4);
    OptionEmits(em, s.filter, st6);
    forall base: nat
      ensures Wide(TallySelect(EmitSelect(em, s, st).value.0, base), base, Outputs(s.projections), flat)
    {
      OutputsEmitted(em, s.projections, 0, st5);
      JoinsEmit(em, s.joins, st, base, flat);
      GroupByEmits(em, s.groupBy, s.having, st1, base, flat);
      ProjectionsEmit(em, s.projections, 0, st5, base, flat);
      OptionShallow(limit, OptionalFlat(s.limit), base, flat);
      OptionShallow(offset, OptionalFlat(s.offset), base, flat);
      OptionShallow(filter, OptionalFlat(s.filter), base, flat);
      SortedShallow(orderBy, OrdersFlat(s.orderBy), base, flat);
      LimitShallow(limit, offset, base, flat);
      SelectShallow(EmitSelect(em, s, st).value.0, base, flat);
    }
  }

  lemma LimitShallow(limit: Option<Sql.Expr>, offset: Option<Sql.Expr>, base: nat, flat: bool)
    requires Shallow(TallyOption(limit, base + 1), base, flat) && Shallow(TallyOption(offset, base + 1), base, flat)
    ensures Shallow(TallyLimit(match limit case None => None case Some(l) => Some(Sql.Limit(l, offset)), base), base,
            flat)
  {
    if limit.Some? {
      PlusShallow(Tally(limit.value, base + 1), TallyOption(offset, base + 1), base, flat);
    }
  }

  /** A query without WITH, compounds or windows is as shallow as its parts. */
  lemma SelectShallow(q: Sql.Select, base: nat, flat: bool)
    requires q.ctes == [] && q.compounds == [] && q.body.Query? && !q.body.windows
    requires q.body.from.Some? && q.body.from.value.table.Named?
    requires Shallow(TallyJoins(q.body.from.value.joins, base), base, flat)
    requires Shallow(TallyOutputs(q.body.columns, base), base, flat)
    requires Shallow(TallyOption(q.body.filter, base + 1), base, flat)
    requires Shallow(TallyGroupBy(q.body.groupBy, base), base, flat)
    requires Shallow(TallySorted(q.orderBy, base + 1), base, flat) && Shallow(TallyLimit(q.limit, base), base, flat)
    ensures Wide(TallySelect(q, base), base, |q.body.columns|, flat)
  {
    assert TallyTable(q.body.from.value.table, base) == Some(ZERO);
    assert Shallow(TallyFrom(q.body.from.value, base), base, flat);
    assert Shallow(TallyFromOption(q.body.from, base), base, flat);
    ColumnsWide(q.body.columns, base, flat);
    assert Wide(TallyOne(q.body, base), base, |q.body.columns|, flat);
    assert TallySelects([], base) == Some(ZERO) && TallyOnes([], base) == Some(ZERO);
  }

  lemma ReturningEmits(
      em: Emitter, returning: seq<BoundProjection>, check: Option<BoundExpr>, st: EmitState, flat: bool)
    requires EmitReturning(em, returning, check, st).Ok? && (flat ==> ProjectionsFlat(returning) && OptionalFlat(check))
    ensures Wide(TallyColumns(EmitReturning(em, returning, check, st).value.0, 0), 0, Outputs(returning) + 1, flat)
  {
    OutputsEmitted(em, returning, 0, st);
    var (columns, st1) := EmitProjections(em, returning, 0, st).value;
    var (condition, st2) := EmitExpr(em, check.value, st1).value;
    ProjectionsEmit(em, returning, 0, st, 0, flat);
    ExprEmits(em, check.value, st1);
    FlatWeaken(condition, Flat(check.value), flat);
    FlagCounts(condition, flat);
    OutputsAppendCounts(columns, FlagOf(condition), Results.CHECK_COLUMN, flat);
    ColumnsWide(EmitReturning(em, returning, check, st).value.0, 0, flat);
  }

  lemma OutputsAppendCounts(columns: seq<Sql.ResultColumn>, x: Sql.Expr, alias: string, flat: bool)
    requires Shallow(TallyOutputs(columns, 0), 0, flat) && Counts(x, flat)
    ensures Shallow(TallyOutputs(columns + [Sql.Output(x, alias)], 0), 0, flat)
  {
    var last := [Sql.Output(x, alias)];
    ZeroShallow(0, flat);
    OutputsCons(x, alias, [], 0, flat);
    assert last + [] == last;
    OutputsSum(columns, last);
    PlusShallow(TallyOutputs(columns, 0), TallyOutputs(last, 0), 0, flat);
  }

  lemma {:induction false} OutputsSum(columns: seq<Sql.ResultColumn>, last: seq<Sql.ResultColumn>)
    ensures TallyOutputs(columns + last, 0) == Plus(TallyOutputs(columns, 0), TallyOutputs(last, 0))
    decreases |columns|
  {
    if columns == [] {
      assert columns + last == last;
      PlusZero(TallyOutputs(last, 0));
    } else {
      assert (columns + last)[1..] == columns[1..] + last && (columns + last)[0] == columns[0];
      OutputsSum(columns[1..], last);
      if !columns[0].Star? {
        PlusAssociative(Tally(columns[0].expr, 1), TallyOutputs(columns[1..], 0), TallyOutputs(last, 0));
      }
    }
  }

  lemma {:induction false} SetsEmit(
      em: Emitter, r: ResourceId, assignments: seq<BoundAssignment>, st: EmitState, flat: bool)
    requires r in em.catalog && EmitSets(em, r, assignments, st).Ok? && (flat ==> AssignmentsFlat(assignments))
    ensures Shallow(TallySets(EmitSets(em, r, assignments, st).value.0), 0, flat)
    decreases |assignments|
  {
    if assignments != [] {
      var (x, st1) := EmitExpr(em, assignments[0].value, st).value;
      var rest := EmitSets(em, r, assignments[1..], st1).value.0;
      ExprEmits(em, assignments[0].value, st);
      SetsEmit(em, r, assignments[1..], st1, flat);
      assert Fits(Tally(x, 1), 1, Height(x), Flat(assignments[0].value));
      FitsShallow(Tally(x, 1), 0, Height(x), Flat(assignments[0].value), flat);
      PlusShallow(Tally(x, 1), TallySets(rest), 0, flat);
      assert EmitSets(em, r, assignments, st).value.0[1..] == rest;
    }
  }

  lemma {:induction false} ValuesEmit(em: Emitter, assignments: seq<BoundAssignment>, st: EmitState, flat: bool)
    requires EmitValues(em, assignments, st).Ok? && (flat ==> AssignmentsFlat(assignments))
    ensures CountsEach(EmitValues(em, assignments, st).value.0, flat)
    decreases |assignments|
  {
    EachNone(flat);
    if assignments != [] {
      var (x, st1) := EmitExpr(em, assignments[0].value, st).value;
      var rest := EmitValues(em, assignments[1..], st1).value.0;
      ExprEmits(em, assignments[0].value, st);
      FlatWeaken(x, Flat(assignments[0].value), flat);
      ValuesEmit(em, assignments[1..], st1, flat);
      EachCons(x, rest, flat);
    }
  }

  lemma {:induction false} RowsEmit(
      em: Emitter, first: seq<BoundAssignment>, rows: seq<seq<BoundAssignment>>, st: EmitState, flat: bool)
    requires EmitRows(em, first, rows, st).Ok? && (flat ==> RowsFlat(rows))
    ensures Shallow(TallyRows(EmitRows(em, first, rows, st).value.0, 0), 0, flat)
    decreases |rows|
  {
    if rows != [] {
      var (cells, st1) := EmitValues(em, rows[0], st).value;
      var rest := EmitRows(em, first, rows[1..], st1).value.0;
      ValuesEmit(em, rows[0], st, flat);
      RowsEmit(em, first, rows[1..], st1, flat);
      assert Fits(TallyEach(cells, 1), 1, Tallest(cells), flat);
      FitsShallow(TallyEach(cells, 1), 0, Tallest(cells), flat, flat);
      PlusShallow(TallyEach(cells, 1), TallyRows(rest, 0), 0, flat);
      assert EmitRows(em, first, rows, st).value.0[1..] == rest;
    }
  }

  /** No emitted statement is refused by the counter. */
  lemma EmittedIsCountable(
    em: Emitter, s: BoundSelect, insert: BoundInsert, update: BoundUpdate, delete: BoundDelete,
    check: Option<BoundExpr>, st: EmitState)
    ensures EmitSelect(em, s, st).Ok? ==> TallyStatement(Sql.SelectStatement(EmitSelect(em, s, st).value.0)).Some?
    ensures EmitInsert(em, insert, check, st).Ok? ==> TallyStatement(EmitInsert(em, insert, check, st).value.0).Some?
    ensures EmitUpdate(em, update, check, st).Ok? ==> TallyStatement(EmitUpdate(em, update, check, st).value.0).Some?
    ensures EmitDelete(em, delete, st).Ok? ==> TallyStatement(EmitDelete(em, delete, st).value.0).Some?
  {
    EmittedNesting(em, s, insert, update, delete, check, st);
  }

  /**
    * An emitted statement without EXISTS never nests parser calls deeper than its tallest expression
    * is tall, and has the result columns of its projections, a check included.
    */
  lemma EmittedNesting(
    em: Emitter, s: BoundSelect, insert: BoundInsert, update: BoundUpdate, delete: BoundDelete,
    check: Option<BoundExpr>, st: EmitState)
    ensures EmitSelect(em, s, st).Ok? ==>
              Wide(TallyStatement(Sql.SelectStatement(EmitSelect(em, s, st).value.0)), 0, Outputs(s.projections),
                   SelectFlat(s))
    ensures EmitInsert(em, insert, check, st).Ok? ==>
              Wide(TallyStatement(EmitInsert(em, insert, check, st).value.0), 0, Outputs(insert.returning) + 1,
                   InsertFlat(insert, check))
    ensures EmitUpdate(em, update, check, st).Ok? ==>
              Wide(TallyStatement(EmitUpdate(em, update, check, st).value.0), 0, Outputs(update.returning) + 1,
                   UpdateFlat(update, check))
    ensures EmitDelete(em, delete, st).Ok? ==>
              Wide(TallyStatement(EmitDelete(em, delete, st).value.0), 0, Outputs(delete.returning), DeleteFlat(delete))
  {
    if EmitSelect(em, s, st).Ok? { SelectEmits(em, s, st); }
    if EmitInsert(em, insert, check, st).Ok? { InsertNesting(em, insert, check, st); }
    if EmitUpdate(em, update, check, st).Ok? { UpdateNesting(em, update, check, st); }
    if EmitDelete(em, delete, st).Ok? { DeleteNesting(em, delete, st); }
  }

  lemma InsertNesting(em: Emitter, insert: BoundInsert, check: Option<BoundExpr>, st: EmitState)
    requires EmitInsert(em, insert, check, st).Ok?
    ensures Wide(TallyStatement(EmitInsert(em, insert, check, st).value.0), 0, Outputs(insert.returning) + 1,
                 InsertFlat(insert, check))
  {
    var flat := InsertFlat(insert, check);
    var (rows, st1) := EmitRows(em, insert.rows[0], insert.rows, st).value;
    RowsEmit(em, insert.rows[0], insert.rows, st, flat);
    ReturningEmits(em, insert.returning, check, st1, flat);
    ValuesShallow(rows, flat);
  }

  lemma ValuesShallow(rows: seq<Sql.Row>, flat: bool)
    requires Shallow(TallyRows(rows, 0), 0, flat)
    ensures Shallow(TallyInsertBody(Sql.FromSelect(Sql.Select([], Sql.Values(rows), [], [], None), None)), 0, flat)
  {
    var body := Sql.Select([], Sql.Values(rows), [], [], None);
    assert Shallow(TallyOne(body.body, 0), 0, flat);
    assert TallySelects([], 0) == Some(ZERO) && TallyOnes([], 0) == Some(ZERO);
    assert TallySorted([], 1) == Some(ZERO) && TallyLimit(None, 0) == Some(ZERO);
    assert Shallow(TallySelect(body, 0), 0, flat) && TallyUpsert(None) == Some(ZERO);
  }

  lemma UpdateNesting(em: Emitter, update: BoundUpdate, check: Option<BoundExpr>, st: EmitState)
    requires EmitUpdate(em, update, check, st).Ok?
    ensures Wide(TallyStatement(EmitUpdate(em, update, check, st).value.0), 0, Outputs(update.returning) + 1,
                 UpdateFlat(update, check))
  {
    var flat := UpdateFlat(update, check);
    var (sets, st1) := EmitSets(em, update.resource, update.assignments, st).value;
    var (returning, st2) := EmitReturning(em, update.returning, check, st1).value;
    SetsEmit(em, update.resource, update.assignments, st, flat);
    ReturningEmits(em, update.returning, check, st1, flat);
    OptionEmits(em, update.filter, st2);
    OptionShallow(EmitOption(em, update.filter, st2).value.0, OptionalFlat(update.filter), 0, flat);
    assert TallySorted([], 1) == Some(ZERO) && TallyLimit(None, 0) == Some(ZERO);
  }

  lemma DeleteNesting(em: Emitter, delete: BoundDelete, st: EmitState)
    requires EmitDelete(em, delete, st).Ok?
    ensures Wide(TallyStatement(EmitDelete(em, delete, st).value.0), 0, Outputs(delete.returning), DeleteFlat(delete))
  {
    var flat := DeleteFlat(delete);
    var (filter, st1) := EmitOption(em, delete.filter, st).value;
    OptionEmits(em, delete.filter, st);
    OptionShallow(filter, OptionalFlat(delete.filter), 0, flat);
    ProjectionsEmit(em, delete.returning, 0, st1, 0, flat);
    OutputsEmitted(em, delete.returning, 0, st1);
    ColumnsWide(EmitProjections(em, delete.returning, 0, st1).value.0, 0, flat);
    assert TallySorted([], 1) == Some(ZERO) && TallyLimit(None, 0) == Some(ZERO);
  }

  /**
    * An emitted expression without EXISTS nests no deeper than its height, and is at most twice as
    * tall as the bound one.
    */
  lemma EmittedHeight(em: Emitter, e: BoundExpr, st: EmitState)
    requires EmitExpr(em, e, st).Ok?
    ensures var x := EmitExpr(em, e, st).value.0;
            Tally(x, 1).Some? && Height(x) <= 2 * BoundHeight(e) &&
            (Flat(e) ==> Tally(x, 1).value.recursion <= Height(x) && Tally(x, 1).value.height == Height(x))
  {
    var x := EmitExpr(em, e, st).value.0;
    ExprEmits(em, e, st);
    assert Fits(Tally(x, 1), 1, Height(x), Flat(e));
    assert Tally(x, 1).value.height >= Height(x);
  }
}
