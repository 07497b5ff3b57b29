/**
  * What the counts mean, on every tree and not only on emitted ones: the height is the longest path
  * of operands, the recursion the longest path off the left spines, and the pattern variables those
  * that stand as patterns.
  */
module ComplexityLaws {
  import opened Core
  import opened Sql
  import opened Complexity

  // ----- The operands of a node -----

  /** The operand that the parser has read before it meets the operator. */
  function Before(e: Expr): seq<Expr> {
    match e
    case Binary(left, _, _) => [left]
    case Between(left, _, _) => [left]
    case InList(left, _, _) => [left]
    case InSelect(left, _) => [left]
    case Match(left, _, _, _) => [left]
    case Collate(inner) => [inner]
    case IsNull(inner) => [inner]
    case NotNull(inner) => [inner]
    case _ => []
  }

  function Optional(e: Option<Expr>): seq<Expr> {
    if e.None? then [] else [e.value]
  }

  function Keys(ss: seq<Sorted>): seq<Expr> {
    if ss == [] then [] else [ss[0].expr] + Keys(ss[1..])
  }

  function Arms(ps: seq<When>): seq<Expr> {
    if ps == [] then [] else [ps[0].condition, ps[0].value] + Arms(ps[1..])
  }

  function InTail(tail: Tail): seq<Expr> {
    Optional(tail.filter) + if tail.over.Window? then tail.over.partitionBy + Keys(tail.over.orderBy) else []
  }

  /** The operands that the parser enters by a call of its own. */
  function Entered(e: Expr): seq<Expr> {
    match e
    case Binary(_, _, right) => [right]
    case Between(_, low, high) => [low, high]
    case InList(_, _, members) => members
    case Match(_, _, pattern, escape) => [pattern] + Optional(escape)
    case Parenthesized(elements) => elements
    case Unary(_, inner) => [inner]
    case Cast(inner) => [inner]
    case Case(base, pairs, otherwise) => Optional(base) + Arms(pairs) + Optional(otherwise)
    case FunctionCall(_, arguments, orderBy, withinGroup, tail) =>
      arguments + Keys(orderBy) + Keys(withinGroup) + InTail(tail)
    case FunctionCallStar(_, tail) => InTail(tail)
    case _ => []
  }

  function Operands(e: Expr): seq<Expr> {
    Before(e) + Entered(e)
  }

  /** `x IN ()` is a constant to the parser. */
  predicate Simplified(e: Expr) {
    e.InList? && e.members == []
  }

  // ----- Height -----

  /** A path of `n` nodes leads down from the expression. */
  ghost predicate Reaches(e: Expr, n: nat)
    decreases n
  {
    n <= 1 || (!Simplified(e) && exists x :: x in Operands(e) && Reaches(x, n - 1))
  }

  lemma {:induction false} TallestConcat(xs: seq<Expr>, ys: seq<Expr>)
    ensures Tallest(xs + ys) == Max(Tallest(xs), Tallest(ys))
  {
    if xs == [] {
      assert xs + ys == ys;
    } else {
      assert (xs + ys)[1..] == xs[1..] + ys;
      TallestConcat(xs[1..], ys);
    }
  }

  lemma TallestOptional(e: Option<Expr>)
    ensures Tallest(Optional(e)) == OptionHeight(e)
  {
  }

  lemma {:induction false} TallestKeys(ss: seq<Sorted>)
    ensures Tallest(Keys(ss)) == SortedHeight(ss)
  {
    if ss != [] {
      TallestKeys(ss[1..]);
      assert Keys(ss)[1..] == Keys(ss[1..]);
    }
  }

  lemma {:induction false} TallestArms(ps: seq<When>)
    ensures Tallest(Arms(ps)) == PairsHeight(ps)
  {
    if ps != [] {
      TallestArms(ps[1..]);
      TallestTwo(ps[0].condition, ps[0].value);
      TallestConcat([ps[0].condition, ps[0].value], Arms(ps[1..]));
    }
  }

  lemma TallestTwo(x: Expr, y: Expr)
    ensures Tallest([x]) == Height(x) && Tallest([x, y]) == Max(Height(x), Height(y))
  {
    assert [x, y][1..] == [y] && [y][1..] == [] && [x][1..] == [];
  }

  lemma TallestTail(tail: Tail)
    ensures Tallest(InTail(tail)) == TailHeight(tail)
  {
    TallestOptional(tail.filter);
    if tail.over.Window? {
      TallestKeys(tail.over.orderBy);
      TallestConcat(tail.over.partitionBy, Keys(tail.over.orderBy));
      TallestConcat(Optional(tail.filter), tail.over.partitionBy + Keys(tail.over.orderBy));
    } else {
      TallestConcat(Optional(tail.filter), []);
    }
  }

  /** The tallest operand of an operator besides the one before it. */
  lemma RightOver(e: Expr)
    requires Spine(e).Some? && !e.InSelect?
    ensures RightHeight(e) == Tallest(Entered(e))
  {
    match e
    case Binary(left, _, right) => TallestTwo(right, right);
    case Between(left, low, high) => TallestTwo(low, high);
    case Match(left, _, pattern, escape) =>
      TallestTwo(pattern, pattern);
      TallestOptional(escape);
      TallestConcat([pattern], Optional(escape));
    case _ =>
  }

  lemma OperandOver(e: Expr)
    requires Spine(e).None?
    ensures OperandHeight(e) == 1 + Tallest(Entered(e))
  {
    match e
    case Unary(_, inner) => TallestTwo(inner, inner);
    case Cast(inner) => TallestTwo(inner, inner);
    case Case(_, _, _) => CaseOver(e);
    case FunctionCall(_, _, _, _, _) => CallOver(e);
    case FunctionCallStar(_, tail) => TallestTail(tail);
    case _ =>
  }

  lemma CaseOver(e: Expr)
    requires e.Case?
    ensures OperandHeight(e) == 1 + Tallest(Entered(e))
  {
    var a, b, c := Optional(e.base), Arms(e.pairs), Optional(e.otherwise);
    TallestOptional(e.base);
    TallestArms(e.pairs);
    TallestOptional(e.otherwise);
    TallestConcat(a, b);
    TallestConcat(a + b, c);
  }

  lemma CallOver(e: Expr)
    requires e.FunctionCall?
    ensures OperandHeight(e) == 1 + Tallest(Entered(e))
  {
    var a, b, c, d := e.arguments, Keys(e.orderBy), Keys(e.withinGroup), InTail(e.tail);
    TallestKeys(e.orderBy);
    TallestKeys(e.withinGroup);
    TallestTail(e.tail);
    TallestConcat(a, b);
    TallestConcat(a + b, c);
    TallestConcat(a + b + c, d);
  }

  /** A node is one taller than its operands. */
  lemma HeightOver(e: Expr)
    ensures Height(e) == if Simplified(e) then 1 else 1 + Tallest(Operands(e))
  {
    TallestConcat(Before(e), Entered(e));
    if Spine(e).None? {
      OperandOver(e);
    } else {
      var left := Spine(e).value;
      assert Before(e) == [left];
      TallestTwo(left, left);
      HeightPositive(left);
      if !e.InSelect? {
        RightOver(e);
      }
    }
  }

  lemma HeightPositive(e: Expr)
    ensures Height(e) >= 1
  {
  }

  lemma {:induction false} TallestAtLeast(xs: seq<Expr>, n: nat)
    requires n >= 1
    ensures Tallest(xs) >= n <==> exists x :: x in xs && Height(x) >= n
  {
    if xs != [] {
      TallestAtLeast(xs[1..], n);
      if Height(xs[0]) >= n {
        assert xs[0] in xs;
      } else {
        assert forall x | x in xs :: x == xs[0] || x in xs[1..];
      }
    }
  }

  lemma ReachesStep(e: Expr, n: nat)
    requires n >= 2
    ensures Reaches(e, n) <==> !Simplified(e) && exists x :: x in Operands(e) && Reaches(x, n - 1)
  {
  }

  lemma HeightStep(e: Expr, n: nat)
    requires n >= 2
    ensures Height(e) >= n <==> !Simplified(e) && exists x :: x in Operands(e) && Height(x) >= n - 1
  {
    HeightOver(e);
    TallestAtLeast(Operands(e), n - 1);
  }

  /** The height is the number of nodes on the longest path. */
  lemma {:induction false} HeightIsLongestPath(e: Expr, n: nat)
    ensures Height(e) >= n <==> Reaches(e, n)
    decreases n
  {
    if n < 2 {
      HeightPositive(e);
    } else {
      ReachesStep(e, n);
      HeightStep(e, n);
      forall x
        ensures Height(x) >= n - 1 <==> Reaches(x, n - 1)
      {
        HeightIsLongestPath(x, n - 1);
      }
    }
  }

  // ----- Recursion and patterns -----

  /** The counts of several expressions entered at one depth: the deepest recursion, all pattern variables. */
  function Deepest(xs: seq<Expr>, frame: nat): nat {
    if xs == [] then 0 else Max(RecursionOf(Tally(xs[0], frame)), Deepest(xs[1..], frame))
  }

  function RecursionOf(t: Option<Measure>): nat {
    if t.None? then 0 else t.value.recursion
  }

  function PatternsOf(t: Option<Measure>): set<string> {
    if t.None? then {} else set p | p in t.value.patterns
  }

  function AllPatterns(xs: seq<Expr>, frame: nat): set<string> {
    if xs == [] then {} else PatternsOf(Tally(xs[0], frame)) + AllPatterns(xs[1..], frame)
  }

  predicate Countable(xs: seq<Expr>, frame: nat) {
    forall x | x in xs :: Tally(x, frame).Some?
  }

  /** The count of a part is that of the expressions in it. */
  predicate Sums(t: Option<Measure>, xs: seq<Expr>, frame: nat) {
    t.Some? ==>
      Countable(xs, frame) && t.value.recursion == Deepest(xs, frame) && PatternsOf(t) == AllPatterns(xs, frame)
  }

  lemma {:induction false} DeepestConcat(xs: seq<Expr>, ys: seq<Expr>, frame: nat)
    ensures Deepest(xs + ys, frame) == Max(Deepest(xs, frame), Deepest(ys, frame))
    ensures AllPatterns(xs + ys, frame) == AllPatterns(xs, frame) + AllPatterns(ys, frame)
  {
    if xs == [] {
      assert xs + ys == ys;
    } else {
      assert (xs + ys)[1..] == xs[1..] + ys;
      DeepestConcat(xs[1..], ys, frame);
    }
  }

  lemma PlusSums(a: Option<Measure>, b: Option<Measure>, xs: seq<Expr>, ys: seq<Expr>, frame: nat)
    requires Sums(a, xs, frame) && Sums(b, ys, frame)
    ensures Sums(Plus(a, b), xs + ys, frame)
  {
    DeepestConcat(xs, ys, frame);
  }

  lemma OneSums(e: Expr, frame: nat)
    ensures Sums(Tally(e, frame), [e], frame) && Sums(Some(ZERO), [], frame)
  {
    assert [e][1..] == [];
  }

  lemma {:induction false} EachSums(xs: seq<Expr>, frame: nat)
    ensures Sums(TallyEach(xs, frame), xs, frame)
  {
    if xs == [] {
      assert PatternsOf(Some(ZERO)) == {};
    } else {
      OneSums(xs[0], frame);
      EachSums(xs[1..], frame);
      PlusSums(Tally(xs[0], frame), TallyEach(xs[1..], frame), [xs[0]], xs[1..], frame);
      assert xs == [xs[0]] + xs[1..];
    }
  }

  lemma OptionSums(e: Option<Expr>, frame: nat)
    ensures Sums(TallyOption(e, frame), Optional(e), frame)
  {
    if e.Some? {
      OneSums(e.value, frame);
    } else {
      EachSums([], frame);
    }
  }

  lemma {:induction false} KeysSum(ss: seq<Sorted>, frame: nat)
    ensures Sums(TallySorted(ss, frame), Keys(ss), frame)
  {
    if ss == [] {
      EachSums([], frame);
    } else {
      OneSums(ss[0].expr, frame);
      KeysSum(ss[1..], frame);
      PlusSums(Tally(ss[0].expr, frame), TallySorted(ss[1..], frame), [ss[0].expr], Keys(ss[1..]), frame);
    }
  }

  lemma {:induction false} ArmsSum(ps: seq<When>, frame: nat)
    ensures Sums(TallyPairs(ps, frame), Arms(ps), frame)
  {
    if ps == [] {
      EachSums([], frame);
    } else {
      var x, y := ps[0].condition, ps[0].value;
      OneSums(x, frame);
      OneSums(y, frame);
      ArmsSum(ps[1..], frame);
      PlusSums(Tally(x, frame), Tally(y, frame), [x], [y], frame);
      PlusSums(Plus(Tally(x, frame), Tally(y, frame)), TallyPairs(ps[1..], frame), [x] + [y], Arms(ps[1..]), frame);
      assert [x] + [y] == [x, y];
    }
  }

  lemma TailSums(tail: Tail, frame: nat)
    ensures Sums(TallyTail(tail, frame), InTail(tail), frame)
  {
    OptionSums(tail.filter, frame);
    if tail.over.Window? && !tail.over.framed {
      EachSums(tail.over.partitionBy, frame);
      KeysSum(tail.over.orderBy, frame);
      var a, b := TallyEach(tail.over.partitionBy, frame), TallySorted(tail.over.orderBy, frame);
      PlusSums(a, b, tail.over.partitionBy, Keys(tail.over.orderBy), frame);
      PlusSums(TallyOption(tail.filter, frame), Plus(a, b), Optional(tail.filter),
               tail.over.partitionBy + Keys(tail.over.orderBy), frame);
    } else {
      EachSums([], frame);
      PlusSums(TallyOption(tail.filter, frame), Some(ZERO), Optional(tail.filter), [], frame);
    }
  }

  /** The variables that the node itself uses as a pattern or as its escape. */
  function OwnPatterns(e: Expr): set<string> {
    if !e.Match? then {}
    else
      (if e.pattern.Variable? then {e.pattern.variable} else {})
      + if e.escape.Some? && e.escape.value.Variable? then {e.escape.value.variable} else {}
  }

  /** What a node adds besides the operand before it. */
  predicate Adds(t: Option<Measure>, e: Expr, frame: nat) {
    t.Some? ==>
      && Countable(Entered(e), frame + 1) && t.value.recursion == Deepest(Entered(e), frame + 1)
      && PatternsOf(t) == OwnPatterns(e) + AllPatterns(Entered(e), frame + 1)
  }

  lemma RightAdds(e: Expr, frame: nat)
    requires Spine(e).Some? && !e.InSelect?
    ensures Adds(TallyRight(e, frame), e, frame)
  {
    EachSums([], frame + 1);
    match e
    case Binary(_, _, right) => OneSums(right, frame + 1);
    case Between(_, low, high) =>
      OneSums(low, frame + 1);
      OneSums(high, frame + 1);
      PlusSums(Tally(low, frame + 1), Tally(high, frame + 1), [low], [high], frame + 1);
      assert [low] + [high] == [low, high];
    case InList(_, _, members) => EachSums(members, frame + 1);
    case Match(_, _, _, _) => MatchAdds(e, frame);
    case _ =>
  }

  lemma MatchAdds(e: Expr, frame: nat)
    requires e.Match?
    ensures Adds(TallyRight(e, frame), e, frame)
  {
    var f, a, b := frame + 1, TallyPattern(e.pattern, frame + 1), TallyEscape(e.escape, frame + 1);
    OneSums(e.pattern, f);
    OptionSums(e.escape, f);
    DeepestConcat([e.pattern], Optional(e.escape), f);
    if a.Some? && b.Some? {
      PatternSums(e.pattern, f);
      EscapeSums(e.escape, f);
      PlusParts(a, b);
    }
  }

  lemma EscapeSums(e: Option<Expr>, frame: nat)
    requires TallyEscape(e, frame).Some?
    ensures TallyOption(e, frame).Some?
    ensures TallyEscape(e, frame).value.recursion == TallyOption(e, frame).value.recursion
    ensures PatternsOf(TallyEscape(e, frame))
            == (if e.Some? && e.value.Variable? then {e.value.variable} else {}) + PatternsOf(TallyOption(e, frame))
  {
    if e.Some? {
      PatternSums(e.value, frame);
    }
  }

  lemma PlusParts(a: Option<Measure>, b: Option<Measure>)
    requires a.Some? && b.Some?
    ensures Plus(a, b).Some? && Plus(a, b).value.recursion == Max(a.value.recursion, b.value.recursion)
    ensures PatternsOf(Plus(a, b)) == PatternsOf(a) + PatternsOf(b)
  {
  }

  lemma PatternSums(e: Expr, frame: nat)
    requires TallyPattern(e, frame).Some?
    ensures Tally(e, frame).Some? && TallyPattern(e, frame).value.recursion == Tally(e, frame).value.recursion
    ensures PatternsOf(TallyPattern(e, frame))
            == (if e.Variable? then {e.variable} else {}) + PatternsOf(Tally(e, frame))
  {
  }

  lemma OperandAdds(e: Expr, frame: nat)
    requires Spine(e).None? && !e.Subquery? && !e.Exists?
    ensures Adds(TallyOperand(e, frame), e, frame)
  {
    EachSums([], frame + 1);
    match e
    case Parenthesized(elements) => EachSums(elements, frame + 1);
    case Unary(_, inner) => OneSums(inner, frame + 1);
    case Cast(inner) => OneSums(inner, frame + 1);
    case Case(_, _, _) => CaseAdds(e, frame);
    case FunctionCall(_, _, _, _, _) => CallAdds(e, frame);
    case FunctionCallStar(_, tail) => TailSums(tail, frame + 1);
    case _ =>
  }

  lemma CaseAdds(e: Expr, frame: nat)
    requires e.Case?
    ensures Adds(TallyOperand(e, frame), e, frame)
  {
    var a, b, c := Optional(e.base), Arms(e.pairs), Optional(e.otherwise);
    OptionSums(e.base, frame + 1);
    ArmsSum(e.pairs, frame + 1);
    OptionSums(e.otherwise, frame + 1);
    var x, y, z := TallyOption(e.base, frame + 1), TallyPairs(e.pairs, frame + 1), TallyOption(e.otherwise, frame + 1);
    PlusSums(x, y, a, b, frame + 1);
    PlusSums(Plus(x, y), z, a + b, c, frame + 1);
  }

  lemma CallAdds(e: Expr, frame: nat)
    requires e.FunctionCall?
    ensures Adds(TallyOperand(e, frame), e, frame)
  {
    var f := frame + 1;
    EachSums(e.arguments, f);
    KeysSum(e.orderBy, f);
    KeysSum(e.withinGroup, f);
    TailSums(e.tail, f);
    var w, x, y, z :=
      TallyEach(e.arguments, f), TallySorted(e.orderBy, f), TallySorted(e.withinGroup, f), TallyTail(e.tail, f);
    PlusSums(w, x, e.arguments, Keys(e.orderBy), f);
    PlusSums(Plus(w, x), y, e.arguments + Keys(e.orderBy), Keys(e.withinGroup), f);
    PlusSums(Plus(Plus(w, x), y), z, e.arguments + Keys(e.orderBy) + Keys(e.withinGroup), InTail(e.tail), f);
  }

  /** One step: the operand before the operator stays at the depth, the others go one deeper. */
  lemma TallyOver(e: Expr, frame: nat)
    requires !e.Subquery? && !e.Exists? && !e.InSelect? && Tally(e, frame).Some?
    ensures Countable(Before(e), frame) && Countable(Entered(e), frame + 1)
    ensures Tally(e, frame).value.recursion
            == Max(frame, Max(Deepest(Before(e), frame), Deepest(Entered(e), frame + 1)))
    ensures PatternsOf(Tally(e, frame))
            == OwnPatterns(e) + AllPatterns(Before(e), frame) + AllPatterns(Entered(e), frame + 1)
  {
    if Spine(e).Some? {
      var left := Tally(Spine(e).value, frame);
      RightAdds(e, frame);
      OneSums(Spine(e).value, frame);
      assert Before(e) == [Spine(e).value];
      PlusParts(left, TallyRight(e, frame));
      PlusParts(Plus(left, TallyRight(e, frame)), Alone(e, frame));
    } else {
      OperandAdds(e, frame);
      assert Before(e) == [];
      PlusParts(TallyOperand(e, frame), Alone(e, frame));
    }
  }

  // ----- The laws -----

  lemma {:induction false} KeysBelow(ss: seq<Sorted>)
    ensures forall x | x in Keys(ss) :: ss decreases to x
  {
    if ss != [] {
      assert ss decreases to ss[0];
      assert ss decreases to ss[0].expr;
      KeysBelow(ss[1..]);
    }
  }

  lemma {:induction false} ArmsBelow(ps: seq<When>)
    ensures forall x | x in Arms(ps) :: ps decreases to x
  {
    if ps != [] {
      assert ps decreases to ps[0];
      ArmsBelow(ps[1..]);
    }
  }

  lemma TailBelow(tail: Tail)
    ensures forall x | x in InTail(tail) :: tail decreases to x
  {
    if tail.over.Window? {
      KeysBelow(tail.over.orderBy);
    }
  }

  lemma CaseBelow(e: Expr)
    requires e.Case?
    ensures forall x | x in Entered(e) :: e decreases to x
  {
    ArmsBelow(e.pairs);
    assert e decreases to e.pairs;
    forall x | x in Entered(e)
      ensures e decreases to x
    {
      if x in Arms(e.pairs) {
        assert e.pairs decreases to x;
      }
    }
  }

  lemma CallBelow(e: Expr)
    requires e.FunctionCall?
    ensures forall x | x in Entered(e) :: e decreases to x
  {
    KeysBelow(e.orderBy);
    KeysBelow(e.withinGroup);
    TailBelow(e.tail);
    assert e decreases to e.orderBy;
    assert e decreases to e.withinGroup;
    assert e decreases to e.tail;
  }

  lemma EnteredBelow(e: Expr)
    ensures forall x | x in Entered(e) :: e decreases to x
  {
    match e
    case Case(_, _, _) => CaseBelow(e);
    case FunctionCall(_, _, _, _, _) => CallBelow(e);
    case FunctionCallStar(_, tail) => TailBelow(tail);
    case _ =>
  }

  lemma OperandsBelow(e: Expr)
    ensures forall x | x in Before(e) :: e decreases to x
    ensures forall x | x in Entered(e) :: e decreases to x
    ensures forall x | x in Operands(e) :: e decreases to x
  {
    EnteredBelow(e);
    assert forall x | x in Before(e) :: e decreases to x;
  }

  /** No query stands in the expression. */
  predicate QueryFree(e: Expr)
    decreases e
  {
    OperandsBelow(e);
    && !e.Subquery? && !e.Exists? && !e.InSelect?
    && forall x | x in Operands(e) :: QueryFree(x)
  }

  /** A path leads down through `n` operands that the parser enters by a call of their own. */
  ghost predicate Nests(e: Expr, n: nat)
    decreases e
  {
    OperandsBelow(e);
    || n == 0
    || (exists x :: x in Before(e) && Nests(x, n))
    || (exists x :: x in Entered(e) && Nests(x, n - 1))
  }

  ghost predicate PatternIn(e: Expr, name: string)
    decreases e
  {
    OperandsBelow(e);
    name in OwnPatterns(e) || exists x :: x in Operands(e) && PatternIn(x, name)
  }

  lemma {:induction false} DeepestAtLeast(xs: seq<Expr>, frame: nat, n: nat)
    requires n >= 1
    ensures Deepest(xs, frame) >= n <==> exists x :: x in xs && RecursionOf(Tally(x, frame)) >= n
  {
    if xs != [] {
      DeepestAtLeast(xs[1..], frame, n);
      if RecursionOf(Tally(xs[0], frame)) >= n {
        assert xs[0] in xs;
      } else {
        assert forall x | x in xs :: x == xs[0] || x in xs[1..];
      }
    }
  }

  lemma {:induction false} AllPatternsOf(xs: seq<Expr>, frame: nat, name: string)
    ensures name in AllPatterns(xs, frame) <==> exists x :: x in xs && name in PatternsOf(Tally(x, frame))
  {
    if xs != [] {
      AllPatternsOf(xs[1..], frame, name);
      if name in PatternsOf(Tally(xs[0], frame)) {
        assert xs[0] in xs;
      } else {
        assert forall x | x in xs :: x == xs[0] || x in xs[1..];
      }
    }
  }

  lemma NestsStep(e: Expr, n: nat)
    requires n > 0
    ensures Nests(e, n) <==>
            (exists x :: x in Before(e) && Nests(x, n)) || (exists x :: x in Entered(e) && Nests(x, n - 1))
  {
  }

  lemma FreeStep(e: Expr)
    requires QueryFree(e)
    ensures !e.Subquery? && !e.Exists? && !e.InSelect?
    ensures forall x | x in Before(e) :: QueryFree(x)
    ensures forall x | x in Entered(e) :: QueryFree(x)
  {
    assert forall x | x in Before(e) :: x in Operands(e);
    assert forall x | x in Entered(e) :: x in Operands(e);
  }

  /** The law for the operands of `e` that stand at one depth. */
  lemma {:induction false} PathsExact(e: Expr, xs: seq<Expr>, frame: nat, n: nat)
    requires Countable(xs, frame) && frame >= 1
    requires forall x | x in xs :: (e decreases to x) && QueryFree(x)
    ensures Deepest(xs, frame) >= frame + n <==> exists x :: x in xs && Nests(x, n)
    decreases e, 0
  {
    DeepestAtLeast(xs, frame, frame + n);
    forall x | x in xs
      ensures RecursionOf(Tally(x, frame)) >= frame + n <==> Nests(x, n)
    {
      RecursionIsLongestPath(x, frame, n);
    }
  }

  lemma RecursionStep(e: Expr, frame: nat, n: nat)
    requires !e.Subquery? && !e.Exists? && !e.InSelect? && Tally(e, frame).Some? && n > 0
    requires Deepest(Before(e), frame) >= frame + n <==> exists x :: x in Before(e) && Nests(x, n)
    requires Deepest(Entered(e), frame + 1) >= frame + n <==> exists x :: x in Entered(e) && Nests(x, n - 1)
    ensures Tally(e, frame).value.recursion >= frame + n <==> Nests(e, n)
  {
    TallyOver(e, frame);
    NestsStep(e, n);
  }

  lemma OperandsCountable(e: Expr, frame: nat)
    requires QueryFree(e) && Tally(e, frame).Some?
    ensures !e.Subquery? && !e.Exists? && !e.InSelect?
    ensures Countable(Before(e), frame) && forall x | x in Before(e) :: QueryFree(x)
    ensures Countable(Entered(e), frame + 1) && forall x | x in Entered(e) :: QueryFree(x)
    ensures Tally(e, frame).value.recursion >= frame
  {
    FreeStep(e);
    TallyOver(e, frame);
  }

  /** The recursion of an expression is its depth and the longest such path. */
  lemma {:induction false} RecursionIsLongestPath(e: Expr, frame: nat, n: nat)
    requires QueryFree(e) && Tally(e, frame).Some? && frame >= 1
    ensures Tally(e, frame).value.recursion >= frame + n <==> Nests(e, n)
    decreases e, 1
  {
    OperandsCountable(e, frame);
    if n > 0 {
      OperandsBelow(e);
      PathsExact(e, Before(e), frame, n);
      PathsExact(e, Entered(e), frame + 1, n - 1);
      RecursionStep(e, frame, n);
    }
  }

  lemma {:induction false} NamesExact(e: Expr, xs: seq<Expr>, frame: nat, name: string)
    requires Countable(xs, frame)
    requires forall x | x in xs :: (e decreases to x) && QueryFree(x)
    ensures name in AllPatterns(xs, frame) <==> exists x :: x in xs && PatternIn(x, name)
    decreases e, 0
  {
    AllPatternsOf(xs, frame, name);
    forall x | x in xs
      ensures name in PatternsOf(Tally(x, frame)) <==> PatternIn(x, name)
    {
      PatternsExact(x, frame, name);
    }
  }

  lemma PatternStep(e: Expr, name: string)
    ensures PatternIn(e, name) <==>
            || name in OwnPatterns(e)
            || (exists x :: x in Before(e) && PatternIn(x, name))
            || (exists x :: x in Entered(e) && PatternIn(x, name))
  {
    assert forall x :: x in Operands(e) <==> x in Before(e) || x in Entered(e);
  }

  /** The pattern variables are those that stand as a pattern or an escape somewhere. */
  lemma {:induction false} PatternsExact(e: Expr, frame: nat, name: string)
    requires QueryFree(e) && Tally(e, frame).Some?
    ensures name in Tally(e, frame).value.patterns <==> PatternIn(e, name)
    decreases e, 1
  {
    OperandsBelow(e);
    FreeStep(e);
    TallyOver(e, frame);
    NamesExact(e, Before(e), frame, name);
    NamesExact(e, Entered(e), frame + 1, name);
    PatternStep(e, name);
    assert name in Tally(e, frame).value.patterns <==> name in PatternsOf(Tally(e, frame));
  }

  /** No list of an IN is empty. */
  predicate NoneSimplified(e: Expr)
    decreases e
  {
    OperandsBelow(e);
    !Simplified(e) && forall x | x in Operands(e) :: NoneSimplified(x)
  }

  lemma NoneStep(e: Expr)
    requires NoneSimplified(e)
    ensures !Simplified(e) && forall x | x in Operands(e) :: NoneSimplified(x)
  {
  }

  lemma HigherThan(e: Expr, x: Expr)
    requires !Simplified(e) && x in Operands(e)
    ensures Height(e) >= 1 + Height(x)
  {
    HeightOver(e);
    HeightPositive(x);
    TallestAtLeast(Operands(e), Height(x));
  }

  /** An operand from which the path goes on. */
  ghost predicate GoesOn(e: Expr, x: Expr, n: nat) {
    (e decreases to x) && x in Operands(e) && (Nests(x, n) || (n > 0 && Nests(x, n - 1)))
  }

  lemma PathGoesOn(e: Expr, n: nat)
    requires n > 0 && Nests(e, n)
    ensures exists x :: GoesOn(e, x, n)
  {
    OperandsBelow(e);
    NestsStep(e, n);
    if x :| x in Before(e) && Nests(x, n) {
      assert x in Operands(e) && GoesOn(e, x, n);
    } else {
      var x :| x in Entered(e) && Nests(x, n - 1);
      assert x in Operands(e) && GoesOn(e, x, n);
    }
  }

  lemma OperandBelow(e: Expr, x: Expr, n: nat)
    requires NoneSimplified(e) && GoesOn(e, x, n)
    ensures NoneSimplified(x) && Height(e) >= 1 + Height(x)
  {
    NoneStep(e);
    HigherThan(e, x);
  }

  lemma {:induction false} NestsBelowHeight(e: Expr, n: nat)
    requires NoneSimplified(e) && Nests(e, n)
    ensures Height(e) >= n + 1
    decreases e
  {
    HeightPositive(e);
    if n > 0 {
      PathGoesOn(e, n);
      var x :| GoesOn(e, x, n);
      OperandBelow(e, x, n);
      NestsBelowHeight(x, if Nests(x, n) then n else n - 1);
    }
  }

  /** Without queries and empty IN lists, an expression nests no deeper than it is high. */
  lemma NestingWithinHeight(e: Expr, frame: nat)
    requires QueryFree(e) && NoneSimplified(e) && Tally(e, frame).Some? && frame >= 1
    ensures Tally(e, frame).value.recursion < frame + Height(e)
  {
    TallyOver(e, frame);
    var n := Tally(e, frame).value.recursion - frame;
    RecursionIsLongestPath(e, frame, n);
    NestsBelowHeight(e, n);
  }

  /** NOT NOT NULL IN (): as high as a constant, but the parser goes two calls deeper. */
  const SIMPLIFIED := InList(Unary(NotOp, Unary(NotOp, Literal(NullToken))), false, [])

  lemma SimplifiedNestsDeeper(frame: nat)
    ensures Height(SIMPLIFIED) == 1
    ensures Tally(SIMPLIFIED, frame).Some? && Tally(SIMPLIFIED, frame).value.recursion >= frame + 2
  {
    var inner := Unary(NotOp, Literal(NullToken));
    assert Tally(Literal(NullToken), frame + 2).value.recursion >= frame + 2;
    assert Tally(inner, frame + 1).value.recursion >= frame + 2;
    assert Tally(Unary(NotOp, inner), frame).value.recursion >= frame + 2;
  }
}
