/**
  * What one emission keeps: bound values never change, literal names stay fresh, and parameter
  * indices are a bijection onto 1..n.
  */
module EmitInvariants {
  import opened Core
  import opened Ir
  import opened Emit
  import Sql

  /** No literal name from the counter on is bound. */
  ghost predicate Clean(st: EmitState) {
    forall k: nat | st.nextLiteral <= k :: LiteralName(k) !in st.serverParameters
  }

  /** The indices are a bijection from the names onto 1..nextParameter. */
  ghost predicate Indexed(st: EmitState) {
    && (forall n | n in st.parameterIndices :: 1 <= st.parameterIndices[n] <= st.nextParameter)
    && (forall m, n | m in st.parameterIndices && n in st.parameterIndices
                      && st.parameterIndices[m] == st.parameterIndices[n] :: m == n)
    && (forall i | 1 <= i <= st.nextParameter :: HasIndex(st, i))
  }

  ghost predicate HasIndex(st: EmitState, i: nat) {
    exists n :: n in st.parameterIndices && st.parameterIndices[n] == i
  }

  ghost predicate Good(st: EmitState) {
    Clean(st) && Indexed(st)
  }

  /** From a good state emission reaches a good state that extends it. */
  ghost predicate Grows(st: EmitState, st': EmitState) {
    Good(st) ==>
      && Good(st')
      && Within(st.serverParameters, st'.serverParameters)
      && Within(st.parameterIndices, st'.parameterIndices)
  }

  lemma GrowsTransitive(a: EmitState, b: EmitState, c: EmitState)
    requires Grows(a, b) && Grows(b, c)
    ensures Grows(a, c)
  {
  }

  lemma LiteralNameInjective(i: nat, j: nat)
    requires LiteralName(i) == LiteralName(j)
    ensures i == j
  {
    SamePrefix(LITERAL_PREFIX, Decimal(i), Decimal(j));
    DecimalInjective(i, j);
  }

  lemma ParameterGrows(name: string, st: EmitState)
    requires EmitParameter(name, st).Ok?
    ensures Grows(st, EmitParameter(name, st).value.1)
    ensures EmitParameter(name, st).value.1.serverParameters == st.serverParameters
  {
    var st' := EmitParameter(name, st).value.1;
    var variable := ":" + name;
    if Indexed(st) && st' != st {
      forall i | 1 <= i <= st'.nextParameter
        ensures HasIndex(st', i)
      {
        if i == st'.nextParameter {
          assert st'.parameterIndices[variable] == i;
        } else {
          assert HasIndex(st, i);
          var n :| n in st.parameterIndices && st.parameterIndices[n] == i;
          assert n in st'.parameterIndices && st'.parameterIndices[n] == i;
        }
      }
    }
    assert Clean(st) ==> Clean(st');
  }

  function WithLiteral(value: LogicalValue, st: EmitState): EmitState {
    st.(serverParameters := st.serverParameters[LiteralName(st.nextLiteral) := value],
        nextLiteral := st.nextLiteral + 1)
  }

  /** From a clean state the first name tried is taken. */
  lemma FreshLiteralFirst(value: LogicalValue, st: EmitState)
    requires Clean(st) && FreshLiteral(value, st).Ok?
    ensures FreshLiteral(value, st) == EmitParameter(LiteralName(st.nextLiteral), WithLiteral(value, st))
  {
    assert LiteralName(st.nextLiteral) !in st.serverParameters;
  }

  lemma WithLiteralClean(value: LogicalValue, st: EmitState)
    requires Clean(st)
    ensures Clean(WithLiteral(value, st)) && Within(st.serverParameters, WithLiteral(value, st).serverParameters)
  {
    forall k: nat | st.nextLiteral + 1 <= k
      ensures LiteralName(k) !in WithLiteral(value, st).serverParameters
    {
      if LiteralName(k) == LiteralName(st.nextLiteral) {
        LiteralNameInjective(k, st.nextLiteral);
      }
    }
    assert LiteralName(st.nextLiteral) !in st.serverParameters;
  }

  /** From a clean state the first literal name tried is free, so no earlier binding is replaced. */
  lemma FreshLiteralGrows(value: LogicalValue, st: EmitState)
    requires FreshLiteral(value, st).Ok?
    ensures Grows(st, FreshLiteral(value, st).value.1)
    ensures Clean(st) ==>
              var (x, out) := FreshLiteral(value, st).value;
              var name := LiteralName(st.nextLiteral);
              && name !in st.serverParameters
              && out.serverParameters == st.serverParameters[name := value]
              && x.Variable? && x.variable == ":" + name
  {
    if Clean(st) {
      FreshLiteralFirst(value, st);
      WithLiteralClean(value, st);
      ParameterGrows(LiteralName(st.nextLiteral), WithLiteral(value, st));
      if Indexed(st) {
        IndexedSame(st, WithLiteral(value, st));
      }
    }
  }

  lemma IndexedSame(st: EmitState, st': EmitState)
    requires Indexed(st) && st'.parameterIndices == st.parameterIndices && st'.nextParameter == st.nextParameter
    ensures Indexed(st')
  {
    forall i | 1 <= i <= st'.nextParameter
      ensures HasIndex(st', i)
    {
      assert HasIndex(st, i);
    }
  }

  lemma LiteralGrows(em: Emitter, value: LogicalValue, st: EmitState)
    requires EmitLiteral(em, value, st).Ok?
    ensures Grows(st, EmitLiteral(em, value, st).value.1)
  {
    if value.String? || value.Bytes? || value.Json? {
      FreshLiteralGrows(value, st);
    }
  }

  lemma {:induction false} ExprGrows(em: Emitter, e: BoundExpr, st: EmitState)
    requires EmitExpr(em, e, st).Ok?
    ensures Grows(st, EmitExpr(em, e, st).value.1)
    decreases e, 0
  {
    var out := EmitExpr(em, e, st).value.1;
    match e
    case ClientParameter(name, _) => ParameterGrows(name, st);
    case ServerParameter(name, _) => ParameterGrows(name, st);
    case Literal(value) => LiteralGrows(em, value, st);
    case Binary(_, left, right) =>
      var st1 := EmitExpr(em, left, st).value.1;
      ExprGrows(em, left, st);
      ExprGrows(em, right, st1);
      GrowsTransitive(st, st1, out);
    case Unary(_, inner) => ExprGrows(em, inner, st);
    case In(expression, values, _) =>
      var st1 := EmitExpr(em, expression, st).value.1;
      ExprGrows(em, expression, st);
      AllGrows(em, values, st1);
      GrowsTransitive(st, st1, out);
    case Case(branches, otherwise, _) =>
      var st1 := EmitBranches(em, branches, st).value.1;
      BranchesGrow(em, branches, st);
      OptionGrows(em, otherwise, st1);
      GrowsTransitive(st, st1, out);
    case ConditionalOutput(value, visibleIf) =>
      var st1 := EmitExpr(em, visibleIf, st).value.1;
      ExprGrows(em, visibleIf, st);
      ExprGrows(em, value, st1);
      GrowsTransitive(st, st1, out);
    case Exists(select) => SelectGrows(em, select, st);
    case Scalar(_, arguments, _) => AllGrows(em, arguments, st);
    case RowNumber(_, _, orderBy) => OrdersGrow(em, orderBy, st);
    case _ =>
  }

  lemma {:induction false} AllGrows(em: Emitter, es: seq<BoundExpr>, st: EmitState)
    requires EmitAll(em, es, st).Ok?
    ensures Grows(st, EmitAll(em, es, st).value.1)
    decreases es, 0
  {
    if es != [] {
      var st1 := EmitExpr(em, es[0], st).value.1;
      ExprGrows(em, es[0], st);
      AllGrows(em, es[1..], st1);
      GrowsTransitive(st, st1, EmitAll(em, es, st).value.1);
    }
  }

  lemma {:induction false} OptionGrows(em: Emitter, e: Option<BoundExpr>, st: EmitState)
    requires EmitOption(em, e, st).Ok?
    ensures Grows(st, EmitOption(em, e, st).value.1)
    decreases e, 0
  {
    if e.Some? {
      ExprGrows(em, e.value, st);
    }
  }

  lemma {:induction false} BranchesGrow(em: Emitter, branches: seq<Branch>, st: EmitState)
    requires EmitBranches(em, branches, st).Ok?
    ensures Grows(st, EmitBranches(em, branches, st).value.1)
    decreases branches, 0
  {
    if branches != [] {
      assert branches decreases to branches[0];
      var st1 := EmitExpr(em, branches[0].condition, st).value.1;
      var st2 := EmitExpr(em, branches[0].value, st1).value.1;
      ExprGrows(em, branches[0].condition, st);
      ExprGrows(em, branches[0].value, st1);
      BranchesGrow(em, branches[1..], st2);
      GrowsTransitive(st, st1, st2);
      GrowsTransitive(st, st2, EmitBranches(em, branches, st).value.1);
    }
  }

  lemma {:induction false} OrdersGrow(em: Emitter, orders: seq<BoundOrder>, st: EmitState)
    requires EmitOrders(em, orders, st).Ok?
    ensures Grows(st, EmitOrders(em, orders, st).value.1)
    decreases orders, 0
  {
    if orders != [] {
      assert orders decreases to orders[0];
      var st1 := EmitExpr(em, orders[0].expression, st).value.1;
      ExprGrows(em, orders[0].expression, st);
      OrdersGrow(em, orders[1..], st1);
      GrowsTransitive(st, st1, EmitOrders(em, orders, st).value.1);
    }
  }

  lemma {:induction false} ProjectionsGrow(em: Emitter, projections: seq<BoundProjection>, index: nat, st: EmitState)
    requires EmitProjections(em, projections, index, st).Ok?
    ensures Grows(st, EmitProjections(em, projections, index, st).value.1)
    decreases projections, 0
  {
    if projections != [] {
      assert projections decreases to projections[0];
      var e := projections[0].expression;
      var out := EmitProjections(em, projections, index, st).value.1;
      var st1 := EmitExpr(em, e, st).value.1;
      ExprGrows(em, e, st);
      match e
      case ConditionalOutput(_, visibleIf) =>
        assert e decreases to visibleIf;
        var st2 := EmitExpr(em, visibleIf, st1).value.1;
        ExprGrows(em, visibleIf, st1);
        ProjectionsGrow(em, projections[1..], index + 1, st2);
        GrowsTransitive(st, st1, st2);
        GrowsTransitive(st, st2, out);
      case _ =>
        ProjectionsGrow(em, projections[1..], index + 1, st1);
        GrowsTransitive(st, st1, out);
    }
  }

  lemma {:induction false} JoinsGrow(em: Emitter, joins: seq<BoundJoin>, st: EmitState)
    requires EmitJoins(em, joins, st).Ok?
    ensures Grows(st, EmitJoins(em, joins, st).value.1)
    decreases joins, 0
  {
    if joins != [] {
      assert joins decreases to joins[0];
      var st1 := EmitExpr(em, joins[0].on, st).value.1;
      ExprGrows(em, joins[0].on, st);
      JoinsGrow(em, joins[1..], st1);
      GrowsTransitive(st, st1, EmitJoins(em, joins, st).value.1);
    }
  }

  lemma {:induction false} GroupByGrows(
      em: Emitter, columns: seq<BoundColumn>, having: Option<BoundExpr>, st: EmitState)
    requires EmitGroupBy(em, columns, having, st).Ok?
    ensures Grows(st, EmitGroupBy(em, columns, having, st).value.1)
    decreases having, 1
  {
    if !(columns == [] && having.None?) {
      OptionGrows(em, having, st);
    }
  }

  lemma {:induction false} SelectGrows(em: Emitter, s: BoundSelect, st: EmitState)
    requires EmitSelect(em, s, st).Ok?
    ensures Grows(st, EmitSelect(em, s, st).value.1)
    decreases s, 2
  {
    var st1 := EmitJoins(em, s.joins, st).value.1;
    var st2 := EmitGroupBy(em, s.groupBy, s.having, st1).value.1;
    var st3 := EmitOrders(em, s.orderBy, st2).value.1;
    var st4 := EmitOption(em, s.limit, st3).value.1;
    var st5 := EmitOption(em, s.offset, st4).value.1;
    var st6 := EmitProjections(em, s.projections, 0, st5).value.1;
    var st7 := EmitOption(em, s.filter, st6).value.1;
    JoinsGrow(em, s.joins, st);
    GroupByGrows(em, s.groupBy, s.having, st1);
    OrdersGrow(em, s.orderBy, st2);
    OptionGrows(em, s.limit, st3);
    OptionGrows(em, s.offset, st4);
    ProjectionsGrow(em, s.projections, 0, st5);
    OptionGrows(em, s.filter, st6);
    GrowsTransitive(st, st1, st2);
    GrowsTransitive(st, st2, st3);
    GrowsTransitive(st, st3, st4);
    GrowsTransitive(st, st4, st5);
    GrowsTransitive(st, st5, st6);
    GrowsTransitive(st, st6, st7);
  }

  /** A start without literal names among the server values is good. */
  lemma StartIsGood(serverValues: Bindings)
    requires forall k: nat :: LiteralName(k) !in serverValues
    ensures Good(Start(serverValues))
  {
  }

  /** The names with a number from `lo` up to `hi`. */
  ghost predicate Tried(name: string, lo: nat, hi: nat) {
    exists k: nat {:trigger LiteralName(k)} :: lo <= k < hi && name == LiteralName(k)
  }

  /** The tried names are bound to the literal afterwards, every other name keeps its value. */
  ghost predicate BindsTried(before: Bindings, after: Bindings, value: LogicalValue, lo: nat, hi: nat) {
    && (forall n | Tried(n, lo, hi) :: n in after && after[n] == value)
    && (forall n | n in before && !Tried(n, lo, hi) :: n in after && after[n] == before[n])
  }

  lemma BindsFirst(before: Bindings, after: Bindings, value: LogicalValue, lo: nat, hi: nat)
    requires lo < hi && BindsTried(before[LiteralName(lo) := value], after, value, lo + 1, hi)
    ensures BindsTried(before, after, value, lo, hi)
  {
    forall n
      ensures Tried(n, lo, hi) <==> n == LiteralName(lo) || Tried(n, lo + 1, hi)
    {
      TriedStep(n, lo, hi);
    }
  }

  lemma {:induction false} FreshLiteralEffect(value: LogicalValue, st: EmitState)
    requires FreshLiteral(value, st).Ok?
    ensures var out := FreshLiteral(value, st).value.1;
            && st.nextLiteral < out.nextLiteral
            && BindsTried(st.serverParameters, out.serverParameters, value, st.nextLiteral, out.nextLiteral)
    decreases MAX_LITERALS - st.nextLiteral
  {
    var first := LiteralName(st.nextLiteral);
    var st' := st.(serverParameters := st.serverParameters[first := value], nextLiteral := st.nextLiteral + 1);
    var out := FreshLiteral(value, st).value.1;
    if first in st.serverParameters {
      FreshLiteralEffect(value, st');
    } else {
      ParameterGrows(first, st');
      assert out.serverParameters == st'.serverParameters && out.nextLiteral == st'.nextLiteral;
    }
    BindsFirst(st.serverParameters, out.serverParameters, value, st.nextLiteral, out.nextLiteral);
  }

  lemma TriedStep(name: string, first: nat, last: nat)
    requires first < last
    ensures Tried(name, first, last) <==> name == LiteralName(first) || Tried(name, first + 1, last)
  {
    if Tried(name, first, last) && name != LiteralName(first) {
      var k: nat :| first <= k < last && name == LiteralName(k);
      assert first + 1 <= k;
    }
  }

  /** The search passes over taken names only and stops at the first free one. */
  lemma {:induction false} FreshLiteralStops(value: LogicalValue, st: EmitState)
    requires FreshLiteral(value, st).Ok?
    ensures var last := FreshLiteral(value, st).value.1.nextLiteral - 1;
            && st.nextLiteral <= last && LiteralName(last) !in st.serverParameters
            && forall k: nat | st.nextLiteral <= k < last :: LiteralName(k) in st.serverParameters
    decreases MAX_LITERALS - st.nextLiteral
  {
    var first := LiteralName(st.nextLiteral);
    var st' := st.(serverParameters := st.serverParameters[first := value], nextLiteral := st.nextLiteral + 1);
    if first in st.serverParameters {
      FreshLiteralStops(value, st');
      forall k: nat | st.nextLiteral < k
        ensures LiteralName(k) in st.serverParameters <==> LiteralName(k) in st'.serverParameters
      {
        if LiteralName(k) == first {
          LiteralNameInjective(k, st.nextLiteral);
        }
      }
    } else {
      ParameterGrows(first, st');
    }
  }

  /** Every literal name from the next one up to number `k` is taken. */
  predicate Run(st: EmitState, k: nat) {
    forall j: nat | st.nextLiteral <= j <= k :: LiteralName(j) in st.serverParameters
  }

  /**
    * Binding a literal leaves every earlier server value in place exactly when every name of the
    * unbroken run of taken names from the next one on holds that very value.
    */
  lemma LiteralKeepsValues(value: LogicalValue, st: EmitState)
    requires FreshLiteral(value, st).Ok?
    ensures Within(st.serverParameters, FreshLiteral(value, st).value.1.serverParameters)
       <==> forall k: nat | st.nextLiteral <= k && Run(st, k) :: st.serverParameters[LiteralName(k)] == value
  {
    FreshLiteralEffect(value, st);
    FreshLiteralStops(value, st);
    var out := FreshLiteral(value, st).value.1;
    KeptOnRun(value, st, out.serverParameters, out.nextLiteral - 1);
  }

  lemma RunIsPassed(st: EmitState, last: nat, k: nat)
    requires st.nextLiteral <= last && LiteralName(last) !in st.serverParameters && st.nextLiteral <= k
    requires forall j: nat | st.nextLiteral <= j < last :: LiteralName(j) in st.serverParameters
    ensures Run(st, k) <==> k < last
  {
  }

  lemma KeptOnRun(value: LogicalValue, st: EmitState, after: Bindings, last: nat)
    requires st.nextLiteral <= last && LiteralName(last) !in st.serverParameters
    requires forall j: nat | st.nextLiteral <= j < last :: LiteralName(j) in st.serverParameters
    requires forall n | Tried(n, st.nextLiteral, last + 1) :: n in after && after[n] == value
    requires forall n | n in st.serverParameters && !Tried(n, st.nextLiteral, last + 1) ::
               n in after && after[n] == st.serverParameters[n]
    ensures Within(st.serverParameters, after)
       <==> forall k: nat | st.nextLiteral <= k && Run(st, k) :: st.serverParameters[LiteralName(k)] == value
  {
    if Within(st.serverParameters, after) {
      forall k: nat | st.nextLiteral <= k && Run(st, k)
        ensures st.serverParameters[LiteralName(k)] == value
      {
        RunIsPassed(st, last, k);
        assert Tried(LiteralName(k), st.nextLiteral, last + 1);
      }
    } else {
      var n :| n in st.serverParameters && !(n in after && after[n] == st.serverParameters[n]);
      assert Tried(n, st.nextLiteral, last + 1);
      var k: nat :| st.nextLiteral <= k < last + 1 && n == LiteralName(k);
      RunIsPassed(st, last, k);
    }
  }

  /** A server value under the next literal name is replaced by the next literal. */
  lemma TakenNameIsReplaced(kept: LogicalValue, value: LogicalValue)
    requires kept != value
    ensures var st := Start(map[LiteralName(0) := kept]);
            && FreshLiteral(value, st).Ok?
            && FreshLiteral(value, st).value.1.serverParameters == map[LiteralName(0) := value, LiteralName(1) := value]
  {
    LiteralNumbers();
    var st := Start(map[LiteralName(0) := kept]);
    var second := EmitState(map[LiteralName(0) := value], 1, map[], 0);
    assert st.serverParameters[LiteralName(0) := value] == second.serverParameters;
    assert FreshLiteral(value, st) == FreshLiteral(value, second);
  }

  lemma LiteralNumbers()
    ensures CanonicalKey("literal_" + Decimal(0)) && CanonicalKey("literal_" + Decimal(1))
    ensures LiteralName(0) != LiteralName(1)
  {
    assert Decimal(0) == "0" && Decimal(1) == "1";
    if LiteralName(0) == LiteralName(1) {
      LiteralNameInjective(0, 1);
    }
  }
}
