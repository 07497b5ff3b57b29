/** Table aliases: the root, each join, then every resource that an EXISTS in WHERE reads. */
module Alias {
  import opened Core
  import opened Ir

  type Aliases = map<ResourceId, string>

  datatype AliasState = AliasState(aliases: Aliases, next: nat)

  const ALIAS_PREFIX := SERVER_PARAMETER_PREFIX + "t"

  function AliasName(n: nat): string {
    ALIAS_PREFIX + Decimal(n)
  }

  // ----- Allocation -----

  /** Gives a resource the next alias unless it has one. */
  function Enter(resource: ResourceId, st: AliasState): AliasState {
    if resource in st.aliases then st
    else AliasState(st.aliases[resource := AliasName(st.next)], st.next + 1)
  }

  function Allocate(e: BoundExpr, st: AliasState): AliasState
    decreases e, 0
  {
    match e
    case Exists(select) =>
      assert e decreases to select;
      AllocateOption(select.filter, Enter(select.resource, st))
    case Binary(_, left, right) => Allocate(right, Allocate(left, st))
    case ConditionalOutput(value, visibleIf) => Allocate(visibleIf, Allocate(value, st))
    case Unary(_, inner) => Allocate(inner, st)
    case Scalar(_, arguments, _) => AllocateAll(arguments, st)
    case In(expression, values, _) => AllocateAll(values, Allocate(expression, st))
    case Case(branches, otherwise, _) => AllocateOption(otherwise, AllocateBranches(branches, st))
    case _ => st
  }

  function AllocateOption(e: Option<BoundExpr>, st: AliasState): AliasState
    decreases e, 0
  {
    match e
    case None => st
    case Some(x) => Allocate(x, st)
  }

  function AllocateAll(es: seq<BoundExpr>, st: AliasState): AliasState
    decreases es, 0
  {
    if es == [] then st else AllocateAll(es[1..], Allocate(es[0], st))
  }

  function AllocateBranches(branches: seq<Branch>, st: AliasState): AliasState
    decreases branches, 0
  {
    if branches == [] then st
    else
      assert branches decreases to branches[0];
      AllocateBranches(branches[1..], Allocate(branches[0].value, Allocate(branches[0].condition, st)))
  }

  /** The joins from position `index` on take the aliases after the root's. */
  function EnterJoins(joins: seq<BoundJoin>, index: nat, st: AliasState): AliasState {
    if joins == [] then st
    else
      EnterJoins(joins[1..], index + 1,
                 AliasState(st.aliases[joins[0].resource := AliasName(index + 1)], index + 2))
  }

  function AliasesFor(s: BoundSelect): Aliases {
    AllocateOption(s.filter, EnterJoins(s.joins, 0, AliasState(map[s.resource := AliasName(0)], 1))).aliases
  }

  // ----- No two resources share an alias -----

  predicate Injective(aliases: Aliases) {
    forall r, q | r in aliases && q in aliases && aliases[r] == aliases[q] :: r == q
  }

  /** An alias allocated before the counter reached `n`. */
  predicate AllocatedBelow(alias: string, n: nat) {
    && ALIAS_PREFIX <= alias
    && var digits := alias[|ALIAS_PREFIX|..];
       && (forall i | 0 <= i < |digits| :: '0' <= digits[i] <= '9')
       && DecimalValue(digits) < n
       && alias == AliasName(DecimalValue(digits))
  }

  predicate Ordered(st: AliasState) {
    && Injective(st.aliases)
    && forall r | r in st.aliases :: AllocatedBelow(st.aliases[r], st.next)
  }

  lemma NameAllocated(k: nat, n: nat)
    ensures AllocatedBelow(AliasName(k), n) <==> k < n
  {
    assert AliasName(k)[|ALIAS_PREFIX|..] == Decimal(k);
    DecimalRoundTrip(k);
  }

  lemma EnterOrdered(resource: ResourceId, st: AliasState)
    requires Ordered(st)
    ensures Ordered(Enter(resource, st)) && Within(st.aliases, Enter(resource, st).aliases)
    ensures resource in Enter(resource, st).aliases
  {
    NameAllocated(st.next, st.next);
    NameAllocated(st.next, st.next + 1);
  }

  /** Allocation keeps aliases distinct and never changes one already given. */
  lemma {:induction false} AllocateOrdered(e: BoundExpr, st: AliasState)
    requires Ordered(st)
    ensures Ordered(Allocate(e, st)) && Within(st.aliases, Allocate(e, st).aliases)
    decreases e, 0
  {
    match e
    case Exists(select) =>
      assert e decreases to select;
      EnterOrdered(select.resource, st);
      AllocateOptionOrdered(select.filter, Enter(select.resource, st));
    case Binary(_, left, right) =>
      AllocateOrdered(left, st);
      AllocateOrdered(right, Allocate(left, st));
    case ConditionalOutput(value, visibleIf) =>
      AllocateOrdered(value, st);
      AllocateOrdered(visibleIf, Allocate(value, st));
    case Unary(_, inner) => AllocateOrdered(inner, st);
    case Scalar(_, arguments, _) => AllocateAllOrdered(arguments, st);
    case In(expression, values, _) =>
      AllocateOrdered(expression, st);
      AllocateAllOrdered(values, Allocate(expression, st));
    case Case(branches, otherwise, _) =>
      AllocateBranchesOrdered(branches, st);
      AllocateOptionOrdered(otherwise, AllocateBranches(branches, st));
    case _ =>
  }

  lemma {:induction false} AllocateOptionOrdered(e: Option<BoundExpr>, st: AliasState)
    requires Ordered(st)
    ensures Ordered(AllocateOption(e, st)) && Within(st.aliases, AllocateOption(e, st).aliases)
    decreases e, 0
  {
    if e.Some? {
      AllocateOrdered(e.value, st);
    }
  }

  lemma {:induction false} AllocateAllOrdered(es: seq<BoundExpr>, st: AliasState)
    requires Ordered(st)
    ensures Ordered(AllocateAll(es, st)) && Within(st.aliases, AllocateAll(es, st).aliases)
    decreases es, 0
  {
    if es != [] {
      AllocateOrdered(es[0], st);
      AllocateAllOrdered(es[1..], Allocate(es[0], st));
    }
  }

  lemma {:induction false} AllocateBranchesOrdered(branches: seq<Branch>, st: AliasState)
    requires Ordered(st)
    ensures Ordered(AllocateBranches(branches, st)) && Within(st.aliases, AllocateBranches(branches, st).aliases)
    decreases branches, 0
  {
    if branches != [] {
      assert branches decreases to branches[0];
      AllocateOrdered(branches[0].condition, st);
      var st1 := Allocate(branches[0].condition, st);
      AllocateOrdered(branches[0].value, st1);
      AllocateBranchesOrdered(branches[1..], Allocate(branches[0].value, st1));
    }
  }

  lemma {:induction false} EnterJoinsOrdered(joins: seq<BoundJoin>, index: nat, st: AliasState)
    requires Ordered(st) && st.next == index + 1
    requires forall i | 0 <= i < |joins| :: joins[i].resource !in st.aliases
    requires forall i, j | 0 <= i < j < |joins| :: joins[i].resource != joins[j].resource
    ensures Ordered(EnterJoins(joins, index, st)) && Within(st.aliases, EnterJoins(joins, index, st).aliases)
    ensures forall i | 0 <= i < |joins| :: joins[i].resource in EnterJoins(joins, index, st).aliases
    decreases |joins|
  {
    if joins != [] {
      var st' := Enter(joins[0].resource, st);
      EnterOrdered(joins[0].resource, st);
      EnterJoinsOrdered(joins[1..], index + 1, st');
    }
  }

  // ----- Every resource gets an alias -----

  /** Every EXISTS that allocation visits reads an aliased resource. */
  predicate Covered(e: BoundExpr, aliases: Aliases)
    decreases e
  {
    match e
    case Exists(select) =>
      assert e decreases to select;
      select.resource in aliases && (select.filter.Some? ==> Covered(select.filter.value, aliases))
    case Binary(_, left, right) => Covered(left, aliases) && Covered(right, aliases)
    case ConditionalOutput(value, visibleIf) => Covered(value, aliases) && Covered(visibleIf, aliases)
    case Unary(_, inner) => Covered(inner, aliases)
    case Scalar(_, arguments, _) => forall x | x in arguments :: Covered(x, aliases)
    case In(expression, values, _) => Covered(expression, aliases) && forall x | x in values :: Covered(x, aliases)
    case Case(branches, otherwise, _) =>
      && (forall b: Branch | b in branches :: Covered(b.condition, aliases) && Covered(b.value, aliases))
      && (otherwise.Some? ==> Covered(otherwise.value, aliases))
    case _ => true
  }

  lemma {:induction false} CoveredMonotone(e: BoundExpr, small: Aliases, big: Aliases)
    requires Covered(e, small) && Within(small, big)
    ensures Covered(e, big)
    decreases e
  {
    match e
    case Exists(select) =>
      assert e decreases to select;
      if select.filter.Some? {
        CoveredMonotone(select.filter.value, small, big);
      }
    case Binary(_, left, right) =>
      CoveredMonotone(left, small, big);
      CoveredMonotone(right, small, big);
    case ConditionalOutput(value, visibleIf) =>
      CoveredMonotone(value, small, big);
      CoveredMonotone(visibleIf, small, big);
    case Unary(_, inner) => CoveredMonotone(inner, small, big);
    case Scalar(_, arguments, _) =>
      forall x | x in arguments
        ensures Covered(x, big)
      {
        CoveredMonotone(x, small, big);
      }
    case In(expression, values, _) =>
      CoveredMonotone(expression, small, big);
      forall x | x in values
        ensures Covered(x, big)
      {
        CoveredMonotone(x, small, big);
      }
    case Case(branches, otherwise, _) =>
      forall b: Branch | b in branches
        ensures Covered(b.condition, big) && Covered(b.value, big)
      {
        CoveredMonotone(b.condition, small, big);
        CoveredMonotone(b.value, small, big);
      }
      if otherwise.Some? {
        CoveredMonotone(otherwise.value, small, big);
      }
    case _ =>
  }

  lemma {:induction false} AllocateCovers(e: BoundExpr, st: AliasState)
    requires Ordered(st)
    ensures Covered(e, Allocate(e, st).aliases)
    decreases e, 1
  {
    match e
    case Exists(select) =>
      assert e decreases to select;
      var entered := Enter(select.resource, st);
      EnterOrdered(select.resource, st);
      AllocateOptionOrdered(select.filter, entered);
      if select.filter.Some? {
        AllocateCovers(select.filter.value, entered);
      }
    case Binary(_, left, right) =>
      AllocateOrdered(left, st);
      AllocateCovers(left, st);
      AllocateOrdered(right, Allocate(left, st));
      AllocateCovers(right, Allocate(left, st));
      CoveredMonotone(left, Allocate(left, st).aliases, Allocate(e, st).aliases);
    case ConditionalOutput(value, visibleIf) =>
      AllocateOrdered(value, st);
      AllocateCovers(value, st);
      AllocateOrdered(visibleIf, Allocate(value, st));
      AllocateCovers(visibleIf, Allocate(value, st));
      CoveredMonotone(value, Allocate(value, st).aliases, Allocate(e, st).aliases);
    case Unary(_, inner) => AllocateCovers(inner, st);
    case Scalar(_, arguments, _) => AllocateAllCovers(arguments, st);
    case In(expression, values, _) =>
      AllocateOrdered(expression, st);
      AllocateCovers(expression, st);
      AllocateAllOrdered(values, Allocate(expression, st));
      AllocateAllCovers(values, Allocate(expression, st));
      CoveredMonotone(expression, Allocate(expression, st).aliases, Allocate(e, st).aliases);
    case Case(branches, otherwise, _) =>
      var st1 := AllocateBranches(branches, st);
      AllocateBranchesOrdered(branches, st);
      AllocateBranchesCovers(branches, st);
      AllocateOptionOrdered(otherwise, st1);
      if otherwise.Some? {
        AllocateCovers(otherwise.value, st1);
      }
      forall b: Branch | b in branches
        ensures Covered(b.condition, Allocate(e, st).aliases) && Covered(b.value, Allocate(e, st).aliases)
      {
        CoveredMonotone(b.condition, st1.aliases, Allocate(e, st).aliases);
        CoveredMonotone(b.value, st1.aliases, Allocate(e, st).aliases);
      }
    case _ =>
  }

  lemma {:induction false} AllocateAllCovers(es: seq<BoundExpr>, st: AliasState)
    requires Ordered(st)
    ensures forall x | x in es :: Covered(x, AllocateAll(es, st).aliases)
    decreases es, 0
  {
    if es != [] {
      var st' := Allocate(es[0], st);
      AllocateOrdered(es[0], st);
      AllocateCovers(es[0], st);
      AllocateAllOrdered(es[1..], st');
      AllocateAllCovers(es[1..], st');
      CoveredMonotone(es[0], st'.aliases, AllocateAll(es, st).aliases);
      assert es == [es[0]] + es[1..];
    }
  }

  lemma {:induction false} AllocateBranchesCovers(branches: seq<Branch>, st: AliasState)
    requires Ordered(st)
    ensures forall b: Branch | b in branches ::
              Covered(b.condition, AllocateBranches(branches, st).aliases)
              && Covered(b.value, AllocateBranches(branches, st).aliases)
    decreases branches, 0
  {
    if branches != [] {
      assert branches decreases to branches[0];
      var st1 := Allocate(branches[0].condition, st);
      var st2 := Allocate(branches[0].value, st1);
      var out := AllocateBranches(branches, st).aliases;
      AllocateOrdered(branches[0].condition, st);
      AllocateOrdered(branches[0].value, st1);
      AllocateCovers(branches[0].condition, st);
      AllocateCovers(branches[0].value, st1);
      AllocateBranchesOrdered(branches[1..], st2);
      AllocateBranchesCovers(branches[1..], st2);
      CoveredMonotone(branches[0].condition, st1.aliases, st2.aliases);
      CoveredMonotone(branches[0].condition, st2.aliases, out);
      CoveredMonotone(branches[0].value, st2.aliases, out);
      assert branches == [branches[0]] + branches[1..];
    }
  }

  /**
    * With pairwise distinct root and joins, no two resources share an alias, and the root, every
    * join and every resource that an EXISTS in WHERE reads has one.
    */
  lemma AliasesInjectiveAndTotal(s: BoundSelect)
    requires forall i | 0 <= i < |s.joins| :: s.joins[i].resource != s.resource
    requires forall i, j | 0 <= i < j < |s.joins| :: s.joins[i].resource != s.joins[j].resource
    ensures Injective(AliasesFor(s))
    ensures s.resource in AliasesFor(s)
    ensures forall i | 0 <= i < |s.joins| :: s.joins[i].resource in AliasesFor(s)
    ensures s.filter.Some? ==> Covered(s.filter.value, AliasesFor(s))
  {
    var root := AliasState(map[s.resource := AliasName(0)], 1);
    NameAllocated(0, 1);
    EnterJoinsOrdered(s.joins, 0, root);
    var joined := EnterJoins(s.joins, 0, root);
    AllocateOptionOrdered(s.filter, joined);
    if s.filter.Some? {
      AllocateCovers(s.filter.value, joined);
    }
  }

  // ----- The allocator as the source runs it -----

  class AliasAllocator {
    var aliases: Aliases
    var next: nat

    constructor ()
      ensures State() == AliasState(map[], 0)
    {
      aliases, next := map[], 0;
    }

    function State(): AliasState
      reads this
    {
      AliasState(aliases, next)
    }

    method AllocateNested(e: BoundExpr)
      modifies this
      ensures State() == Allocate(e, old(State()))
      decreases e
    {
      match e
      case Exists(select) =>
        assert e decreases to select;
        if select.resource !in aliases {
          aliases := aliases[select.resource := AliasName(next)];
          next := next + 1;
        }
        if select.filter.Some? {
          AllocateNested(select.filter.value);
        }
      case Binary(_, left, right) =>
        AllocateNested(left);
        AllocateNested(right);
      case ConditionalOutput(value, visibleIf) =>
        AllocateNested(value);
        AllocateNested(visibleIf);
      case Unary(_, inner) => AllocateNested(inner);
      case Scalar(_, arguments, _) =>
        assert arguments[0..] == arguments;
        for i := 0 to |arguments|
          invariant AllocateAll(arguments[i..], State()) == old(Allocate(e, State()))
        {
          assert arguments[i..][1..] == arguments[i + 1..];
          AllocateNested(arguments[i]);
        }
      case In(expression, values, _) =>
        AllocateNested(expression);
        assert values[0..] == values;
        for i := 0 to |values|
          invariant AllocateAll(values[i..], State()) == old(Allocate(e, State()))
        {
          assert values[i..][1..] == values[i + 1..];
          AllocateNested(values[i]);
        }
      case Case(branches, otherwise, _) =>
        assert branches[0..] == branches;
        for i := 0 to |branches|
          invariant AllocateOption(otherwise, AllocateBranches(branches[i..], State())) == old(Allocate(e, State()))
        {
          assert branches[i..][1..] == branches[i + 1..];
          assert branches decreases to branches[i];
          AllocateNested(branches[i].condition);
          AllocateNested(branches[i].value);
        }
        if otherwise.Some? {
          AllocateNested(otherwise.value);
        }
      case _ =>
    }

    method AliasesForSelect(s: BoundSelect)
      modifies this
      ensures aliases == AliasesFor(s)
    {
      aliases, next := map[s.resource := AliasName(0)], 1;
      assert s.joins[0..] == s.joins;
      ghost var joined := EnterJoins(s.joins, 0, State());
      for i := 0 to |s.joins|
        invariant EnterJoins(s.joins[i..], i, State()) == joined
      {
        assert s.joins[i..][1..] == s.joins[i + 1..];
        aliases := aliases[s.joins[i].resource := AliasName(i + 1)];
        next := i + 2;
      }
      if s.filter.Some? {
        AllocateNested(s.filter.value);
      }
    }
  }
}
