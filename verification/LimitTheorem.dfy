/**
  * The row limit of a compiled select: which limit the plan carries, and what its LIMIT clause lets
  * through of any list of rows.
  */
module LimitTheorem {
  import opened Core
  import opened Ir
  import opened Semantics
  import opened Policy
  import opened View
  import opened Compile
  import opened Protection
  import opened ViewTheorem

  // ----- The resources a select reads -----

  /** Some EXISTS at any depth reads the resource, or a window ranges over it. */
  predicate Mentions(e: BoundExpr, r: ResourceId)
    decreases e
  {
    match e
    case Exists(select) =>
      || select.resource == r
      || (select.filter.Some? && Mentions(select.filter.value, r))
      || exists p: BoundProjection | p in select.projections :: Mentions(p.expression, r)
    case Binary(_, left, right) => Mentions(left, r) || Mentions(right, r)
    case ConditionalOutput(value, visibleIf) => Mentions(value, r) || Mentions(visibleIf, r)
    case Unary(_, inner) => Mentions(inner, r)
    case Scalar(_, arguments, _) => exists x | x in arguments :: Mentions(x, r)
    case In(expression, values, _) => Mentions(expression, r) || exists x | x in values :: Mentions(x, r)
    case Case(branches, otherwise, _) =>
      || (exists b: Branch | b in branches :: Mentions(b.condition, r) || Mentions(b.value, r))
      || (otherwise.Some? && Mentions(otherwise.value, r))
    case RowNumber(resource, _, _) => resource == r
    case _ => false
  }

  /** The root, a join, or a resource read inside WHERE. */
  predicate ReadBy(s: BoundSelect, r: ResourceId) {
    || r == s.resource
    || (exists j: BoundJoin | j in s.joins :: j.resource == r)
    || (s.filter.Some? && Mentions(s.filter.value, r))
  }

  lemma {:induction false} Collected(e: BoundExpr, r: ResourceId)
    ensures r in Collect(e) <==> Mentions(e, r)
    decreases e, 1
  {
    match e
    case Exists(select) =>
      assert e decreases to select;
      CollectedProjections(select.projections, r);
      if select.filter.Some? {
        Collected(select.filter.value, r);
      }
    case Binary(_, left, right) =>
      Collected(left, r);
      Collected(right, r);
    case ConditionalOutput(value, visibleIf) =>
      Collected(value, r);
      Collected(visibleIf, r);
    case Unary(_, inner) => Collected(inner, r);
    case Scalar(_, arguments, _) => CollectedAll(arguments, r);
    case In(expression, values, _) =>
      Collected(expression, r);
      CollectedAll(values, r);
    case Case(branches, otherwise, _) =>
      CollectedBranches(branches, r);
      if otherwise.Some? {
        Collected(otherwise.value, r);
      }
    case _ =>
  }

  lemma {:induction false} CollectedAll(es: seq<BoundExpr>, r: ResourceId)
    ensures r in CollectAll(es) <==> exists x | x in es :: Mentions(x, r)
    decreases es, 0
  {
    if es != [] {
      Collected(es[0], r);
      CollectedAll(es[1..], r);
      assert es == [es[0]] + es[1..];
    }
  }

  lemma {:induction false} CollectedProjections(projections: seq<BoundProjection>, r: ResourceId)
    ensures r in CollectProjections(projections)
       <==> exists p: BoundProjection | p in projections :: Mentions(p.expression, r)
    decreases projections, 0
  {
    if projections != [] {
      assert projections decreases to projections[0];
      Collected(projections[0].expression, r);
      CollectedProjections(projections[1..], r);
      assert projections == [projections[0]] + projections[1..];
    }
  }

  lemma {:induction false} CollectedBranches(branches: seq<Branch>, r: ResourceId)
    ensures r in CollectBranches(branches)
       <==> exists b: Branch | b in branches :: Mentions(b.condition, r) || Mentions(b.value, r)
    decreases branches, 0
  {
    if branches != [] {
      assert branches decreases to branches[0];
      Collected(branches[0].condition, r);
      Collected(branches[0].value, r);
      CollectedBranches(branches[1..], r);
      assert branches == [branches[0]] + branches[1..];
    }
  }

  lemma {:induction false} InsertedMembers(sorted: seq<ResourceId>, r: ResourceId)
    ensures forall x :: x in InsertSorted(sorted, r) <==> x == r || x in sorted
  {
    if sorted != [] && r > sorted[0] {
      InsertedMembers(sorted[1..], r);
      assert sorted == [sorted[0]] + sorted[1..];
    }
  }

  lemma {:induction false} SortedMembers(resources: seq<ResourceId>)
    ensures forall x :: x in SortDedup(resources) <==> x in resources
  {
    if resources != [] {
      SortedMembers(resources[1..]);
      InsertedMembers(SortDedup(resources[1..]), resources[0]);
      assert resources == [resources[0]] + resources[1..];
    }
  }

  lemma QueriedExactly(s: BoundSelect, r: ResourceId)
    ensures r in QueryResources(s) <==> ReadBy(s, r)
  {
    var joined := seq(|s.joins|, i requires 0 <= i < |s.joins| => s.joins[i].resource);
    SortedMembers([s.resource] + joined + CollectOption(s.filter));
    if s.filter.Some? {
      Collected(s.filter.value, r);
    }
    assert r in joined <==> exists j: BoundJoin | j in s.joins :: j.resource == r by {
      if j: BoundJoin :| j in s.joins && j.resource == r {
        var i :| 0 <= i < |s.joins| && s.joins[i] == j;
        assert joined[i] == r;
      }
    }
  }

  // ----- The limit of the plan -----

  /** `limit` is the least limit among the policies of the resources read, and none if none has one. */
  ghost predicate LeastLimit(v: RoleView, s: BoundSelect, limit: Option<nat>) {
    match limit
    case None => forall r | ReadBy(s, r) :: r in v.policies && v.policies[r].limit == None
    case Some(n) =>
      && (exists r :: ReadBy(s, r) && r in v.policies && v.policies[r].limit == Some(n))
      && forall r | ReadBy(s, r) :: r in v.policies && (v.policies[r].limit.Some? ==> n <= v.policies[r].limit.value)
  }

  lemma {:induction false} SelectedAll(bundle: PolicyBundle, resources: seq<ResourceId>, role: string)
    requires SelectPolicies(bundle, resources, role).Ok?
    ensures forall r | r in resources :: r in SelectPolicies(bundle, resources, role).value
  {
    if resources != [] {
      SelectedAll(bundle, resources[1..], role);
      assert resources == [resources[0]] + resources[1..];
    }
  }

  /** The least of the limits that the resources of a list have. */
  ghost predicate LeastOf(selected: Selected, resources: seq<ResourceId>, limit: Option<nat>)
    requires forall r | r in resources :: r in selected
  {
    match limit
    case None => forall r | r in resources :: selected[r].limit == None
    case Some(n) =>
      && (exists r :: r in resources && selected[r].limit == Some(n))
      && forall r | r in resources && selected[r].limit.Some? :: n <= selected[r].limit.value
  }

  lemma {:induction false} MinIsLeast(selected: Selected, resources: seq<ResourceId>)
    requires forall r | r in resources :: r in selected
    ensures LeastOf(selected, resources, MinLimit(selected, resources))
  {
    if resources != [] {
      MinIsLeast(selected, resources[1..]);
      assert resources == [resources[0]] + resources[1..];
    }
  }

  /** Every accepted select carries the least limit of all the resources it reads. */
  lemma PlanLimitIsLeast(v: RoleView, bundle: PolicyBundle, s: BoundSelect, plan: ProtectedPlan<BoundSelect>)
    requires v == ViewOf(bundle, v.engine, v.session) && CompileSelect(bundle, s, v.session) == Ok(plan)
    ensures LeastLimit(v, s, plan.policyLimit)
  {
    var resources := QueryResources(s);
    var selected := PiecesOf(bundle, s, v.session).selected;
    CompiledPieces(bundle, s, v.session, plan);
    SelectPoliciesWithin(bundle, resources, v.engine, v.session);
    SelectedAll(bundle, resources, v.session.role);
    MinIsLeast(selected, resources);
    PlanWindowFields(bundle, s, v.session, plan);
    LeastRead(v, s, selected, resources, plan.policyLimit);
  }

  lemma LeastRead(v: RoleView, s: BoundSelect, selected: Selected, resources: seq<ResourceId>, limit: Option<nat>)
    requires resources == QueryResources(s) && Within(selected, v.policies)
    requires (forall r | r in resources :: r in selected) && LeastOf(selected, resources, limit)
    ensures LeastLimit(v, s, limit)
  {
    forall r
      ensures r in resources <==> ReadBy(s, r)
    {
      QueriedExactly(s, r);
    }
    if limit.Some? {
      var r :| r in resources && selected[r].limit == limit;
      assert ReadBy(s, r) && v.policies[r].limit == limit;
    }
  }

  // ----- What the plan's LIMIT lets through -----

  /** At most that many of the first rows; no 64-bit LIMIT can say more than the largest one. */
  function Cut<T>(items: seq<T>, limit: Option<nat>): seq<T> {
    if limit.None? then items
    else
      var n := if limit.value <= MAX_INT64 then limit.value else MAX_INT64;
      if n < |items| then items[..n] else items
  }

  /** The rows that the client's own LIMIT and OFFSET leave. */
  function ClientWindow<T>(c: Ctx, s: BoundSelect, items: seq<T>, env: Env): seq<T> {
    Truncate(items, EvalOption(c, s.limit, env), EvalOption(c, s.offset, env))
  }

  /** The rows that the plan's LIMIT and OFFSET leave. */
  function PlanWindow<T>(c: Ctx, plan: ProtectedPlan<BoundSelect>, items: seq<T>, env: Env): seq<T> {
    Truncate(items, EvalOption(c, plan.statement.limit, env), EvalOption(c, plan.statement.offset, env))
  }

  ghost predicate WindowIsCut(c: Ctx, s: BoundSelect, plan: ProtectedPlan<BoundSelect>, env: Env) {
    forall items: seq<Env> :: PlanWindow(c, plan, items, env) == Cut(ClientWindow(c, s, items, env), plan.policyLimit)
  }

  /** Without a client limit, or with one that is not negative, the plan leaves the client's rows cut to its limit. */
  lemma PlanCutsWindow(
      bundle: PolicyBundle, s: BoundSelect, session: TrustedSession, plan: ProtectedPlan<BoundSelect>, c: Ctx, env: Env)
    requires CompileSelect(bundle, s, session) == Ok(plan)
    requires s.limit.Some? ==> Eval(c, s.limit.value, env).Int64? && Eval(c, s.limit.value, env).integer >= 0
    ensures WindowIsCut(c, s, plan, env)
  {
    PlanWindowFields(bundle, s, session, plan);
    forall items: seq<Env>
      ensures PlanWindow(c, plan, items, env) == Cut(ClientWindow(c, s, items, env), plan.policyLimit)
    {
      if plan.policyLimit.Some? {
        var offset := EvalOption(c, s.offset, env);
        CutIsTruncate(ClientWindow(c, s, items, env), plan.policyLimit.value);
        if s.limit.Some? {
          RewrittenAt(c, s.limit.value, plan.policyLimit.value, env, offset, items);
          assert s.limit == Some(s.limit.value) && plan.policyLimit == Some(plan.policyLimit.value);
        } else {
          OwnLimit(c, plan.policyLimit.value, env);
          TruncateTwice(items, Some(Int64(PolicyBound(plan.policyLimit.value))), offset);
        }
      }
    }
  }

  /** Under a policy limit it does so exactly when the client's limit is not negative. */
  lemma PlanCutsExactly(
      bundle: PolicyBundle, s: BoundSelect, session: TrustedSession, plan: ProtectedPlan<BoundSelect>, c: Ctx, env: Env)
    requires CompileSelect(bundle, s, session) == Ok(plan) && plan.policyLimit.Some?
    requires s.limit.Some? && Eval(c, s.limit.value, env).Int64?
    ensures WindowIsCut(c, s, plan, env) <==> Eval(c, s.limit.value, env).integer >= 0
  {
    if Eval(c, s.limit.value, env).integer >= 0 {
      PlanCutsWindow(bundle, s, session, plan, c, env);
    } else {
      PlanWindowFields(bundle, s, session, plan);
      RewrittenLimit(c, s.limit.value, plan.policyLimit.value, env, EvalOption(c, s.offset, env));
      var items: seq<Env> :|
        Truncate(items, EvalOption(c, LimitWith(s.limit, plan.policyLimit), env), EvalOption(c, s.offset, env))
        != Truncate(Truncate(items, EvalOption(c, s.limit, env), EvalOption(c, s.offset, env)),
                    Some(Int64(PolicyBound(plan.policyLimit.value))), None);
      CutIsTruncate(ClientWindow(c, s, items, env), plan.policyLimit.value);
      assert PlanWindow(c, plan, items, env) != Cut(ClientWindow(c, s, items, env), plan.policyLimit);
    }
  }

  lemma RewrittenAt(
    c: Ctx, client: BoundExpr, limit: nat, env: Env, offset: Option<LogicalValue>, items: seq<Env>)
    requires Eval(c, client, env).Int64? && Eval(c, client, env).integer >= 0
    ensures Truncate(items, EvalOption(c, LimitWith(Some(client), Some(limit)), env), offset)
         == Truncate(Truncate(items, EvalOption(c, Some(client), env), offset), Some(Int64(PolicyBound(limit))), None)
  {
    RewrittenLimit(c, client, limit, env, offset);
  }

  lemma CutIsTruncate<T>(items: seq<T>, limit: nat)
    ensures Truncate(items, Some(Int64(PolicyBound(limit))), None) == Cut(items, Some(limit))
  {
  }

  /** The offset applies first. */
  lemma TruncateTwice<T>(items: seq<T>, limit: Option<LogicalValue>, offset: Option<LogicalValue>)
    ensures Truncate(items, limit, offset) == Truncate(Truncate(items, None, offset), limit, None)
  {
  }

  lemma PlanWindowFields(
      bundle: PolicyBundle, s: BoundSelect, session: TrustedSession, plan: ProtectedPlan<BoundSelect>)
    requires CompileSelect(bundle, s, session) == Ok(plan)
    ensures plan.policyLimit == MinLimit(PiecesOf(bundle, s, session).selected, QueryResources(s))
    ensures plan.statement.limit == LimitWith(s.limit, plan.policyLimit) && plan.statement.offset == s.offset
  {
  }

  lemma OwnLimit(c: Ctx, limit: nat, env: Env)
    ensures EvalOption(c, LimitWith(None, Some(limit)), env) == Some(Int64(PolicyBound(limit)))
  {
  }
}
