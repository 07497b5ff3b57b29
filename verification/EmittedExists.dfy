/**
  * The emitter refuses an EXISTS over a resource that has no alias. Only EXISTS in WHERE gives a
  * resource an alias, so end-to-end noninterference has to exclude, outside WHERE, only EXISTS
  * over the resources that have one.
  */
module EmittedExists {
  import opened Core
  import opened Ir
  import opened Semantics
  import opened Policy
  import opened View
  import opened Compile
  import opened Protection
  import opened JoinView
  import opened ViewTheorem
  import opened Alias
  import opened Emit
  import opened EmitInvariants
  import opened EmitMeaning
  import opened SqlSemantics
  import opened EndToEnd
  import Sql

  // ----- Every EXISTS of an emitted expression has an alias -----

  /** Whatever is emitted reads, in every EXISTS at any depth, only resources that have an alias. */
  lemma {:induction false} ExprCovered(em: Emitter, e: BoundExpr, st: EmitState)
    requires EmitExpr(em, e, st).Ok?
    ensures Covered(e, em.aliases)
    decreases e, 0
  {
    match e
    case Exists(select) =>
      assert e decreases to select;
      OptionCovered(em, select.filter, StatesOf(em, select, st).projections);
    case Binary(_, left, right) =>
      ExprCovered(em, left, st);
      ExprCovered(em, right, EmitExpr(em, left, st).value.1);
    case ConditionalOutput(value, visibleIf) =>
      ExprCovered(em, visibleIf, st);
      ExprCovered(em, value, EmitExpr(em, visibleIf, st).value.1);
    case Unary(_, inner) => ExprCovered(em, inner, st);
    case Scalar(_, arguments, _) => AllCovered(em, arguments, st);
    case In(expression, values, _) =>
      ExprCovered(em, expression, st);
      AllCovered(em, values, EmitExpr(em, expression, st).value.1);
    case Case(branches, otherwise, _) =>
      BranchesCovered(em, branches, st);
      OptionCovered(em, otherwise, EmitBranches(em, branches, st).value.1);
    case _ =>
  }

  lemma {:induction false} OptionCovered(em: Emitter, e: Option<BoundExpr>, st: EmitState)
    requires EmitOption(em, e, st).Ok?
    ensures e.Some? ==> Covered(e.value, em.aliases)
    decreases e, 0
  {
    if e.Some? {
      ExprCovered(em, e.value, st);
    }
  }

  lemma {:induction false} AllCovered(em: Emitter, es: seq<BoundExpr>, st: EmitState)
    requires EmitAll(em, es, st).Ok?
    ensures forall x | x in es :: Covered(x, em.aliases)
    decreases es, 0
  {
    if es != [] {
      ExprCovered(em, es[0], st);
      AllCovered(em, es[1..], EmitExpr(em, es[0], st).value.1);
      assert es == [es[0]] + es[1..];
    }
  }

  lemma {:induction false} BranchesCovered(em: Emitter, branches: seq<Branch>, st: EmitState)
    requires EmitBranches(em, branches, st).Ok?
    ensures forall b: Branch | b in branches :: Covered(b.condition, em.aliases) && Covered(b.value, em.aliases)
    decreases branches, 0
  {
    if branches != [] {
      assert branches decreases to branches[0];
      var st1 := EmitExpr(em, branches[0].condition, st).value.1;
      ExprCovered(em, branches[0].condition, st);
      ExprCovered(em, branches[0].value, st1);
      BranchesCovered(em, branches[1..], EmitExpr(em, branches[0].value, st1).value.1);
      assert branches == [branches[0]] + branches[1..];
    }
  }

  lemma {:induction false} OrdersCovered(em: Emitter, orders: seq<BoundOrder>, st: EmitState)
    requires EmitOrders(em, orders, st).Ok?
    ensures forall o: BoundOrder | o in orders :: Covered(o.expression, em.aliases)
  {
    if orders != [] {
      ExprCovered(em, orders[0].expression, st);
      OrdersCovered(em, orders[1..], EmitExpr(em, orders[0].expression, st).value.1);
      assert orders == [orders[0]] + orders[1..];
    }
  }

  lemma {:induction false} JoinsCovered(em: Emitter, joins: seq<BoundJoin>, st: EmitState)
    requires EmitJoins(em, joins, st).Ok?
    ensures forall j: BoundJoin | j in joins :: Covered(j.on, em.aliases)
  {
    if joins != [] {
      ExprCovered(em, joins[0].on, st);
      JoinsCovered(em, joins[1..], EmitExpr(em, joins[0].on, st).value.1);
      assert joins == [joins[0]] + joins[1..];
    }
  }

  lemma {:induction false} ProjectionsCovered(em: Emitter, projections: seq<BoundProjection>, index: nat, st: EmitState)
    requires EmitProjections(em, projections, index, st).Ok?
    ensures forall p: BoundProjection | p in projections :: Covered(p.expression, em.aliases)
  {
    if projections != [] {
      var e := projections[0].expression;
      var st1 := EmitExpr(em, e, st).value.1;
      ExprCovered(em, e, st);
      ProjectionsCovered(em, projections[1..], index + 1,
                         if e.ConditionalOutput? then EmitExpr(em, e.visibleIf, st1).value.1 else st1);
      assert projections == [projections[0]] + projections[1..];
    }
  }

  lemma GroupByCovered(em: Emitter, columns: seq<BoundColumn>, having: Option<BoundExpr>, st: EmitState)
    requires EmitGroupBy(em, columns, having, st).Ok?
    ensures having.Some? ==> Covered(having.value, em.aliases)
  {
    if having.Some? {
      OptionCovered(em, having, st);
    }
  }

  /** The expressions of a select outside WHERE. */
  predicate OutsideCovered(s: BoundSelect, aliases: Aliases) {
    && (forall j: BoundJoin | j in s.joins :: Covered(j.on, aliases))
    && (forall p: BoundProjection | p in s.projections :: Covered(p.expression, aliases))
    && (forall o: BoundOrder | o in s.orderBy :: Covered(o.expression, aliases))
    && (s.having.Some? ==> Covered(s.having.value, aliases))
  }

  lemma SelectCovered(em: Emitter, s: BoundSelect, st: EmitState)
    requires EmitSelect(em, s, st).Ok?
    ensures OutsideCovered(s, em.aliases)
  {
    var t := StatesOf(em, s, st);
    JoinsCovered(em, s.joins, st);
    OrdersCovered(em, s.orderBy, t.groupBy);
    ProjectionsCovered(em, s.projections, 0, t.offset);
    GroupByCovered(em, s.groupBy, s.having, t.joins);
  }

  // ----- What the compiler added outside WHERE has no EXISTS to hide behind -----

  lemma {:induction false} PermittedCovered(
    projections: seq<BoundProjection>, selected: Selected, session: TrustedSession, values: Bindings, aliases: Aliases)
    requires PermitProjections(projections, selected, session, values).Ok?
    requires forall p: BoundProjection | p in PermitProjections(projections, selected, session, values).value.0 ::
               Covered(p.expression, aliases)
    ensures forall p: BoundProjection | p in projections :: Covered(p.expression, aliases)
  {
    if projections != [] {
      var (first, values') := PermitProjection(projections[0], selected, session, values).value;
      var (rest, _) := PermitProjections(projections[1..], selected, session, values').value;
      assert PermitProjections(projections, selected, session, values).value.0 == [first] + rest;
      assert forall p: BoundProjection | p in rest :: p in [first] + rest;
      PermittedCovered(projections[1..], selected, session, values', aliases);
      assert first in [first] + rest;
      assert projections == [projections[0]] + projections[1..];
    }
  }

  lemma {:induction false} ProtectedJoinsCovered(
    joins: seq<BoundJoin>, current: BoundExpr, selected: Selected, session: TrustedSession, values: Bindings,
    aliases: Aliases)
    requires ProtectJoins(joins, current, selected, session, values).Ok?
    requires forall j: BoundJoin | j in ProtectJoins(joins, current, selected, session, values).value.0 ::
               Covered(j.on, aliases)
    ensures forall j: BoundJoin | j in joins :: Covered(j.on, aliases)
  {
    if joins != [] {
      var join := joins[0];
      var (rows, values') := Instantiate(selected[join.resource].rowFilter, session, values).value;
      var next := if join.kind == Inner then Binary(And, current, rows) else current;
      var (rest, _, _) := ProtectJoins(joins[1..], next, selected, session, values').value;
      var first := if join.kind == Inner then join else join.(on := Binary(And, join.on, rows));
      assert ProtectJoins(joins, current, selected, session, values).value.0 == [first] + rest;
      assert forall j: BoundJoin | j in rest :: j in [first] + rest;
      ProtectedJoinsCovered(joins[1..], next, selected, session, values', aliases);
      assert first in [first] + rest;
      assert joins == [joins[0]] + joins[1..];
    }
  }

  lemma PlanCovered(
      bundle: PolicyBundle, s: BoundSelect, session: TrustedSession, plan: ProtectedPlan<BoundSelect>, aliases: Aliases)
    requires CompileSelect(bundle, s, session) == Ok(plan) && OutsideCovered(plan.statement, aliases)
    ensures OutsideCovered(s, aliases)
  {
    var p := PiecesOf(bundle, s, session);
    CompiledPieces(bundle, s, session, plan);
    PermittedCovered(s.projections, p.selected, session, map[], aliases);
    ProtectedJoinsCovered(s.joins, AndOptional(p.filter, p.rows), p.selected, session, p.values2, aliases);
  }

  // ----- The weaker hypothesis -----

  /** The binder's shapes, with EXISTS only over resources that have no alias. */
  predicate UnaliasedShape(e: BoundExpr, aliases: Aliases)
    decreases e
  {
    match e
    case Binary(_, left, right) => UnaliasedShape(left, aliases) && UnaliasedShape(right, aliases)
    case ConditionalOutput(value, visibleIf) => UnaliasedShape(value, aliases) && UnaliasedShape(visibleIf, aliases)
    case Unary(_, inner) => UnaliasedShape(inner, aliases)
    case In(expression, values, _) =>
      UnaliasedShape(expression, aliases) && forall x | x in values :: UnaliasedShape(x, aliases)
    case Scalar(_, arguments, _) => forall x | x in arguments :: UnaliasedShape(x, aliases)
    case Case(branches, otherwise, _) =>
      && (forall b: Branch | b in branches :: UnaliasedShape(b.condition, aliases) && UnaliasedShape(b.value, aliases))
      && (otherwise.Some? ==> UnaliasedShape(otherwise.value, aliases))
    case Exists(select) => select.resource !in aliases
    case RowNumber(_, _, orderBy) => forall o: BoundOrder | o in orderBy :: o.expression.Column?
    case _ => true
  }

  lemma {:induction false} CoveredHasNoExists(e: BoundExpr, aliases: Aliases)
    requires UnaliasedShape(e, aliases) && Covered(e, aliases)
    ensures Shape(e, false)
    decreases e
  {
    match e
    case Binary(_, left, right) =>
      CoveredHasNoExists(left, aliases);
      CoveredHasNoExists(right, aliases);
    case ConditionalOutput(value, visibleIf) =>
      CoveredHasNoExists(value, aliases);
      CoveredHasNoExists(visibleIf, aliases);
    case Unary(_, inner) => CoveredHasNoExists(inner, aliases);
    case In(expression, values, _) =>
      CoveredHasNoExists(expression, aliases);
      forall x | x in values ensures Shape(x, false) { CoveredHasNoExists(x, aliases); }
    case Scalar(_, arguments, _) =>
      forall x | x in arguments ensures Shape(x, false) { CoveredHasNoExists(x, aliases); }
    case Case(branches, otherwise, _) =>
      forall b: Branch | b in branches ensures Shape(b.condition, false) && Shape(b.value, false) {
        CoveredHasNoExists(b.condition, aliases);
        CoveredHasNoExists(b.value, aliases);
      }
      if otherwise.Some? {
        CoveredHasNoExists(otherwise.value, aliases);
      }
    case _ =>
  }

  /** What the binder guarantees of a select; outside WHERE it may hold EXISTS over resources without an alias. */
  predicate LooselyBound(s: BoundSelect, aliases: Aliases) {
    && (forall i | 0 <= i < |s.joins| :: s.joins[i].resource != s.resource)
    && (forall i, j | 0 <= i < j < |s.joins| :: s.joins[i].resource != s.joins[j].resource)
    && (s.filter.Some? ==> Shape(s.filter.value, true))
    && (forall j: BoundJoin | j in s.joins :: UnaliasedShape(j.on, aliases))
    && (forall p: BoundProjection | p in s.projections :: UnaliasedShape(p.expression, aliases))
    && (forall o: BoundOrder | o in s.orderBy :: UnaliasedShape(o.expression, aliases))
    && (s.having.Some? ==> UnaliasedShape(s.having.value, aliases))
  }

  lemma LooseIsWell(s: BoundSelect, aliases: Aliases)
    requires LooselyBound(s, aliases) && OutsideCovered(s, aliases)
    ensures WellBound(s)
  {
    forall j: BoundJoin | j in s.joins ensures Shape(j.on, false) { CoveredHasNoExists(j.on, aliases); }
    forall p: BoundProjection | p in s.projections ensures Shape(p.expression, false) {
      CoveredHasNoExists(p.expression, aliases);
    }
    forall o: BoundOrder | o in s.orderBy ensures Shape(o.expression, false) {
      CoveredHasNoExists(o.expression, aliases);
    }
    if s.having.Some? {
      CoveredHasNoExists(s.having.value, aliases);
    }
  }

  /** A compiled select is emitted only if EXISTS over a resource without an alias stays inside WHERE. */
  lemma EmittedIsWellBound(
    bundle: PolicyBundle, s: BoundSelect, session: TrustedSession, plan: ProtectedPlan<BoundSelect>, em: Emitter,
    st: EmitState)
    requires CompileSelect(bundle, s, session) == Ok(plan) && EmitSelect(em, plan.statement, st).Ok?
    requires LooselyBound(s, em.aliases)
    ensures WellBound(s)
  {
    SelectCovered(em, plan.statement, st);
    PlanCovered(bundle, s, session, plan, em.aliases);
    LooseIsWell(s, em.aliases);
  }

  /** End to end, excluding only EXISTS outside WHERE over a resource that has an alias. */
  lemma AliasedNoninterference(
    v: RoleView, bundle: PolicyBundle, s: BoundSelect, plan: ProtectedPlan<BoundSelect>, em: Emitter,
    q: Sql.Select, out: EmitState, params: Bindings, db1: Database, db2: Database, sc1: SqlCtx, sc2: SqlCtx)
    requires v == ViewOf(bundle, v.engine, v.session) && v.Valid() && ProjectionsInScope(s)
    requires CompileSelect(bundle, s, v.session) == Ok(plan)
    requires em.aliases == AliasesFor(plan.statement) && LooselyBound(s, em.aliases)
    requires EmitSelect(em, plan.statement, Start(plan.serverValues)) == Ok((q, out))
    requires Within(out.serverParameters, params)
    requires Stores(v, em, params, db1, sc1) && Stores(v, em, params, db2, sc2)
    requires Complete(v, db1) && Complete(v, db2) && v.DatabaseOf(db1) == v.DatabaseOf(db2)
    ensures SqlAnswer(sc1, q) == SqlAnswer(sc2, q)
  {
    EmittedIsWellBound(bundle, s, v.session, plan, em, Start(plan.serverValues));
    EmittedNoninterference(v, bundle, s, plan, em, q, out, params, db1, db2, sc1, sc2);
  }
}
