/**
  * The compilers as the source runs them: one mutable map of server values, loops over operands,
  * projections and joins, and nested selects rewritten where they stand. Every method computes
  * what the function of the same rewrite in `Policy` and `Compile` says.
  */
module Compiler {
  import opened Core
  import opened Ir
  import opened Policy
  import opened Compile

  /** The rewrite succeeded with this expression and these server values, or failed with this error. */
  predicate Outcome<T(==)>(r: Result<T, PolicyError>, values: Bindings, expected: Result<(T, Bindings), PolicyError>) {
    match expected
    case Ok((x, out)) => r == Ok(x) && values == out
    case Err(e) => r == Err(e)
  }

  function ThenRest<T>(
      done: seq<T>, rest: Result<(seq<T>, Bindings), PolicyError>): Result<(seq<T>, Bindings), PolicyError> {
    match rest
    case Ok((xs, values)) => Ok((done + xs, values))
    case Err(e) => Err(e)
  }

  lemma ThenRestStep<T>(done: seq<T>, x: T, rest: Result<(seq<T>, Bindings), PolicyError>)
    ensures ThenRest(done, ThenRest([x], rest)) == ThenRest(done + [x], rest)
  {
    if rest.Ok? {
      assert done + ([x] + rest.value.0) == (done + [x]) + rest.value.0;
    }
  }

  lemma ThenRestNothing<T>(rest: Result<(seq<T>, Bindings), PolicyError>)
    ensures ThenRest([], rest) == rest
  {
    if rest.Ok? {
      assert [] + rest.value.0 == rest.value.0;
    }
  }

  class PolicyCompiler {
    const bundle: PolicyBundle
    const session: TrustedSession
    var serverValues: Bindings

    constructor (bundle: PolicyBundle, session: TrustedSession)
      ensures this.bundle == bundle && this.session == session && serverValues == map[]
    {
      this.bundle := bundle;
      this.session := session;
      serverValues := map[];
    }

    method InstantiateOperand(operand: PolicyOperand, expected: LogicalType) returns (r: Result<BoundExpr, PolicyError>)
      modifies this
      ensures Outcome(r, serverValues, Policy.InstantiateOperand(operand, expected, session, old(serverValues)))
    {
      match operand
      case Session(key) =>
        if expected != StringType {
          return Err(IncompatibleOperand);
        }
        if key !in session.values {
          return Err(MissingSessionValue);
        }
        if !CanonicalKey("session_" + key) {
          return Err(InvalidSessionKey);
        }
        var name := SESSION_PREFIX + key;
        serverValues := serverValues[name := String(session.values[key])];
        r := Ok(ServerParameter(name, StringType));
      case Fixed(value) => r := Ok(Literal(value));
      case Sibling(column) => r := Ok(Column(column));
    }

    method InstantiatePredicate(p: PolicyPredicate) returns (r: Result<BoundExpr, PolicyError>)
      modifies this
      ensures Outcome(r, serverValues, Instantiate(p, session, old(serverValues)))
      decreases p
    {
      match p
      case Comparison(column, operator, operand) =>
        var right := InstantiateOperand(operand, column.logicalType);
        if right.Err? {
          return right;
        }
        r := Ok(Binary(OperatorOf(operator), Column(column), right.value));
      case Membership(column, values, negated) => r := Ok(In(Column(column), Literals(values), negated));
      case NullTest(column, isNull) =>
        var test := Unary(IsNull, Column(column));
        r := Ok(if isNull then test else Unary(Not, test));
      case All(parts) => r := FoldLogical(parts, And);
      case Any(parts) => r := FoldLogical(parts, Or);
      case Negation(part) =>
        var inner := InstantiatePredicate(part);
        if inner.Err? {
          return inner;
        }
        r := Ok(Unary(Not, inner.value));
    }

    /** The operands are combined to the left, one by one. */
    method FoldLogical(parts: seq<PolicyPredicate>, op: BinaryOp) returns (r: Result<BoundExpr, PolicyError>)
      modifies this
      ensures Outcome(r, serverValues, Policy.FoldLogical(parts, session, old(serverValues), op))
      decreases parts
    {
      if parts == [] {
        return Err(InvalidPredicate);
      }
      r := InstantiatePredicate(parts[0]);
      if r.Err? {
        return;
      }
      for i := 1 to |parts|
        invariant r.Ok?
        invariant Policy.FoldLogical(parts, session, old(serverValues), op)
               == FoldRest(r.value, parts[i..], session, serverValues, op)
      {
        assert parts[i..][1..] == parts[i + 1..];
        var next := InstantiatePredicate(parts[i]);
        if next.Err? {
          return next;
        }
        r := Ok(Binary(op, r.value, next.value));
      }
    }

    method PermitOne(projection: BoundProjection, selected: Selected) returns (r: Result<BoundProjection, PolicyError>)
      modifies this
      ensures Outcome(r, serverValues, PermitProjection(projection, selected, session, old(serverValues)))
    {
      match projection.expression
      case Column(column) =>
        if column.id.resource !in selected {
          return Err(MissingPolicy);
        }
        var policy := selected[column.id.resource];
        if column.id in policy.regular {
          return Ok(projection);
        }
        if column.id !in policy.conditional {
          return Err(ForbiddenColumn);
        }
        var visibleIf := InstantiatePredicate(policy.conditional[column.id]);
        if visibleIf.Err? {
          return Err(visibleIf.error);
        }
        r := Ok(projection.(expression := ConditionalOutput(projection.expression, visibleIf.value)));
      case _ =>
        r := if FreeProjection(projection.expression) then Ok(projection) else Err(ForbiddenColumnContext);
    }

    method ApplyProjectionPermissions(projections: seq<BoundProjection>, selected: Selected)
      returns (r: Result<seq<BoundProjection>, PolicyError>)
      modifies this
      ensures Outcome(r, serverValues, PermitProjections(projections, selected, session, old(serverValues)))
    {
      var output := [];
      ghost var spec := PermitProjections(projections, selected, session, serverValues);
      assert projections[0..] == projections;
      ThenRestNothing(spec);
      for i := 0 to |projections|
        invariant spec == ThenRest(output, PermitProjections(projections[i..], selected, session, serverValues))
      {
        var rest := projections[i..];
        ghost var before := serverValues;
        assert rest[0] == projections[i] && rest[1..] == projections[i + 1..];
        var permitted := PermitOne(projections[i], selected);
        if permitted.Err? {
          return Err(permitted.error);
        }
        ghost var others := PermitProjections(rest[1..], selected, session, serverValues);
        assert PermitProjections(rest, selected, session, before) == ThenRest([permitted.value], others);
        ThenRestStep(output, permitted.value, others);
        output := output + [permitted.value];
      }
      assert output + [] == output;
      r := Ok(output);
    }

    /** Rewrites every EXISTS below an expression; the source does this on the tree itself. */
    method ProtectNestedSelects(e: BoundExpr, selected: Selected) returns (r: Result<BoundExpr, PolicyError>)
      modifies this
      ensures Outcome(r, serverValues, Protect(e, selected, session, old(serverValues)))
      decreases e, 0
    {
      match e
      case Exists(select) =>
        assert e decreases to select;
        var filter := ProtectOptional(select.filter, selected);
        if filter.Err? {
          return Err(filter.error);
        }
        if select.resource !in selected {
          return Err(MissingPolicy);
        }
        var policy := selected[select.resource];
        var rows := InstantiatePredicate(policy.rowFilter);
        if rows.Err? {
          return rows;
        }
        var filtered := select.(filter := Some(AndOptional(filter.value, rows.value)));
        r := Ok(Exists(filtered.(limit := LimitWith(filtered.limit, policy.limit))));
      case Binary(op, left, right) =>
        var left' := ProtectNestedSelects(left, selected);
        if left'.Err? {
          return left';
        }
        var right' := ProtectNestedSelects(right, selected);
        if right'.Err? {
          return right';
        }
        r := Ok(Binary(op, left'.value, right'.value));
      case ConditionalOutput(value, visibleIf) =>
        var value' := ProtectNestedSelects(value, selected);
        if value'.Err? {
          return value';
        }
        var visibleIf' := ProtectNestedSelects(visibleIf, selected);
        if visibleIf'.Err? {
          return visibleIf';
        }
        r := Ok(ConditionalOutput(value'.value, visibleIf'.value));
      case Unary(op, inner) =>
        var inner' := ProtectNestedSelects(inner, selected);
        if inner'.Err? {
          return inner';
        }
        r := Ok(Unary(op, inner'.value));
      case Scalar(routine, arguments, logicalType) =>
        var arguments' := ProtectEach(arguments, selected);
        if arguments'.Err? {
          return Err(arguments'.error);
        }
        r := Ok(Scalar(routine, arguments'.value, logicalType));
      case In(expression, members, negated) =>
        var expression' := ProtectNestedSelects(expression, selected);
        if expression'.Err? {
          return expression';
        }
        var members' := ProtectEach(members, selected);
        if members'.Err? {
          return Err(members'.error);
        }
        r := Ok(In(expression'.value, members'.value, negated));
      case Case(branches, otherwise, logicalType) =>
        var branches' := ProtectEachBranch(branches, selected);
        if branches'.Err? {
          return Err(branches'.error);
        }
        var otherwise' := ProtectOptional(otherwise, selected);
        if otherwise'.Err? {
          return Err(otherwise'.error);
        }
        r := Ok(Case(branches'.value, otherwise'.value, logicalType));
      case _ => r := Ok(e);
    }

    method ProtectOptional(e: Option<BoundExpr>, selected: Selected) returns (r: Result<Option<BoundExpr>, PolicyError>)
      modifies this
      ensures Outcome(r, serverValues, ProtectOption(e, selected, session, old(serverValues)))
      decreases e, 0
    {
      if e.None? {
        return Ok(None);
      }
      var inner := ProtectNestedSelects(e.value, selected);
      if inner.Err? {
        return Err(inner.error);
      }
      r := Ok(Some(inner.value));
    }

    method ProtectEach(es: seq<BoundExpr>, selected: Selected) returns (r: Result<seq<BoundExpr>, PolicyError>)
      modifies this
      ensures Outcome(r, serverValues, ProtectAll(es, selected, session, old(serverValues)))
      decreases es, 0
    {
      var output := [];
      ghost var spec := ProtectAll(es, selected, session, serverValues);
      assert es[0..] == es;
      ThenRestNothing(spec);
      for i := 0 to |es|
        invariant spec == ThenRest(output, ProtectAll(es[i..], selected, session, serverValues))
      {
        var rest := es[i..];
        ghost var before := serverValues;
        assert rest[0] == es[i] && rest[1..] == es[i + 1..];
        var next := ProtectNestedSelects(es[i], selected);
        if next.Err? {
          return Err(next.error);
        }
        ghost var others := ProtectAll(rest[1..], selected, session, serverValues);
        assert ProtectAll(rest, selected, session, before) == ThenRest([next.value], others);
        ThenRestStep(output, next.value, others);
        output := output + [next.value];
      }
      assert output + [] == output;
      r := Ok(output);
    }

    method ProtectEachBranch(branches: seq<Branch>, selected: Selected) returns (r: Result<seq<Branch>, PolicyError>)
      modifies this
      ensures Outcome(r, serverValues, ProtectBranches(branches, selected, session, old(serverValues)))
      decreases branches, 0
    {
      var output := [];
      ghost var spec := ProtectBranches(branches, selected, session, serverValues);
      assert branches[0..] == branches;
      ThenRestNothing(spec);
      for i := 0 to |branches|
        invariant spec == ThenRest(output, ProtectBranches(branches[i..], selected, session, serverValues))
      {
        var rest := branches[i..];
        ghost var before := serverValues;
        assert rest[0] == branches[i] && rest[1..] == branches[i + 1..];
        assert branches decreases to branches[i];
        var condition := ProtectNestedSelects(branches[i].condition, selected);
        if condition.Err? {
          return Err(condition.error);
        }
        var value := ProtectNestedSelects(branches[i].value, selected);
        if value.Err? {
          return Err(value.error);
        }
        var branch := Branch(condition.value, value.value);
        ghost var others := ProtectBranches(rest[1..], selected, session, serverValues);
        assert ProtectBranches(rest, selected, session, before) == ThenRest([branch], others);
        ThenRestStep(output, branch, others);
        output := output + [branch];
      }
      assert output + [] == output;
      r := Ok(output);
    }

    /** Adds each joined resource's row filter to WHERE or to its LEFT JOIN condition. */
    method ProtectEachJoin(joins: seq<BoundJoin>, current: BoundExpr, selected: Selected)
      returns (r: Result<(seq<BoundJoin>, BoundExpr), PolicyError>)
      modifies this
      ensures match ProtectJoins(joins, current, selected, session, old(serverValues))
              case Ok((joins', current', values)) => r == Ok((joins', current')) && serverValues == values
              case Err(e) => r == Err(e)
    {
      var output, filter := [], current;
      ghost var spec := ProtectJoins(joins, current, selected, session, serverValues);
      assert joins[0..] == joins;
      JoinsNothing(spec);
      for i := 0 to |joins|
        invariant spec == ThenJoins(output, ProtectJoins(joins[i..], filter, selected, session, serverValues))
      {
        var rest := joins[i..];
        ghost var before, filterBefore := serverValues, filter;
        assert rest[0] == joins[i] && rest[1..] == joins[i + 1..];
        var join := joins[i];
        if join.resource !in selected {
          return Err(MissingPolicy);
        }
        var rows := InstantiatePredicate(selected[join.resource].rowFilter);
        if rows.Err? {
          return Err(rows.error);
        }
        match join.kind {
          case Inner => filter := Binary(And, filter, rows.value);
          case Left => join := join.(on := Binary(And, join.on, rows.value));
        }
        ghost var others := ProtectJoins(rest[1..], filter, selected, session, serverValues);
        assert ProtectJoins(rest, filterBefore, selected, session, before) == ThenJoins([join], others);
        JoinsStep(output, join, others);
        output := output + [join];
      }
      assert output + [] == output;
      r := Ok((output, filter));
    }

    /** The SELECT compiler. */
    method CompileSelect(s: BoundSelect) returns (r: Result<ProtectedPlan<BoundSelect>, PolicyError>)
      requires serverValues == map[]
      modifies this
      ensures r == Compile.CompileSelect(bundle, s, session)
    {
      var resources := QueryResources(s);
      var selected :- SelectPolicies(bundle, resources, session.role);
      var projections :- ApplyProjectionPermissions(s.projections, selected);
      var _ :- CheckSelect(s, projections, selected);
      var filter :- ProtectOptional(s.filter, selected);
      if s.resource !in selected {
        return Err(MissingPolicy);
      }
      var rows :- InstantiatePredicate(selected[s.resource].rowFilter);
      var joined :- ProtectEachJoin(s.joins, AndOptional(filter, rows), selected);
      var policyLimit := MinLimit(selected, resources);
      r := Ok(ProtectedPlan(
                s.(projections := projections, filter := Some(joined.1), joins := joined.0,
                   limit := LimitWith(s.limit, policyLimit)),
                serverValues, policyLimit, None, None));
    }

    method PushPresets(presets: seq<Preset>) returns (r: Result<seq<BoundAssignment>, PolicyError>)
      modifies this
      ensures Outcome(r, serverValues, PresetAssignments(presets, session, old(serverValues)))
    {
      var output := [];
      ghost var spec := PresetAssignments(presets, session, serverValues);
      assert presets[0..] == presets;
      ThenRestNothing(spec);
      for i := 0 to |presets|
        invariant spec == ThenRest(output, PresetAssignments(presets[i..], session, serverValues))
      {
        var rest := presets[i..];
        ghost var before := serverValues;
        assert rest[0] == presets[i] && rest[1..] == presets[i + 1..];
        var value := InstantiateOperand(presets[i].operand, presets[i].logicalType);
        if value.Err? {
          return Err(value.error);
        }
        var assignment := BoundAssignment(BoundColumn(presets[i].column, presets[i].logicalType), value.value);
        ghost var others := PresetAssignments(rest[1..], session, serverValues);
        assert PresetAssignments(rest, session, before) == ThenRest([assignment], others);
        ThenRestStep(output, assignment, others);
        output := output + [assignment];
      }
      assert output + [] == output;
      r := Ok(output);
    }

    /** The INSERT compiler: every VALUES row gets the presets in turn. */
    method CompileInsert(insert: BoundInsert) returns (r: Result<ProtectedPlan<BoundInsert>, PolicyError>)
      requires serverValues == map[]
      modifies this
      ensures r == Compile.CompileInsert(bundle, insert, session)
    {
      var policy :- RolePolicy(bundle.insert, insert.resource, session.role);
      var _ :- ValidateReturning(insert.returning, policy.returning);
      var output := [];
      ghost var spec := ProtectRows(insert.rows, policy, session, serverValues);
      assert insert.rows[0..] == insert.rows;
      ThenRestNothing(spec);
      for i := 0 to |insert.rows|
        invariant spec == ThenRest(output, ProtectRows(insert.rows[i..], policy, session, serverValues))
      {
        var rest := insert.rows[i..];
        ghost var before := serverValues;
        assert rest[0] == insert.rows[i] && rest[1..] == insert.rows[i + 1..];
        if !CallerColumnsAllowed(insert.rows[i], policy.columns, policy.presets) {
          return Err(ForbiddenColumn);
        }
        var presets := PushPresets(policy.presets);
        if presets.Err? {
          return Err(presets.error);
        }
        var row := insert.rows[i] + presets.value;
        ghost var others := ProtectRows(rest[1..], policy, session, serverValues);
        assert ProtectRows(rest, policy, session, before) == ThenRest([row], others);
        ThenRestStep(output, row, others);
        output := output + [row];
      }
      assert output + [] == output;
      var check :- InstantiatePredicate(policy.check);
      r := Ok(ProtectedPlan(insert.(rows := output), serverValues, None, Some(check), Some(|output|)));
    }

    /** The UPDATE compiler. */
    method CompileUpdate(update: BoundUpdate) returns (r: Result<ProtectedPlan<BoundUpdate>, PolicyError>)
      requires serverValues == map[]
      modifies this
      ensures r == Compile.CompileUpdate(bundle, update, session)
    {
      var policy :- RolePolicy(bundle.update, update.resource, session.role);
      var _ :- ValidateReturning(update.returning, policy.returning);
      if !CallerColumnsAllowed(update.assignments, policy.columns, policy.presets) {
        return Err(ForbiddenColumn);
      }
      var presets :- PushPresets(policy.presets);
      var rows :- InstantiatePredicate(policy.rowFilter);
      var check :- InstantiatePredicate(policy.check);
      r := Ok(ProtectedPlan(
                update.(assignments := update.assignments + presets, filter := Some(AndOptional(update.filter, rows))),
                serverValues, None, Some(check), None));
    }

    /** The DELETE compiler. */
    method CompileDelete(delete: BoundDelete) returns (r: Result<ProtectedPlan<BoundDelete>, PolicyError>)
      requires serverValues == map[]
      modifies this
      ensures r == Compile.CompileDelete(bundle, delete, session)
    {
      var policy :- RolePolicy(bundle.delete, delete.resource, session.role);
      var _ :- ValidateReturning(delete.returning, policy.returning);
      var rows :- InstantiatePredicate(policy.rowFilter);
      r := Ok(ProtectedPlan(delete.(filter := Some(AndOptional(delete.filter, rows))), serverValues, None, None, None));
    }
  }

  type JoinsRewritten = Result<(seq<BoundJoin>, BoundExpr, Bindings), PolicyError>

  function ThenJoins(done: seq<BoundJoin>, rest: JoinsRewritten): JoinsRewritten {
    match rest
    case Ok((joins, filter, values)) => Ok((done + joins, filter, values))
    case Err(e) => Err(e)
  }

  lemma JoinsStep(done: seq<BoundJoin>, join: BoundJoin, rest: JoinsRewritten)
    ensures ThenJoins(done, ThenJoins([join], rest)) == ThenJoins(done + [join], rest)
  {
    if rest.Ok? {
      assert done + ([join] + rest.value.0) == (done + [join]) + rest.value.0;
    }
  }

  lemma JoinsNothing(rest: JoinsRewritten)
    ensures ThenJoins([], rest) == rest
  {
    if rest.Ok? {
      assert [] + rest.value.0 == rest.value.0;
    }
  }
}
