/** Instantiated policy predicates mean what the policy predicate means. */
module Instantiation {
  import opened Core
  import opened Ir
  import opened Semantics
  import opened Policy
  import opened View

  /** Every server value is a session value under its own name. */
  ghost predicate SessionOnly(values: Bindings, session: TrustedSession) {
    forall name {:trigger name in values} :: name in values ==>
      && SESSION_PREFIX <= name
      && name[|SESSION_PREFIX|..] in session.values
      && values[name] == String(session.values[name[|SESSION_PREFIX|..]])
  }

  lemma OperandKeeps(operand: PolicyOperand, expected: LogicalType, session: TrustedSession, values: Bindings)
    requires SessionOnly(values, session)
    requires InstantiateOperand(operand, expected, session, values).Ok?
    ensures var out := InstantiateOperand(operand, expected, session, values).value.1;
            SessionOnly(out, session) && Within(values, out)
  {
    if operand.Session? {
      var name := SESSION_PREFIX + operand.key;
      assert name[|SESSION_PREFIX|..] == operand.key;
    }
  }

  /** Values accumulate: a call keeps every earlier binding and adds only session values. */
  lemma {:induction false} InstantiateKeeps(p: PolicyPredicate, session: TrustedSession, values: Bindings)
    requires SessionOnly(values, session) && Instantiate(p, session, values).Ok?
    ensures var out := Instantiate(p, session, values).value.1;
            SessionOnly(out, session) && Within(values, out)
    decreases p
  {
    match p
    case Comparison(column, _, operand) => OperandKeeps(operand, column.logicalType, session, values);
    case All(parts) => FoldKeeps(parts, session, values, And);
    case Any(parts) => FoldKeeps(parts, session, values, Or);
    case Negation(part) => InstantiateKeeps(part, session, values);
    case _ =>
  }

  lemma {:induction false} FoldKeeps(
    parts: seq<PolicyPredicate>, session: TrustedSession, values: Bindings, op: BinaryOp)
    requires SessionOnly(values, session) && FoldLogical(parts, session, values, op).Ok?
    ensures var out := FoldLogical(parts, session, values, op).value.1;
            SessionOnly(out, session) && Within(values, out)
    decreases parts, 1
  {
    InstantiateKeeps(parts[0], session, values);
    var (first, values') := Instantiate(parts[0], session, values).value;
    FoldRestKeeps(first, parts[1..], session, values', op);
  }

  lemma {:induction false} FoldRestKeeps(
    output: BoundExpr, rest: seq<PolicyPredicate>, session: TrustedSession, values: Bindings, op: BinaryOp)
    requires SessionOnly(values, session) && FoldRest(output, rest, session, values, op).Ok?
    ensures var out := FoldRest(output, rest, session, values, op).value.1;
            SessionOnly(out, session) && Within(values, out)
    decreases rest, 0
  {
    if rest != [] {
      InstantiateKeeps(rest[0], session, values);
      var (next, values') := Instantiate(rest[0], session, values).value;
      FoldRestKeeps(Binary(op, output, next), rest[1..], session, values', op);
    }
  }

  /** `Eval` of an instantiated operand is the operand's value at the resource's row. */
  lemma OperandMeaning(
    operand: PolicyOperand, expected: LogicalType, r: ResourceId,
    session: TrustedSession, values: Bindings, c: Ctx, env: Env)
    requires InstantiateOperand(operand, expected, session, values).Ok?
    requires Within(InstantiateOperand(operand, expected, session, values).value.1, c.params)
    requires operand.Sibling? ==> operand.column.id.resource == r
    ensures Eval(c, InstantiateOperand(operand, expected, session, values).value.0, env)
         == OperandValue(c.engine, operand, RowOf(env, r), session)
  {
  }

  lemma {:induction false} EvalLiterals(c: Ctx, values: seq<LogicalValue>, env: Env)
    ensures EvalAll(c, Literals(values), env) == WrittenAll(c.engine, values)
  {
    if values != [] {
      assert Literals(values)[1..] == Literals(values[1..]);
      EvalLiterals(c, values[1..], env);
    }
  }

  /** The central fact: an instantiated predicate has the policy's own truth value at the row. */
  lemma {:induction false} InstantiateMeaning(
    p: PolicyPredicate, r: ResourceId, session: TrustedSession, values: Bindings, c: Ctx, env: Env)
    requires Owned(p, r) && SessionOnly(values, session)
    requires Instantiate(p, session, values).Ok?
    requires Within(Instantiate(p, session, values).value.1, c.params)
    ensures TruthOf(c.engine, Eval(c, Instantiate(p, session, values).value.0, env))
         == PredicateTruth(c.engine, p, RowOf(env, r), session)
    decreases p
  {
    match p
    case Comparison(column, operator, operand) =>
      OperandMeaning(operand, column.logicalType, r, session, values, c, env);
    case Membership(column, members, negated) =>
      EvalLiterals(c, members, env);
    case NullTest(column, _) =>
      assert Eval(c, Unary(IsNull, Column(column)), env) == Boolean(CellOf(RowOf(env, r), column).Null?);
    case All(parts) => FoldMeaning(parts, r, session, values, And, c, env);
    case Any(parts) => FoldMeaning(parts, r, session, values, Or, c, env);
    case Negation(part) => InstantiateMeaning(part, r, session, values, c, env);
  }

  /** Rust folds to the left, the meaning associates to the right. */
  function PartsTruth(
      engine: Engine, op: BinaryOp, parts: seq<PolicyPredicate>, row: Row, session: TrustedSession): Truth {
    if op == And then AllTruth(engine, parts, row, session) else AnyTruth(engine, parts, row, session)
  }

  function Join(op: BinaryOp, a: Truth, b: Truth): Truth {
    if op == And then a.And(b) else a.Or(b)
  }

  lemma {:induction false} FoldMeaning(
    parts: seq<PolicyPredicate>, r: ResourceId, session: TrustedSession, values: Bindings, op: BinaryOp, c: Ctx,
    env: Env)
    requires op == And || op == Or
    requires SessionOnly(values, session) && forall part | part in parts :: Owned(part, r)
    requires FoldLogical(parts, session, values, op).Ok?
    requires Within(FoldLogical(parts, session, values, op).value.1, c.params)
    ensures TruthOf(c.engine, Eval(c, FoldLogical(parts, session, values, op).value.0, env))
         == PartsTruth(c.engine, op, parts, RowOf(env, r), session)
    decreases parts, 1
  {
    InstantiateKeeps(parts[0], session, values);
    var (first, values') := Instantiate(parts[0], session, values).value;
    FoldRestKeeps(first, parts[1..], session, values', op);
    InstantiateMeaning(parts[0], r, session, values, c, env);
    FoldRestMeaning(first, parts[1..], r, session, values', op, c, env);
  }

  lemma {:induction false} FoldRestMeaning(
    output: BoundExpr, rest: seq<PolicyPredicate>, r: ResourceId,
    session: TrustedSession, values: Bindings, op: BinaryOp, c: Ctx, env: Env)
    requires op == And || op == Or
    requires SessionOnly(values, session) && forall part | part in rest :: Owned(part, r)
    requires FoldRest(output, rest, session, values, op).Ok?
    requires Within(FoldRest(output, rest, session, values, op).value.1, c.params)
    ensures TruthOf(c.engine, Eval(c, FoldRest(output, rest, session, values, op).value.0, env))
         == Join(op, TruthOf(c.engine, Eval(c, output, env)), PartsTruth(c.engine, op, rest, RowOf(env, r), session))
    decreases rest, 0
  {
    var truth := TruthOf(c.engine, Eval(c, output, env));
    if rest == [] {
      assert PartsTruth(c.engine, op, rest, RowOf(env, r), session) == BoolTruth(op == And);
    } else {
      InstantiateKeeps(rest[0], session, values);
      var (next, values') := Instantiate(rest[0], session, values).value;
      var output' := Binary(op, output, next);
      FoldRestKeeps(output', rest[1..], session, values', op);
      InstantiateMeaning(rest[0], r, session, values, c, env);
      FoldRestMeaning(output', rest[1..], r, session, values', op, c, env);
      JoinedTruth(c, op, output, next, env);
      JoinAssociative(op, truth, PredicateTruth(c.engine, rest[0], RowOf(env, r), session),
                      PartsTruth(c.engine, op, rest[1..], RowOf(env, r), session));
      PartsCons(c.engine, op, rest, RowOf(env, r), session);
    }
  }

  lemma JoinedTruth(c: Ctx, op: BinaryOp, x: BoundExpr, y: BoundExpr, env: Env)
    requires op == And || op == Or
    ensures TruthOf(c.engine, Eval(c, Binary(op, x, y), env)) ==
            Join(op, TruthOf(c.engine, Eval(c, x, env)), TruthOf(c.engine, Eval(c, y, env)))
  {
    assert Eval(c, Binary(op, x, y), env) == ApplyBinary(c.engine, op, Eval(c, x, env), Eval(c, y, env));
  }

  lemma JoinAssociative(op: BinaryOp, x: Truth, y: Truth, z: Truth)
    ensures Join(op, Join(op, x, y), z) == Join(op, x, Join(op, y, z))
  {
  }

  lemma PartsCons(engine: Engine, op: BinaryOp, parts: seq<PolicyPredicate>, row: Row, session: TrustedSession)
    requires parts != [] && (op == And || op == Or)
    ensures PartsTruth(engine, op, parts, row, session) ==
            Join(op, PredicateTruth(engine, parts[0], row, session), PartsTruth(engine, op, parts[1..], row, session))
  {
  }
}
