/** Emission preserves meaning: the emitted tree over named tables is the bound statement over rows. */
module EmitMeaning {
  import opened Core
  import opened Ir
  import opened Semantics
  import opened Alias
  import opened Emit
  import opened EmitInvariants
  import opened SqlSemantics
  import Sql

  // ----- Naming rows and environments -----

  predicate Known(em: Emitter, r: ResourceId) {
    r in em.catalog && r in em.aliases
  }

  /** A named row holds the cells of a row of resource `r` under the catalog's column names. */
  ghost predicate NamedRowOf(em: Emitter, r: ResourceId, row: Row, named: NamedRow)
    requires r in em.catalog
  {
    var columns := em.catalog[r].columns;
    forall o {:trigger columns[o]} | o in columns ::
      && (columns[o] in named <==> o in row)
      && (o in row ==> named[columns[o]] == row[o])
  }

  ghost predicate NamedRowsOf(em: Emitter, r: ResourceId, rows: seq<Row>, named: seq<NamedRow>)
    requires r in em.catalog
  {
    |rows| == |named| && forall i | 0 <= i < |rows| :: NamedRowOf(em, r, rows[i], named[i])
  }

  /** A named environment binds each known resource's alias to that resource's row. */
  ghost predicate NamedEnvOf(em: Emitter, env: Env, named: NamedEnv) {
    forall r {:trigger em.aliases[r]} | Known(em, r) ::
      && (em.aliases[r] in named <==> r in env)
      && (r in env ==> NamedRowOf(em, r, env[r], named[em.aliases[r]]))
  }

  ghost predicate NamedEnvsOf(em: Emitter, envs: seq<Env>, named: seq<NamedEnv>) {
    |envs| == |named| && forall i | 0 <= i < |envs| :: NamedEnvOf(em, envs[i], named[i])
  }

  /** The physical tables hold the database's rows under their column names. */
  ghost predicate Represents(em: Emitter, db: Database, sc: SqlCtx) {
    forall r {:trigger em.aliases[r]} | Known(em, r) ::
        NamedRowsOf(em, r, Rows(db, r), TableRows(sc, em.catalog[r].source))
  }

  /** The two readings share engine and parameters, and the tables represent the rows. */
  ghost predicate Agree(em: Emitter, c: Ctx, sc: SqlCtx) {
    sc.engine == c.engine && sc.params == c.params && Injective(em.aliases) && Represents(em, c.nested, sc) &&
    ReadsDoubles(em, sc)
  }

  // ----- Doubles -----

  function Magnitude(x: real): real {
    if x < 0.0 then -x else x
  }

  /** What the engine reads where the emitter printed a double: the numeral of its magnitude, negated if need be. */
  function ReadDouble(em: Emitter, sc: SqlCtx, x: real): LogicalValue {
    ReadNumeral(sc, em.numeral(Magnitude(x)), x < 0.0)
  }

  /** The engine's reading of written doubles is the reading of their numerals. */
  ghost predicate ReadsDoubles(em: Emitter, sc: SqlCtx) {
    forall x: real {:trigger em.numeral(Magnitude(x))} :: sc.engine.double(Finite(x)) == ReadDouble(em, sc, x)
  }

  // ----- Leaves -----

  lemma ParameterMeaning(name: string, st: EmitState, sc: SqlCtx, env: NamedEnv)
    requires EmitParameter(name, st).Ok?
    ensures SqlEval(sc, EmitParameter(name, st).value.0, env) == BoundValue(sc.params, name)
  {
    assert (":" + name)[1..] == name;
  }

  lemma NegatedMeaning(sc: SqlCtx, text: string, env: NamedEnv)
    ensures SqlEval(sc, Negated(Numeral(text)), env) == ReadNumeral(sc, text, true)
  {
    var x := Negated(Numeral(text));
    assert SqlEval(sc, x, env) == SqlPrefix(sc, x, env);
  }

  /** Every 64-bit integer is read back from its digits, the least one included. */
  lemma IntegerMeaning(em: Emitter, n: Integer64, st: EmitState, sc: SqlCtx, env: NamedEnv)
    ensures SqlEval(sc, EmitLiteral(em, Int64(n), st).value.0, env) == Int64(n)
  {
    var magnitude: int := if n < 0 then -(n as int) else n;
    DecimalRoundTrip(magnitude);
    NegatedMeaning(sc, Decimal(magnitude), env);
    TokenMeaning(sc, Sql.Numeric(Decimal(magnitude)), env);
  }

  lemma TokenMeaning(sc: SqlCtx, token: Sql.Token, env: NamedEnv)
    ensures SqlEval(sc, Sql.Literal(token), env)
         == match token
            case NullToken => Null
            case TrueToken => Boolean(true)
            case FalseToken => Boolean(false)
            case Numeric(text) => ReadNumeral(sc, text, false)
  {
  }

  lemma FreshMeaning(v: LogicalValue, st: EmitState, sc: SqlCtx, env: NamedEnv)
    requires Clean(st) && FreshLiteral(v, st).Ok?
    requires Within(FreshLiteral(v, st).value.1.serverParameters, sc.params)
    ensures SqlEval(sc, FreshLiteral(v, st).value.0, env) == v
  {
    FreshLiteralGrows(v, st);
    var name := LiteralName(st.nextLiteral);
    assert (":" + name)[1..] == name;
    assert FreshLiteral(v, st).value.1.serverParameters[name] == v;
  }

  /** A literal means what is read where it was written: inline, negated, or through its fresh parameter. */
  lemma LiteralMeaning(em: Emitter, v: LogicalValue, st: EmitState, sc: SqlCtx, env: NamedEnv)
    requires Clean(st) && EmitLiteral(em, v, st).Ok? && ReadsDoubles(em, sc)
    requires Within(EmitLiteral(em, v, st).value.1.serverParameters, sc.params)
    ensures SqlEval(sc, EmitLiteral(em, v, st).value.0, env) == Written(sc.engine, v)
  {
    match v
    case Int64(n) =>
      IntegerMeaning(em, n, st, sc, env);
    case Number(Finite(x)) =>
      TokenMeaning(sc, Sql.Numeric(em.numeral(Magnitude(x))), env);
      NegatedMeaning(sc, em.numeral(Magnitude(x)), env);
    case Number(NonFinite) => assert false;
    case Null => TokenMeaning(sc, Sql.NullToken, env);
    case Boolean(b) => TokenMeaning(sc, if b then Sql.TrueToken else Sql.FalseToken, env);
    case _ => FreshMeaning(v, st, sc, env);
  }

  lemma ColumnMeaning(em: Emitter, id: ColumnId, sc: SqlCtx, env: Env, named: NamedEnv)
    requires EmitColumn(em, id).Ok? && NamedEnvOf(em, env, named)
    ensures SqlEval(sc, EmitColumn(em, id).value, named) == Cell(env, id)
  {
    var r := id.resource;
    assert Known(em, r);
    var alias, name := em.aliases[r], em.catalog[r].columns[id.ordinal];
    assert SqlEval(sc, EmitColumn(em, id).value, named) == Lookup(named, alias, name);
  }

  lemma {:induction false} ColumnsMeaning(em: Emitter, columns: seq<BoundColumn>, sc: SqlCtx, env: Env, named: NamedEnv)
    requires EmitColumns(em, columns).Ok? && NamedEnvOf(em, env, named)
    ensures SqlEvalAll(sc, EmitColumns(em, columns).value, named) == Cells(env, columns)
  {
    if columns != [] {
      ColumnMeaning(em, columns[0].id, sc, env, named);
      ColumnsMeaning(em, columns[1..], sc, env, named);
      EvalAllCons(sc, EmitColumn(em, columns[0].id).value, EmitColumns(em, columns[1..]).value, named);
      CellsCons(env, columns);
    }
  }

  lemma EvalAllCons(sc: SqlCtx, x: Sql.Expr, xs: seq<Sql.Expr>, env: NamedEnv)
    ensures SqlEvalAll(sc, [x] + xs, env) == [SqlEval(sc, x, env)] + SqlEvalAll(sc, xs, env)
  {
    assert ([x] + xs)[1..] == xs;
  }

  lemma CellsCons(env: Env, columns: seq<BoundColumn>)
    requires columns != []
    ensures Cells(env, columns) == [Cell(env, columns[0].id)] + Cells(env, columns[1..])
  {
  }

  // ----- Operators -----

  lemma WrappedMeaning(sc: SqlCtx, x: Sql.Expr, env: NamedEnv)
    ensures SqlEval(sc, Wrapped(x), env) == SqlEval(sc, x, env)
  {
    assert SqlEval(sc, Wrapped(x), env) == SqlGroup(sc, Wrapped(x), env);
  }

  lemma PairMeaning(sc: SqlCtx, x: Sql.Expr, y: Sql.Expr, env: NamedEnv)
    ensures SqlEvalAll(sc, [x, y], env) == [SqlEval(sc, x, env), SqlEval(sc, y, env)]
  {
    assert [x, y][1..] == [y] && [y][1..] == [];
  }

  lemma InfixNode(sc: SqlCtx, x: Sql.Expr, op: Sql.Operator, y: Sql.Expr, env: NamedEnv)
    ensures SqlEval(sc, Wrapped(Sql.Binary(x, op, y)), env) == SqlInfix(sc, Sql.Binary(x, op, y), env)
  {
    WrappedMeaning(sc, Sql.Binary(x, op, y), env);
  }

  /** Any infix operator but IS applies its bound operator. */
  lemma OperatorMeaning(sc: SqlCtx, x: Sql.Expr, op: Sql.Operator, y: Sql.Expr, env: NamedEnv)
    requires op != Sql.IsOp
    ensures SqlEval(sc, Wrapped(Sql.Binary(x, op, y)), env)
         == ApplyBinary(sc.engine, BoundOperator(op), SqlEval(sc, x, env), SqlEval(sc, y, env))
  {
    InfixNode(sc, x, op, y, env);
  }

  lemma IsNullMeaning(sc: SqlCtx, x: Sql.Expr, env: NamedEnv)
    ensures SqlEval(sc, Wrapped(Sql.Binary(x, Sql.IsOp, Sql.Literal(Sql.NullToken))), env)
         == Boolean(SqlEval(sc, x, env).Null?)
  {
    InfixNode(sc, x, Sql.IsOp, Sql.Literal(Sql.NullToken), env);
    TokenMeaning(sc, Sql.NullToken, env);
  }

  lemma MatchMeaning(sc: SqlCtx, x: Sql.Expr, matcher: Sql.Matcher, y: Sql.Expr, env: NamedEnv)
    ensures SqlEval(sc, Wrapped(Sql.Match(x, matcher, y, None)), env)
         == ApplyBinary(sc.engine, if matcher == Sql.LikeOp then Like else Glob, SqlEval(sc, x, env),
             SqlEval(sc, y, env))
  {
    WrappedMeaning(sc, Sql.Match(x, matcher, y, None), env);
    assert SqlEval(sc, Sql.Match(x, matcher, y, None), env) == SqlMatch(sc, Sql.Match(x, matcher, y, None), env);
  }

  lemma InListMeaning(sc: SqlCtx, x: Sql.Expr, negated: bool, members: seq<Sql.Expr>, env: NamedEnv)
    ensures SqlEval(sc, Wrapped(Sql.InList(x, negated, members)), env)
         == InValue(sc.engine, SqlEval(sc, x, env), SqlEvalAll(sc, members, env), negated)
  {
    WrappedMeaning(sc, Sql.InList(x, negated, members), env);
    assert SqlEval(sc, Sql.InList(x, negated, members), env) == SqlIn(sc, Sql.InList(x, negated, members), env);
  }

  lemma PrefixMeaning(sc: SqlCtx, prefix: Sql.Prefix, x: Sql.Expr, env: NamedEnv)
    ensures SqlEval(sc, Sql.Unary(prefix, x), env)
         == if prefix == Sql.NotOp then ApplyUnary(sc.engine, Not, SqlEval(sc, x, env))
            else SqlPrefix(sc, Sql.Unary(prefix, x), env)
    ensures SqlEval(sc, Sql.Cast(x), env) == ApplyUnary(sc.engine, CastText, SqlEval(sc, x, env))
  {
    assert SqlEval(sc, Sql.Unary(prefix, x), env) == SqlPrefix(sc, Sql.Unary(prefix, x), env);
    assert SqlEval(sc, Sql.Cast(x), env) == SqlPrefix(sc, Sql.Cast(x), env);
  }

  lemma MinMeaning(sc: SqlCtx, x: Sql.Expr, y: Sql.Expr, env: NamedEnv)
    ensures SqlEval(sc, Sql.Call("MIN", [x, y]), env)
         == ApplyBinary(sc.engine, Least, SqlEval(sc, x, env), SqlEval(sc, y, env))
  {
    PairMeaning(sc, x, y, env);
    CallMeaning(sc, "MIN", [x, y], env);
  }

  lemma CallMeaning(sc: SqlCtx, name: string, xs: seq<Sql.Expr>, env: NamedEnv)
    ensures SqlEval(sc, Sql.Call(name, xs), env) == CallValue(sc.engine, name, SqlEvalAll(sc, xs, env))
  {
  }

  lemma PrintedBack(op: BinaryOp)
    requires InfixOperator(op).Some?
    ensures InfixOperator(op).value != Sql.IsOp && BoundOperator(InfixOperator(op).value) == op
  {
  }

  lemma BinaryMeaning(sc: SqlCtx, op: BinaryOp, x: Sql.Expr, y: Sql.Expr, env: NamedEnv)
    ensures SqlEval(sc, EmitBinary(op, x, y), env)
            == ApplyBinary(sc.engine, op, SqlEval(sc, x, env), SqlEval(sc, y, env))
  {
    if InfixOperator(op).Some? {
      PrintedBack(op);
      OperatorMeaning(sc, x, InfixOperator(op).value, y, env);
    } else if op == Least {
      MinMeaning(sc, x, y, env);
    } else {
      MatchMeaning(sc, x, if op == Like then Sql.LikeOp else Sql.GlobOp, y, env);
    }
  }

  lemma UnaryMeaning(sc: SqlCtx, op: UnaryOp, x: Sql.Expr, env: NamedEnv)
    ensures SqlEval(sc, EmitUnary(op, x), env) == ApplyUnary(sc.engine, op, SqlEval(sc, x, env))
  {
    match op
    case Not =>
      WrappedMeaning(sc, Sql.Unary(Sql.NotOp, x), env);
      PrefixMeaning(sc, Sql.NotOp, x, env);
    case IsNull => IsNullMeaning(sc, x, env);
    case CastText => PrefixMeaning(sc, Sql.NotOp, x, env);
  }

  /** CASE WHEN condition THEN value ELSE other END. */
  lemma CaseMeaning(sc: SqlCtx, condition: Sql.Expr, value: Sql.Expr, other: Sql.Expr, env: NamedEnv)
    ensures SqlEval(sc, Sql.Case(None, [Sql.When(condition, value)], Some(other)), env)
         == if TruthOf(sc.engine, SqlEval(sc, condition, env)) == True then SqlEval(sc, value, env)
            else SqlEval(sc, other, env)
  {
    var pairs := [Sql.When(condition, value)];
    assert pairs[1..] == [];
    assert SqlEvalPairs(sc, pairs, env)
        == if TruthOf(sc.engine, SqlEval(sc, condition, env)) == True then Some(SqlEval(sc, value, env)) else None;
  }

  // ----- Expressions -----

  /** Every emitted expression has the bound expression's value, in every environment. */
  lemma {:induction false} ExprMeaning(
      em: Emitter, e: BoundExpr, st: EmitState, c: Ctx, sc: SqlCtx, env: Env, named: NamedEnv)
    requires Agree(em, c, sc) && Good(st) && NamedEnvOf(em, env, named)
    requires EmitExpr(em, e, st).Ok?
    requires Within(EmitExpr(em, e, st).value.1.serverParameters, c.params)
    ensures SqlEval(sc, EmitExpr(em, e, st).value.0, named) == Eval(c, e, env)
    decreases e, 1
  {
    match e
    case Column(column) => ColumnMeaning(em, column.id, sc, env, named);
    case ClientParameter(name, _) => ParameterMeaning(name, st, sc, named);
    case ServerParameter(name, _) => ParameterMeaning(name, st, sc, named);
    case Literal(v) => LiteralMeaning(em, v, st, sc, named);
    case Binary(op, l, r) => BinaryExprMeaning(em, op, l, r, st, c, sc, env, named);
    case Unary(_, _) => UnaryExprMeaning(em, e, st, c, sc, env, named);
    case In(x, values, negated) => InMeaning(em, x, values, negated, st, c, sc, env, named);
    case Case(branches, otherwise, logicalType) =>
      CaseExprMeaning(em, branches, otherwise, logicalType, st, c, sc, env, named);
    case ConditionalOutput(value, visibleIf) => ConditionalMeaning(em, value, visibleIf, st, c, sc, env, named);
    case Exists(s) => ExistsMeaning(em, s, st, c, sc, env, named);
    case CountAll(_) =>
    case Scalar(_, _, _) => ScalarMeaning(em, e, st, c, sc, env, named);
    case RowNumber(_, _, _) => RowNumberMeaning(em, e, st, c, sc, env, named);
  }

  lemma {:induction false} UnaryExprMeaning(
    em: Emitter, e: BoundExpr, st: EmitState, c: Ctx, sc: SqlCtx, env: Env, named: NamedEnv)
    requires Agree(em, c, sc) && Good(st) && NamedEnvOf(em, env, named) && e.Unary? && EmitExpr(em, e, st).Ok?
    requires Within(EmitExpr(em, e, st).value.1.serverParameters, c.params)
    ensures SqlEval(sc, EmitExpr(em, e, st).value.0, named) == Eval(c, e, env)
    decreases e, 0
  {
    ExprMeaning(em, e.inner, st, c, sc, env, named);
    UnaryMeaning(sc, e.unary, EmitExpr(em, e.inner, st).value.0, named);
  }

  lemma {:induction false} ScalarMeaning(
    em: Emitter, e: BoundExpr, st: EmitState, c: Ctx, sc: SqlCtx, env: Env, named: NamedEnv)
    requires Agree(em, c, sc) && Good(st) && NamedEnvOf(em, env, named) && e.Scalar? && EmitExpr(em, e, st).Ok?
    requires Within(EmitExpr(em, e, st).value.1.serverParameters, c.params)
    ensures SqlEval(sc, EmitExpr(em, e, st).value.0, named) == Eval(c, e, env)
    decreases e, 0
  {
    AllMeaning(em, e.arguments, st, c, sc, env, named);
    CallMeaning(sc, RoutineName(e.routine), EmitAll(em, e.arguments, st).value.0, named);
  }

  lemma {:induction false} RowNumberMeaning(
    em: Emitter, e: BoundExpr, st: EmitState, c: Ctx, sc: SqlCtx, env: Env, named: NamedEnv)
    requires Agree(em, c, sc) && Good(st) && NamedEnvOf(em, env, named) && e.RowNumber? && EmitExpr(em, e, st).Ok?
    requires Within(EmitExpr(em, e, st).value.1.serverParameters, c.params)
    ensures SqlEval(sc, EmitExpr(em, e, st).value.0, named) == Eval(c, e, env)
    decreases e, 0
  {
    ColumnsMeaning(em, e.partitionBy, sc, env, named);
    OrdersMeaning(em, e.orderBy, st, c, sc, env, named);
    WindowMeaning(sc, EmitColumns(em, e.partitionBy).value, EmitOrders(em, e.orderBy, st).value.0, named);
  }

  lemma WindowMeaning(sc: SqlCtx, partition: seq<Sql.Expr>, orders: seq<Sql.Sorted>, env: NamedEnv)
    ensures SqlEval(sc, Sql.FunctionCall("ROW_NUMBER", [], [], [],
            Sql.Tail(None, Sql.Window(partition, orders, false))), env)
         == sc.engine.rowNumber(SqlEvalAll(sc, partition, env), SqlEvalOrders(sc, orders, env))
  {
  }

  lemma {:induction false} BinaryExprMeaning(
    em: Emitter, op: BinaryOp, l: BoundExpr, r: BoundExpr, st: EmitState, c: Ctx, sc: SqlCtx, env: Env, named: NamedEnv)
    requires Agree(em, c, sc) && Good(st) && NamedEnvOf(em, env, named)
    requires EmitExpr(em, Binary(op, l, r), st).Ok?
    requires Within(EmitExpr(em, Binary(op, l, r), st).value.1.serverParameters, c.params)
    ensures SqlEval(sc, EmitExpr(em, Binary(op, l, r), st).value.0, named) == Eval(c, Binary(op, l, r), env)
    decreases Binary(op, l, r), 0
  {
    var (x, st1) := EmitExpr(em, l, st).value;
    var (y, _) := EmitExpr(em, r, st1).value;
    ExprGrows(em, l, st);
    ExprGrows(em, r, st1);
    ExprMeaning(em, l, st, c, sc, env, named);
    ExprMeaning(em, r, st1, c, sc, env, named);
    BinaryMeaning(sc, op, x, y, named);
  }

  lemma {:induction false} InMeaning(
    em: Emitter, x: BoundExpr, values: seq<BoundExpr>, negated: bool, st: EmitState, c: Ctx, sc: SqlCtx, env: Env,
    named: NamedEnv)
    requires Agree(em, c, sc) && Good(st) && NamedEnvOf(em, env, named)
    requires EmitExpr(em, In(x, values, negated), st).Ok?
    requires Within(EmitExpr(em, In(x, values, negated), st).value.1.serverParameters, c.params)
    ensures SqlEval(sc, EmitExpr(em, In(x, values, negated), st).value.0, named) == Eval(c, In(x, values, negated), env)
    decreases In(x, values, negated), 0
  {
    var (x', st1) := EmitExpr(em, x, st).value;
    var (members, _) := EmitAll(em, values, st1).value;
    ExprGrows(em, x, st);
    AllGrows(em, values, st1);
    ExprMeaning(em, x, st, c, sc, env, named);
    AllMeaning(em, values, st1, c, sc, env, named);
    InListMeaning(sc, x', negated, members, named);
    assert Eval(c, In(x, values, negated), env) == InValue(c.engine, Eval(c, x, env), EvalAll(c, values, env), negated);
  }

  lemma {:induction false} ConditionalMeaning(
    em: Emitter, value: BoundExpr, visibleIf: BoundExpr, st: EmitState, c: Ctx, sc: SqlCtx, env: Env, named: NamedEnv)
    requires Agree(em, c, sc) && Good(st) && NamedEnvOf(em, env, named)
    requires EmitExpr(em, ConditionalOutput(value, visibleIf), st).Ok?
    requires Within(EmitExpr(em, ConditionalOutput(value, visibleIf), st).value.1.serverParameters, c.params)
    ensures SqlEval(sc, EmitExpr(em, ConditionalOutput(value, visibleIf), st).value.0, named)
         == Eval(c, ConditionalOutput(value, visibleIf), env)
    decreases ConditionalOutput(value, visibleIf), 0
  {
    var (condition, st1) := EmitExpr(em, visibleIf, st).value;
    ExprGrows(em, visibleIf, st);
    ExprGrows(em, value, st1);
    ExprMeaning(em, visibleIf, st, c, sc, env, named);
    ExprMeaning(em, value, st1, c, sc, env, named);
    CaseMeaning(sc, condition, EmitExpr(em, value, st1).value.0, Sql.Literal(Sql.NullToken), named);
    TokenMeaning(sc, Sql.NullToken, named);
  }

  lemma {:induction false} CaseExprMeaning(
    em: Emitter, branches: seq<Branch>, otherwise: Option<BoundExpr>, logicalType: LogicalType,
    st: EmitState, c: Ctx, sc: SqlCtx, env: Env, named: NamedEnv)
    requires Agree(em, c, sc) && Good(st) && NamedEnvOf(em, env, named)
    requires EmitExpr(em, Case(branches, otherwise, logicalType), st).Ok?
    requires Within(EmitExpr(em, Case(branches, otherwise, logicalType), st).value.1.serverParameters, c.params)
    ensures SqlEval(sc, EmitExpr(em, Case(branches, otherwise, logicalType), st).value.0, named)
         == Eval(c, Case(branches, otherwise, logicalType), env)
    decreases Case(branches, otherwise, logicalType), 0
  {
    var (pairs, st1) := EmitBranches(em, branches, st).value;
    var (other, _) := EmitOption(em, otherwise, st1).value;
    BranchesGrow(em, branches, st);
    OptionGrows(em, otherwise, st1);
    BranchesMeaning(em, branches, st, c, sc, env, named);
    if otherwise.Some? {
      ExprMeaning(em, otherwise.value, st1, c, sc, env, named);
    }
    ChoiceMeaning(sc, pairs, other, named);
    EvalChoice(c, branches, otherwise, logicalType, env);
  }

  lemma ChoiceMeaning(sc: SqlCtx, pairs: seq<Sql.When>, other: Option<Sql.Expr>, env: NamedEnv)
    ensures SqlEval(sc, Sql.Case(None, pairs, other), env)
         == if SqlEvalPairs(sc, pairs, env).Some? then SqlEvalPairs(sc, pairs, env).value
            else if other.Some? then SqlEval(sc, other.value, env) else Null
  {
    assert SqlEval(sc, Sql.Case(None, pairs, other), env) == SqlCase(sc, Sql.Case(None, pairs, other), env);
  }

  lemma EvalChoice(c: Ctx, branches: seq<Branch>, otherwise: Option<BoundExpr>, logicalType: LogicalType, env: Env)
    ensures Eval(c, Case(branches, otherwise, logicalType), env)
         == if EvalBranches(c, branches, env).Some? then EvalBranches(c, branches, env).value
            else if otherwise.Some? then Eval(c, otherwise.value, env) else Null
  {
  }

  lemma {:induction false} AllMeaning(
      em: Emitter, es: seq<BoundExpr>, st: EmitState, c: Ctx, sc: SqlCtx, env: Env, named: NamedEnv)
    requires Agree(em, c, sc) && Good(st) && NamedEnvOf(em, env, named)
    requires EmitAll(em, es, st).Ok?
    requires Within(EmitAll(em, es, st).value.1.serverParameters, c.params)
    ensures SqlEvalAll(sc, EmitAll(em, es, st).value.0, named) == EvalAll(c, es, env)
    decreases es, 0
  {
    if es != [] {
      var (first, st1) := EmitExpr(em, es[0], st).value;
      var (rest, _) := EmitAll(em, es[1..], st1).value;
      ExprGrows(em, es[0], st);
      AllGrows(em, es[1..], st1);
      ExprMeaning(em, es[0], st, c, sc, env, named);
      AllMeaning(em, es[1..], st1, c, sc, env, named);
      assert ([first] + rest)[1..] == rest;
    }
  }

  lemma PairsCons(sc: SqlCtx, pair: Sql.When, rest: seq<Sql.When>, env: NamedEnv)
    ensures SqlEvalPairs(sc, [pair] + rest, env)
         == if TruthOf(sc.engine, SqlEval(sc, pair.condition, env)) == True then Some(SqlEval(sc, pair.value, env))
            else SqlEvalPairs(sc, rest, env)
  {
    assert ([pair] + rest)[1..] == rest;
  }

  lemma {:induction false} BranchesMeaning(
    em: Emitter, branches: seq<Branch>, st: EmitState, c: Ctx, sc: SqlCtx, env: Env, named: NamedEnv)
    requires Agree(em, c, sc) && Good(st) && NamedEnvOf(em, env, named)
    requires EmitBranches(em, branches, st).Ok?
    requires Within(EmitBranches(em, branches, st).value.1.serverParameters, c.params)
    ensures SqlEvalPairs(sc, EmitBranches(em, branches, st).value.0, named) == EvalBranches(c, branches, env)
    decreases branches, 0
  {
    if branches != [] {
      assert branches decreases to branches[0];
      var (condition, st1) := EmitExpr(em, branches[0].condition, st).value;
      var (value, st2) := EmitExpr(em, branches[0].value, st1).value;
      var (rest, _) := EmitBranches(em, branches[1..], st2).value;
      ExprGrows(em, branches[0].condition, st);
      ExprGrows(em, branches[0].value, st1);
      BranchesGrow(em, branches[1..], st2);
      assert branches[0] in branches;
      ExprMeaning(em, branches[0].condition, st, c, sc, env, named);
      ExprMeaning(em, branches[0].value, st1, c, sc, env, named);
      BranchesMeaning(em, branches[1..], st2, c, sc, env, named);
      PairsCons(sc, Sql.When(condition, value), rest, named);
    }
  }

  lemma {:induction false} OrdersMeaning(
    em: Emitter, orders: seq<BoundOrder>, st: EmitState, c: Ctx, sc: SqlCtx, env: Env, named: NamedEnv)
    requires Agree(em, c, sc) && Good(st) && NamedEnvOf(em, env, named)
    requires EmitOrders(em, orders, st).Ok?
    requires Within(EmitOrders(em, orders, st).value.1.serverParameters, c.params)
    ensures SqlEvalOrders(sc, EmitOrders(em, orders, st).value.0, named) == EvalOrders(c, orders, env)
    decreases orders, 0
  {
    if orders != [] {
      assert orders decreases to orders[0];
      var (first, st1) := EmitExpr(em, orders[0].expression, st).value;
      var (rest, _) := EmitOrders(em, orders[1..], st1).value;
      ExprGrows(em, orders[0].expression, st);
      OrdersGrow(em, orders[1..], st1);
      assert orders[0] in orders;
      ExprMeaning(em, orders[0].expression, st, c, sc, env, named);
      OrdersMeaning(em, orders[1..], st1, c, sc, env, named);
      assert ([Sql.Sorted(first, orders[0].direction == Descending)] + rest)[1..] == rest;
    }
  }

  // ----- FROM, JOIN and WHERE -----

  lemma NamedUpdate(em: Emitter, env: Env, named: NamedEnv, r: ResourceId, row: Row, namedRow: NamedRow)
    requires Injective(em.aliases) && Known(em, r) && NamedEnvOf(em, env, named) && NamedRowOf(em, r, row, namedRow)
    ensures NamedEnvOf(em, env[r := row], named[em.aliases[r] := namedRow])
  {
  }

  lemma {:induction false} BindMeaning(
    em: Emitter, env: Env, named: NamedEnv, r: ResourceId, rows: seq<Row>, namedRows: seq<NamedRow>)
    requires Injective(em.aliases) && Known(em, r) && NamedEnvOf(em, env, named) && NamedRowsOf(em, r, rows, namedRows)
    ensures NamedEnvsOf(em, Extend(env, r, rows), Bind(named, em.aliases[r], namedRows))
  {
    if rows != [] {
      NamedUpdate(em, env, named, r, rows[0], namedRows[0]);
      BindMeaning(em, env, named, r, rows[1..], namedRows[1..]);
    }
  }

  /** The emitted condition holds exactly where the bound one does. */
  ghost predicate SameTruth(em: Emitter, c: Ctx, sc: SqlCtx, x: Sql.Expr, e: BoundExpr) {
    forall env: Env, named: NamedEnv {:trigger SqlIsTrue(sc, x, named), IsTrue(c, e, env)} ::
      NamedEnvOf(em, env, named) ==> SqlIsTrue(sc, x, named) == IsTrue(c, e, env)
  }

  lemma {:induction false} KeepMeaning(
    em: Emitter, x: Sql.Expr, e: BoundExpr, c: Ctx, sc: SqlCtx, envs: seq<Env>, named: seq<NamedEnv>)
    requires NamedEnvsOf(em, envs, named) && SameTruth(em, c, sc, x, e)
    ensures NamedEnvsOf(em, Keep(c, e, envs), SqlKeep(sc, x, named))
  {
    if envs != [] {
      assert NamedEnvOf(em, envs[0], named[0]);
      assert SqlIsTrue(sc, x, named[0]) == IsTrue(c, e, envs[0]);
      KeepMeaning(em, x, e, c, sc, envs[1..], named[1..]);
      KeepCons(c, e, envs);
      SqlKeepCons(sc, x, named);
      NamedCons(em, IsTrue(c, e, envs[0]), envs[0], Keep(c, e, envs[1..]), named[0], SqlKeep(sc, x, named[1..]));
    }
  }

  lemma KeepCons(c: Ctx, e: BoundExpr, envs: seq<Env>)
    requires envs != []
    ensures Keep(c, e, envs) == Consed(IsTrue(c, e, envs[0]), envs[0], Keep(c, e, envs[1..]))
  {
  }

  lemma SqlKeepCons(sc: SqlCtx, x: Sql.Expr, named: seq<NamedEnv>)
    requires named != []
    ensures SqlKeep(sc, x, named) == Consed(SqlIsTrue(sc, x, named[0]), named[0], SqlKeep(sc, x, named[1..]))
  {
  }

  function Consed<T>(kept: bool, first: T, rest: seq<T>): seq<T> {
    if kept then [first] + rest else rest
  }

  lemma NamedCons(em: Emitter, kept: bool, env: Env, rest: seq<Env>, named: NamedEnv, others: seq<NamedEnv>)
    requires NamedEnvOf(em, env, named) && NamedEnvsOf(em, rest, others)
    ensures NamedEnvsOf(em, Consed(kept, env, rest), Consed(kept, named, others))
  {
  }

  lemma NamedConcat(em: Emitter, a: seq<Env>, b: seq<Env>, x: seq<NamedEnv>, y: seq<NamedEnv>)
    requires NamedEnvsOf(em, a, x) && NamedEnvsOf(em, b, y)
    ensures NamedEnvsOf(em, a + b, x + y)
  {
  }

  /** One emitted join does to named environments what the bound join does to row environments. */
  ghost predicate JoinMeans(em: Emitter, c: Ctx, sc: SqlCtx, x: Sql.Join, join: BoundJoin) {
    && Known(em, join.resource)
    && x.constraint.On?
    && x == Sql.Join(join.kind == Left, Sql.Named(em.catalog[join.resource].source, em.aliases[join.resource]),
                     Sql.On(x.constraint.condition))
    && SameTruth(em, c, sc, x.constraint.condition, join.on)
  }

  lemma JoinEnvMeaning(em: Emitter, c: Ctx, sc: SqlCtx, x: Sql.Join, join: BoundJoin, env: Env, named: NamedEnv)
    requires Agree(em, c, sc) && JoinMeans(em, c, sc, x, join) && NamedEnvOf(em, env, named)
    ensures NamedEnvsOf(em, JoinEnv(c, join, c.nested, env), SqlJoinEnv(sc, x, named))
  {
    var r := join.resource;
    var rows, tableRows := Rows(c.nested, r), TableRows(sc, em.catalog[r].source);
    assert NamedRowsOf(em, r, rows, tableRows) by { assert Known(em, r); var _ := em.aliases[r]; }
    BindMeaning(em, env, named, r, rows, tableRows);
    KeepMeaning(em, x.constraint.condition, join.on, c, sc, Extend(env, r, rows),
        Bind(named, em.aliases[r], tableRows));
    NamedUpdate(em, env, named, r, map[], map[]);
  }

  lemma {:induction false} JoinEachMeaning(
    em: Emitter, c: Ctx, sc: SqlCtx, x: Sql.Join, join: BoundJoin, envs: seq<Env>, named: seq<NamedEnv>)
    requires Agree(em, c, sc) && JoinMeans(em, c, sc, x, join) && NamedEnvsOf(em, envs, named)
    ensures NamedEnvsOf(em, JoinEach(c, join, c.nested, envs), SqlJoinEach(sc, x, named))
  {
    if envs != [] {
      JoinEnvMeaning(em, c, sc, x, join, envs[0], named[0]);
      JoinEachMeaning(em, c, sc, x, join, envs[1..], named[1..]);
      NamedConcat(em, JoinEnv(c, join, c.nested, envs[0]), JoinEach(c, join, c.nested, envs[1..]),
                  SqlJoinEnv(sc, x, named[0]), SqlJoinEach(sc, x, named[1..]));
    }
  }

  ghost predicate JoinsMean(em: Emitter, c: Ctx, sc: SqlCtx, xs: seq<Sql.Join>, joins: seq<BoundJoin>) {
    |xs| == |joins| && forall i | 0 <= i < |joins| :: JoinMeans(em, c, sc, xs[i], joins[i])
  }

  lemma {:induction false} JoinAllMeaning(
    em: Emitter, c: Ctx, sc: SqlCtx, xs: seq<Sql.Join>, joins: seq<BoundJoin>, envs: seq<Env>, named: seq<NamedEnv>)
    requires Agree(em, c, sc) && JoinsMean(em, c, sc, xs, joins) && NamedEnvsOf(em, envs, named)
    ensures NamedEnvsOf(em, JoinAll(c, joins, c.nested, envs), SqlJoinAll(sc, xs, named))
    decreases |joins|
  {
    if joins != [] {
      JoinEachMeaning(em, c, sc, xs[0], joins[0], envs, named);
      JoinAllMeaning(em, c, sc, xs[1..], joins[1..], JoinEach(c, joins[0], c.nested, envs),
          SqlJoinEach(sc, xs[0], named));
    }
  }

  lemma {:induction false} ConditionMeaning(em: Emitter, e: BoundExpr, st: EmitState, c: Ctx, sc: SqlCtx)
    requires Agree(em, c, sc) && Good(st)
    requires EmitExpr(em, e, st).Ok?
    requires Within(EmitExpr(em, e, st).value.1.serverParameters, c.params)
    ensures SameTruth(em, c, sc, EmitExpr(em, e, st).value.0, e)
    decreases e, 2
  {
    var x := EmitExpr(em, e, st).value.0;
    forall env: Env, named: NamedEnv | NamedEnvOf(em, env, named)
      ensures SqlIsTrue(sc, x, named) == IsTrue(c, e, env)
    {
      ExprMeaning(em, e, st, c, sc, env, named);
    }
  }

  lemma {:induction false} EmittedJoinsMean(em: Emitter, joins: seq<BoundJoin>, st: EmitState, c: Ctx, sc: SqlCtx)
    requires Agree(em, c, sc) && Good(st)
    requires EmitJoins(em, joins, st).Ok?
    requires Within(EmitJoins(em, joins, st).value.1.serverParameters, c.params)
    ensures JoinsMean(em, c, sc, EmitJoins(em, joins, st).value.0, joins)
    decreases joins, 0
  {
    if joins != [] {
      assert joins decreases to joins[0];
      var join := joins[0];
      var (on, st1) := EmitExpr(em, join.on, st).value;
      var (rest, _) := EmitJoins(em, joins[1..], st1).value;
      ExprGrows(em, join.on, st);
      JoinsGrow(em, joins[1..], st1);
      assert join in joins;
      ConditionMeaning(em, join.on, st, c, sc);
      EmittedJoinsMean(em, joins[1..], st1, c, sc);
      JoinsMeanCons(em, c, sc, on, rest, joins);
    }
  }

  lemma JoinsMeanCons(em: Emitter, c: Ctx, sc: SqlCtx, on: Sql.Expr, rest: seq<Sql.Join>, joins: seq<BoundJoin>)
    requires joins != [] && Known(em, joins[0].resource)
    requires SameTruth(em, c, sc, on, joins[0].on) && JoinsMean(em, c, sc, rest, joins[1..])
    ensures JoinsMean(em, c, sc,
              [Sql.Join(joins[0].kind == Left,
                        Sql.Named(em.catalog[joins[0].resource].source, em.aliases[joins[0].resource]), Sql.On(on))] +
                            rest,
              joins)
  {
    var join := joins[0];
    var first := Sql.Join(join.kind == Left, Sql.Named(em.catalog[join.resource].source, em.aliases[join.resource]),
        Sql.On(on));
    assert JoinMeans(em, c, sc, first, join);
    forall i | 0 <= i < |joins|
      ensures JoinMeans(em, c, sc, ([first] + rest)[i], joins[i])
    {
      if i > 0 {
        assert JoinMeans(em, c, sc, rest[i - 1], joins[1..][i - 1]);
      }
    }
  }

  /** The emission states between the clauses of a select, in the order they are emitted. */
  datatype States = States(
    joins: EmitState, groupBy: EmitState, orderBy: EmitState, limit: EmitState, offset: EmitState,
    projections: EmitState, filter: EmitState)

  ghost function StatesOf(em: Emitter, s: BoundSelect, st: EmitState): States
    requires EmitSelect(em, s, st).Ok?
  {
    var st1 := EmitJoins(em, s.joins, st).value.1;
    var st2 := EmitGroupBy(em, s.groupBy, s.having, st1).value.1;
    var st3 := EmitOrders(em, s.orderBy, st2).value.1;
    var st4 := EmitOption(em, s.limit, st3).value.1;
    var st5 := EmitOption(em, s.offset, st4).value.1;
    var st6 := EmitProjections(em, s.projections, 0, st5).value.1;
    States(st1, st2, st3, st4, st5, st6, EmitOption(em, s.filter, st6).value.1)
  }

  lemma SelectStates(em: Emitter, s: BoundSelect, st: EmitState, params: Bindings)
    requires Good(st) && EmitSelect(em, s, st).Ok?
    requires Within(EmitSelect(em, s, st).value.1.serverParameters, params)
    ensures var t := StatesOf(em, s, st);
            && EmitJoins(em, s.joins, st).Ok? && t.joins == EmitJoins(em, s.joins, st).value.1
            && EmitGroupBy(em, s.groupBy, s.having, t.joins).Ok?
            && t.groupBy == EmitGroupBy(em, s.groupBy, s.having, t.joins).value.1
            && EmitOrders(em, s.orderBy, t.groupBy).Ok? && t.orderBy == EmitOrders(em, s.orderBy, t.groupBy).value.1
            && EmitOption(em, s.limit, t.orderBy).Ok? && t.limit == EmitOption(em, s.limit, t.orderBy).value.1
            && EmitOption(em, s.offset, t.limit).Ok? && t.offset == EmitOption(em, s.offset, t.limit).value.1
            && EmitProjections(em, s.projections, 0, t.offset).Ok?
            && t.projections == EmitProjections(em, s.projections, 0, t.offset).value.1
            && EmitOption(em, s.filter, t.projections).Ok?
            && t.filter == EmitOption(em, s.filter, t.projections).value.1
            && t.filter == EmitSelect(em, s, st).value.1
    ensures var t := StatesOf(em, s, st);
            && Good(t.joins) && Good(t.groupBy) && Good(t.orderBy) && Good(t.limit) && Good(t.offset)
            && Good(t.projections) && Good(t.filter)
    ensures var t := StatesOf(em, s, st);
            && Within(t.joins.serverParameters, params) && Within(t.groupBy.serverParameters, params)
            && Within(t.orderBy.serverParameters, params) && Within(t.limit.serverParameters, params)
            && Within(t.offset.serverParameters, params) && Within(t.projections.serverParameters, params)
            && Within(t.filter.serverParameters, params)
  {
    var t := StatesOf(em, s, st);
    JoinsGrow(em, s.joins, st);
    GroupByGrows(em, s.groupBy, s.having, t.joins);
    OrdersGrow(em, s.orderBy, t.groupBy);
    OptionGrows(em, s.limit, t.orderBy);
    OptionGrows(em, s.offset, t.limit);
    ProjectionsGrow(em, s.projections, 0, t.offset);
    OptionGrows(em, s.filter, t.projections);
    WithinTransitive(t.projections.serverParameters, t.filter.serverParameters, params);
    WithinTransitive(t.offset.serverParameters, t.projections.serverParameters, params);
    WithinTransitive(t.limit.serverParameters, t.offset.serverParameters, params);
    WithinTransitive(t.orderBy.serverParameters, t.limit.serverParameters, params);
    WithinTransitive(t.groupBy.serverParameters, t.orderBy.serverParameters, params);
    WithinTransitive(t.joins.serverParameters, t.groupBy.serverParameters, params);
  }

  /** FROM, JOIN and WHERE: the query's named environments are the select's row environments, named. */
  lemma {:induction false} EnvsMeaning(
    em: Emitter, s: BoundSelect, st: EmitState, c: Ctx, sc: SqlCtx, outer: Env, named: NamedEnv)
    requires Agree(em, c, sc) && Good(st) && NamedEnvOf(em, outer, named)
    requires EmitSelect(em, s, st).Ok?
    requires Within(EmitSelect(em, s, st).value.1.serverParameters, c.params)
    ensures NamedEnvsOf(em, SelectEnvs(c, s, c.nested, outer), QueryEnvs(sc, EmitSelect(em, s, st).value.0, named))
    decreases s, 2
  {
    SelectStates(em, s, st, c.params);
    var t := StatesOf(em, s, st);
    var st1, st2, st3, st4, st5, st6, st7 := t.joins, t.groupBy, t.orderBy, t.limit, t.offset, t.projections, t.filter;
    var r := s.resource;
    var joins := EmitJoins(em, s.joins, st).value.0;
    EmittedJoinsMean(em, s.joins, st, c, sc);
    if s.filter.Some? {
      ConditionMeaning(em, s.filter.value, st6, c, sc);
    }
    EnvsFrom(em, s, c, sc, outer, named, joins, EmitOption(em, s.filter, st6).value.0);
    QueryShape(em, s, st, sc, named, joins, EmitOption(em, s.filter, st6).value.0);
  }

  function FromQuery(
      em: Emitter, sc: SqlCtx, r: ResourceId, joins: seq<Sql.Join>, filter: Option<Sql.Expr>, named: NamedEnv)
      : seq<NamedEnv>
    requires Known(em, r)
  {
    SqlWhere(sc, filter, SqlJoinAll(sc, joins, Bind(named, em.aliases[r], TableRows(sc, em.catalog[r].source))))
  }

  lemma QueryShape(
    em: Emitter, s: BoundSelect, st: EmitState, sc: SqlCtx, named: NamedEnv,
    joins: seq<Sql.Join>, filter: Option<Sql.Expr>)
    requires EmitSelect(em, s, st).Ok? && Known(em, s.resource)
    requires var body := EmitSelect(em, s, st).value.0.body;
             body.Query? && body.from.Some? && body.filter == filter
             && body.from.value == Sql.From(Sql.Named(em.catalog[s.resource].source, em.aliases[s.resource]), joins)
    ensures QueryEnvs(sc, EmitSelect(em, s, st).value.0, named) == FromQuery(em, sc, s.resource, joins, filter, named)
  {
  }

  lemma EnvsFrom(
    em: Emitter, s: BoundSelect, c: Ctx, sc: SqlCtx, outer: Env, named: NamedEnv,
    joins: seq<Sql.Join>, filter: Option<Sql.Expr>)
    requires Agree(em, c, sc) && NamedEnvOf(em, outer, named) && Known(em, s.resource)
    requires JoinsMean(em, c, sc, joins, s.joins)
    requires s.filter.Some? == filter.Some? && (filter.Some? ==> SameTruth(em, c, sc, filter.value, s.filter.value))
    ensures NamedEnvsOf(em, SelectEnvs(c, s, c.nested, outer), FromQuery(em, sc, s.resource, joins, filter, named))
  {
    var r := s.resource;
    var rows, tableRows := Rows(c.nested, r), TableRows(sc, em.catalog[r].source);
    assert NamedRowsOf(em, r, rows, tableRows) by { var _ := em.aliases[r]; }
    BindMeaning(em, outer, named, r, rows, tableRows);
    var start, namedStart := Extend(outer, r, rows), Bind(named, em.aliases[r], tableRows);
    JoinAllMeaning(em, c, sc, joins, s.joins, start, namedStart);
    if filter.Some? {
      KeepMeaning(em, filter.value, s.filter.value, c, sc,
                  JoinAll(c, s.joins, c.nested, start), SqlJoinAll(sc, joins, namedStart));
    }
  }

  /** LIMIT and OFFSET of an emitted select have the bound values. */
  lemma {:induction false} WindowValues(
    em: Emitter, s: BoundSelect, st: EmitState, c: Ctx, sc: SqlCtx, outer: Env, named: NamedEnv)
    requires Agree(em, c, sc) && Good(st) && NamedEnvOf(em, outer, named)
    requires EmitSelect(em, s, st).Ok?
    requires Within(EmitSelect(em, s, st).value.1.serverParameters, c.params)
    ensures var q := EmitSelect(em, s, st).value.0;
            && LimitValue(sc, q.limit, named) == EvalOption(c, s.limit, outer)
            && OffsetValue(sc, q.limit, named) == EvalOption(c, s.offset, outer)
    decreases s, 2
  {
    SelectStates(em, s, st, c.params);
    var t := StatesOf(em, s, st);
    var st1, st2, st3, st4, st5, st6, st7 := t.joins, t.groupBy, t.orderBy, t.limit, t.offset, t.projections, t.filter;
    var limit, offset := EmitOption(em, s.limit, st3).value.0, EmitOption(em, s.offset, st4).value.0;
    OptionMeaning(em, s.limit, st3, c, sc, outer, named);
    OptionMeaning(em, s.offset, st4, c, sc, outer, named);
    assert EmitSelect(em, s, st).value.0.limit
           == match limit case None => None case Some(l) => Some(Sql.Limit(l, offset));
    LimitParts(sc, limit, offset, named);
  }

  lemma {:induction false} OptionMeaning(
      em: Emitter, e: Option<BoundExpr>, st: EmitState, c: Ctx, sc: SqlCtx, env: Env, named: NamedEnv)
    requires Agree(em, c, sc) && Good(st) && NamedEnvOf(em, env, named)
    requires EmitOption(em, e, st).Ok?
    requires Within(EmitOption(em, e, st).value.1.serverParameters, c.params)
    ensures EmitOption(em, e, st).value.0.Some? == e.Some?
    ensures SqlEvalOption(sc, EmitOption(em, e, st).value.0, named) == EvalOption(c, e, env)
    decreases e, 2
  {
    if e.Some? { ExprMeaning(em, e.value, st, c, sc, env, named); }
  }

  lemma LimitParts(sc: SqlCtx, limit: Option<Sql.Expr>, offset: Option<Sql.Expr>, named: NamedEnv)
    ensures var q := match limit case None => None case Some(l) => Some(Sql.Limit(l, offset));
            && LimitValue(sc, q, named) == SqlEvalOption(sc, limit, named)
            && OffsetValue(sc, q, named) == if limit.Some? then SqlEvalOption(sc, offset, named) else None
  {
  }

  lemma {:induction false} ExistsMeaning(
    em: Emitter, s: BoundSelect, st: EmitState, c: Ctx, sc: SqlCtx, env: Env, named: NamedEnv)
    requires Agree(em, c, sc) && Good(st) && NamedEnvOf(em, env, named)
    requires EmitSelect(em, s, st).Ok?
    requires Within(EmitSelect(em, s, st).value.1.serverParameters, c.params)
    ensures SqlEval(sc, Sql.Exists(EmitSelect(em, s, st).value.0), named) == Eval(c, Exists(s), env)
    decreases s, 3
  {
    var q := EmitSelect(em, s, st).value.0;
    EnvsMeaning(em, s, st, c, sc, env, named);
    WindowValues(em, s, st, c, sc, env, named);
    assert SqlEval(sc, Sql.Exists(q), named) == SqlExists(sc, Sql.Exists(q), named);
    TruncateLength(SelectEnvs(c, s, c.nested, env), QueryEnvs(sc, q, named), EvalOption(c, s.limit, env),
        EvalOption(c, s.offset, env));
  }

  /** A window over lists of one length is empty on both or on neither. */
  lemma TruncateLength<T, U>(xs: seq<T>, ys: seq<U>, limit: Option<LogicalValue>, offset: Option<LogicalValue>)
    requires |xs| == |ys|
    ensures |Truncate(xs, limit, offset)| == |Truncate(ys, limit, offset)|
  {
  }
}
