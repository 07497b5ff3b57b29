/**
  * The independent reference evaluator of policy predicates, with its own errors, and its agreement
  * with the compiled predicate on every well-typed predicate, row and session.
  */
module Oracle {
  import opened Core
  import opened Ir
  import opened Semantics
  import opened Policy
  import opened View
  import opened Instantiation
  import opened Text
  import opened LikeText
  import Like

  datatype OracleError = InvalidPolicy | MissingColumn | MissingSession | IncompatibleValues

  type Verdict = Result<Truth, OracleError>

  // ----- LIKE over the bytes of a string -----

  predicate OracleLike(value: string, pattern: string) {
    Like.Matches(Utf8Bytes(LowerText(value)), Utf8Bytes(LowerText(pattern)))
  }

  /** LIKE over the characters of a string, as the database matches it. */
  predicate TextLike(value: string, pattern: string) {
    TextMatches(LowerText(value), LowerText(pattern))
  }

  lemma {:induction false} LowerKeeps(text: string)
    ensures Ascii(LowerText(text)) <==> Ascii(text)
    ensures '_' in LowerText(text) <==> '_' in text
  {
    if text != [] {
      LowerKeeps(text[1..]);
      AsciiCons(text);
      AsciiCons(LowerText(text));
      assert LowerText(text)[1..] == LowerText(text[1..]);
    }
  }

  lemma LikeAgrees(value: string, pattern: string)
    requires SameUnits(value, pattern)
    ensures OracleLike(value, pattern) == TextLike(value, pattern)
  {
    LowerKeeps(value);
    LowerKeeps(pattern);
    BytesAreText(LowerText(value), LowerText(pattern));
  }

  // ----- The evaluator -----

  /** Code-point order of strings: negative, zero or positive. */
  function StringOrder(a: string, b: string): int {
    if a == [] then (if b == [] then 0 else -1)
    else if b == [] then 1
    else if a[0] < b[0] then -1
    else if a[0] > b[0] then 1
    else StringOrder(a[1..], b[1..])
  }

  function Sign(x: int): int {
    if x < 0 then -1 else if x > 0 then 1 else 0
  }

  /** The order of two values of one kind; none for values of different kinds or without an order. */
  function Order(l: LogicalValue, r: LogicalValue): Option<int> {
    match (l, r)
    case (String(a), String(b)) => Some(StringOrder(a, b))
    case (Boolean(a), Boolean(b)) => Some(if a == b then 0 else if b then -1 else 1)
    case (Int64(a), Int64(b)) => Some(Sign(a - b))
    case (Number(Finite(a)), Number(Finite(b))) => Some(if a < b then -1 else if a > b then 1 else 0)
    case _ => None
  }

  /** The evaluator's own reading of an operator against an order. */
  predicate Decides(operator: ComparisonOperator, order: int) {
    match operator
    case Eq => order == 0
    case Neq => order != 0
    case Lt => order < 0
    case Lte => order <= 0
    case Gt => order > 0
    case Gte => order >= 0
    case LikePattern => false
  }

  /** The database's. */
  predicate Holds(op: BinaryOp, order: int) {
    match op
    case Equal => order == 0
    case NotEqual => order != 0
    case Less => order < 0
    case LessEqual => order <= 0
    case Greater => order > 0
    case GreaterEqual => order >= 0
    case _ => false
  }

  function OracleCompare(l: LogicalValue, r: LogicalValue, operator: ComparisonOperator): Verdict {
    if l.Null? || r.Null? then Ok(Unknown)
    else
      match Order(l, r)
      case None => Err(IncompatibleValues)
      case Some(order) =>
        if operator == LikePattern then
          (if l.String? && r.String? then Ok(BoolTruth(OracleLike(l.text, r.text))) else Err(IncompatibleValues))
        else Ok(BoolTruth(Decides(operator, order)))
  }

  function ColumnValue(row: Row, column: BoundColumn): Result<LogicalValue, OracleError> {
    if column.id.ordinal in row then Ok(row[column.id.ordinal]) else Err(MissingColumn)
  }

  function OracleOperand(operand: PolicyOperand, row: Row, session: TrustedSession): Result<LogicalValue, OracleError> {
    match operand
    case Session(key) => if key in session.values then Ok(String(session.values[key])) else Err(MissingSession)
    case Fixed(value) => Ok(value)
    case Sibling(column) => ColumnValue(row, column)
  }

  /** Whether a listed value equals the column; the search does not stop at a match. */
  function OracleFound(left: LogicalValue, values: seq<LogicalValue>): Result<bool, OracleError> {
    if values == [] then Ok(false)
    else
      var before :- OracleFound(left, values[..|values| - 1]);
      var last :- OracleCompare(left, values[|values| - 1], Eq);
      Ok(before || last == True)
  }

  /** The membership loop accumulates a flag and fails on the first incompatible value. */
  method FindMember(left: LogicalValue, values: seq<LogicalValue>) returns (r: Result<bool, OracleError>)
    ensures r == OracleFound(left, values)
  {
    var found := false;
    for i := 0 to |values|
      invariant OracleFound(left, values[..i]) == Ok(found)
    {
      assert values[..i + 1][..i] == values[..i];
      var verdict := OracleCompare(left, values[i], Eq);
      if verdict.Err? {
        FoundFails(left, values, i + 1);
        return Err(verdict.error);
      }
      found := found || verdict.value == True;
    }
    assert values[..|values|] == values;
    r := Ok(found);
  }

  lemma {:induction false} FoundFails(left: LogicalValue, values: seq<LogicalValue>, i: nat)
    requires i <= |values| && OracleFound(left, values[..i]).Err?
    ensures OracleFound(left, values) == OracleFound(left, values[..i])
  {
    if i == |values| {
      assert values[..i] == values;
    } else {
      assert values[..|values| - 1][..i] == values[..i];
      FoundFails(left, values[..|values| - 1], i);
    }
  }

  function OraclePredicate(p: PolicyPredicate, row: Row, session: TrustedSession): Verdict
    decreases p
  {
    match p
    case Comparison(column, operator, operand) =>
      var left :- ColumnValue(row, column);
      var right :- OracleOperand(operand, row, session);
      OracleCompare(left, right, operator)
    case Membership(column, values, negated) =>
      var left :- ColumnValue(row, column);
      if values == [] then Err(InvalidPolicy)
      else if left.Null? then Ok(Unknown)
      else
        var found :- OracleFound(left, values);
        Ok(BoolTruth(found != negated))
    case NullTest(column, isNull) =>
      var left :- ColumnValue(row, column);
      Ok(BoolTruth(left.Null? == isNull))
    case All(parts) => if parts == [] then Err(InvalidPolicy) else OracleFold(parts, row, session, True, true)
    case Any(parts) => if parts == [] then Err(InvalidPolicy) else OracleFold(parts, row, session, False, false)
    case Negation(part) =>
      var inner :- OraclePredicate(part, row, session);
      Ok(inner.Not())
  }

  function OracleFold(
      parts: seq<PolicyPredicate>, row: Row, session: TrustedSession, current: Truth, all: bool): Verdict
    decreases parts
  {
    if parts == [] then Ok(current)
    else
      var next :- OraclePredicate(parts[0], row, session);
      OracleFold(parts[1..], row, session, if all then current.And(next) else current.Or(next), all)
  }

  // ----- Well-typed inputs -----

  /** The stored kind of a column's type; bytes and JSON columns cannot be compared. */
  predicate OfType(v: LogicalValue, t: LogicalType) {
    match t
    case StringType => v.String?
    case DateType => v.String?
    case DateTimeType => v.String?
    case InstantType => v.String?
    case BooleanType => v.Boolean?
    case IntegerType => v.Int64?
    case Int64Type => v.Int64?
    case NumberType => v.Number? && v.number.Finite?
    case _ => false
  }

  predicate Stored(row: Row, column: BoundColumn) {
    && column.id.ordinal in row
    && (row[column.id.ordinal].Null? || OfType(row[column.id.ordinal], column.logicalType))
  }

  /** The value is ASCII, or the pattern has no `_`: then bytes and characters match alike. */
  predicate SameText(value: LogicalValue, pattern: Result<LogicalValue, OracleError>) {
    value.String? && pattern.Ok? && pattern.value.String? ==> SameUnits(value.text, pattern.value.text)
  }

  /** What activation and the catalog guarantee of a predicate, its row and the session. */
  predicate WellTyped(p: PolicyPredicate, row: Row, session: TrustedSession)
    decreases p
  {
    match p
    case Comparison(column, operator, operand) =>
      && Stored(row, column)
      && (operator == LikePattern ==> column.logicalType == StringType)
      && (match operand
          case Session(key) =>
            column.logicalType == StringType && key in session.values && CanonicalKey("session_" + key)
          case Fixed(value) => OfType(value, column.logicalType)
          case Sibling(other) => Stored(row, other) && other.logicalType == column.logicalType)
      && (operator == LikePattern ==> SameText(row[column.id.ordinal], OracleOperand(operand, row, session)))
    case Membership(column, values, _) =>
      Stored(row, column) && values != [] && forall v | v in values :: OfType(v, column.logicalType)
    case NullTest(column, _) => column.id.ordinal in row
    case All(parts) => parts != [] && forall part | part in parts :: WellTyped(part, row, session)
    case Any(parts) => parts != [] && forall part | part in parts :: WellTyped(part, row, session)
    case Negation(part) => WellTyped(part, row, session)
  }

  /**
    * The database compares values of one kind by their order, its LIKE works on characters, and
    * what it reads for a written double, even an integer, compares as that double.
    */
  ghost predicate IsReference(engine: Engine) {
    && (forall a, b :: engine.like(String(a), String(b)) == BoolTruth(TextLike(a, b)))
    && (forall x: real :: !engine.double(Finite(x)).Null?)
    && (forall op, l, x: real {:trigger engine.compare(op, l, engine.double(Finite(x)))} ::
          engine.compare(op, l, engine.double(Finite(x))) == engine.compare(op, l, Number(Finite(x))))
    && (forall op, l, r | Order(l, r).Some? :: engine.compare(op, l, r) == BoolTruth(Holds(op, Order(l, r).value)))
  }

  lemma CompareAgrees(engine: Engine, l: LogicalValue, r: LogicalValue, operator: ComparisonOperator, t: LogicalType)
    requires IsReference(engine) && (operator == LikePattern ==> t == StringType)
    requires l.Null? || OfType(l, t)
    requires r.Null? || OfType(r, t)
    requires operator == LikePattern ==> SameText(l, Ok(r))
    ensures OracleCompare(l, r, operator) == Ok(ComparisonTruth(engine, operator, l, r))
  {
    if operator == LikePattern && l.String? && r.String? {
      LikeAgrees(l.text, r.text);
    }
  }

  lemma EqualityIsDecided(engine: Engine, l: LogicalValue, r: LogicalValue, t: LogicalType)
    requires IsReference(engine) && OfType(l, t) && OfType(r, t)
    ensures Compare(engine, Equal, l, r) == ComparisonTruth(engine, Eq, l, r)
    ensures Compare(engine, Equal, l, r) == BoolTruth(Compare(engine, Equal, l, r) == True)
  {
  }

  lemma OracleFoundSnoc(left: LogicalValue, init: seq<LogicalValue>, last: LogicalValue)
    requires OracleFound(left, init).Ok? && OracleCompare(left, last, Eq).Ok?
    ensures OracleFound(left, init + [last])
            == Ok(OracleFound(left, init).value || OracleCompare(left, last, Eq).value == True)
  {
    assert (init + [last])[..|init|] == init;
  }

  /** `IN` on a value that is not NULL: the accumulated flag is the disjunction of the equalities. */
  lemma {:induction false} FoundAgrees(engine: Engine, left: LogicalValue, values: seq<LogicalValue>, t: LogicalType)
    requires IsReference(engine) && OfType(left, t) && forall v | v in values :: OfType(v, t)
    ensures OracleFound(left, values).Ok?
    ensures AnyEqual(engine, left, values) == BoolTruth(OracleFound(left, values).value)
  {
    if values != [] {
      var init, last := values[..|values| - 1], values[|values| - 1];
      FoundAgrees(engine, left, init, t);
      CompareAgrees(engine, left, last, Eq, t);
      EqualityIsDecided(engine, left, last, t);
      AnyEqualSnoc(engine, left, init, last);
      assert values == init + [last];
      OracleFoundSnoc(left, init, last);
      assert last in values;
    }
  }

  lemma {:induction false} AnyEqualSnoc(engine: Engine, x: LogicalValue, init: seq<LogicalValue>, last: LogicalValue)
    ensures AnyEqual(engine, x, init + [last]) == AnyEqual(engine, x, init).Or(Compare(engine, Equal, x, last))
  {
    if init == [] {
      assert init + [last] == [last];
      assert [last][1..] == [];
    } else {
      assert (init + [last])[1..] == init[1..] + [last];
      AnyEqualSnoc(engine, x, init[1..], last);
    }
  }

  lemma {:induction false} AnyEqualNull(engine: Engine, values: seq<LogicalValue>)
    requires values != []
    ensures AnyEqual(engine, Null, values) == Unknown
  {
    if |values| > 1 {
      AnyEqualNull(engine, values[1..]);
    }
  }

  /** Comparing with what is read for a written value is comparing with the value. */
  lemma ComparesAsWritten(
      engine: Engine, operator: ComparisonOperator, l: LogicalValue, r: LogicalValue, t: LogicalType)
    requires IsReference(engine) && OfType(r, t) && (operator == LikePattern ==> t == StringType)
    ensures ComparisonTruth(engine, operator, l, Written(engine, r)) == ComparisonTruth(engine, operator, l, r)
    ensures Compare(engine, Equal, l, Written(engine, r)) == Compare(engine, Equal, l, r)
  {
  }

  lemma {:induction false} AnyEqualWritten(engine: Engine, l: LogicalValue, values: seq<LogicalValue>, t: LogicalType)
    requires IsReference(engine) && forall v | v in values :: OfType(v, t)
    ensures AnyEqual(engine, l, WrittenAll(engine, values)) == AnyEqual(engine, l, values)
  {
    if values != [] {
      ComparesAsWritten(engine, Eq, l, values[0], t);
      AnyEqualWritten(engine, l, values[1..], t);
      assert WrittenAll(engine, values)[1..] == WrittenAll(engine, values[1..]);
    }
  }

  /** The evaluator succeeds on every well-typed predicate and returns the predicate's meaning. */
  lemma {:induction false} OracleAgrees(engine: Engine, p: PolicyPredicate, row: Row, session: TrustedSession)
    requires IsReference(engine) && WellTyped(p, row, session)
    ensures OraclePredicate(p, row, session) == Ok(PredicateTruth(engine, p, row, session))
    decreases p
  {
    match p
    case Comparison(column, operator, operand) =>
      if operand.Fixed? {
        ComparesAsWritten(engine, operator, CellOf(row, column), operand.value, column.logicalType);
      }
      CompareAgrees(engine, CellOf(row, column), OracleOperand(operand, row, session).value, operator,
          column.logicalType);
    case Membership(column, values, negated) =>
      AnyEqualWritten(engine, CellOf(row, column), values, column.logicalType);
      if CellOf(row, column).Null? {
        AnyEqualNull(engine, values);
      } else {
        FoundAgrees(engine, CellOf(row, column), values, column.logicalType);
      }
    case NullTest(_, _) =>
    case All(parts) => FoldAgrees(engine, parts, row, session, True, true);
    case Any(parts) => FoldAgrees(engine, parts, row, session, False, false);
    case Negation(part) => OracleAgrees(engine, part, row, session);
  }

  lemma {:induction false} FoldAgrees(
    engine: Engine, parts: seq<PolicyPredicate>, row: Row, session: TrustedSession, current: Truth, all: bool)
    requires IsReference(engine) && forall part | part in parts :: WellTyped(part, row, session)
    ensures OracleFold(parts, row, session, current, all)
         == Ok(if all then current.And(AllTruth(engine, parts, row, session))
               else current.Or(AnyTruth(engine, parts, row, session)))
    decreases parts
  {
    if parts != [] {
      OracleAgrees(engine, parts[0], row, session);
      var next := PredicateTruth(engine, parts[0], row, session);
      FoldAgrees(engine, parts[1..], row, session, if all then current.And(next) else current.Or(next), all);
    }
  }

  /** A well-typed predicate also instantiates, whatever server values are already bound. */
  lemma {:induction false} WellTypedInstantiates(
      p: PolicyPredicate, row: Row, session: TrustedSession, values: Bindings)
    requires WellTyped(p, row, session)
    ensures Instantiate(p, session, values).Ok?
    decreases p
  {
    match p
    case All(parts) =>
      WellTypedInstantiates(parts[0], row, session, values);
      var (first, values') := Instantiate(parts[0], session, values).value;
      RestInstantiates(first, parts[1..], row, session, values', And);
    case Any(parts) =>
      WellTypedInstantiates(parts[0], row, session, values);
      var (first, values') := Instantiate(parts[0], session, values).value;
      RestInstantiates(first, parts[1..], row, session, values', Or);
    case Negation(part) => WellTypedInstantiates(part, row, session, values);
    case _ =>
  }

  lemma {:induction false} RestInstantiates(
    output: BoundExpr, rest: seq<PolicyPredicate>, row: Row, session: TrustedSession, values: Bindings, op: BinaryOp)
    requires forall part | part in rest :: WellTyped(part, row, session)
    ensures FoldRest(output, rest, session, values, op).Ok?
    decreases rest
  {
    if rest != [] {
      WellTypedInstantiates(rest[0], row, session, values);
      var (next, values') := Instantiate(rest[0], session, values).value;
      RestInstantiates(Binary(op, output, next), rest[1..], row, session, values', op);
    }
  }

  /** Compiled predicate and reference evaluator agree on every well-typed predicate, row and session. */
  lemma InstantiationAgreesWithOracle(
    p: PolicyPredicate, r: ResourceId, session: TrustedSession, values: Bindings, c: Ctx, env: Env)
    requires IsReference(c.engine) && Owned(p, r) && SessionOnly(values, session)
    requires WellTyped(p, RowOf(env, r), session)
    requires Instantiate(p, session, values).Ok? ==> Within(Instantiate(p, session, values).value.1, c.params)
    ensures Instantiate(p, session, values).Ok?
    ensures OraclePredicate(p, RowOf(env, r), session)
         == Ok(TruthOf(c.engine, Eval(c, Instantiate(p, session, values).value.0, env)))
  {
    WellTypedInstantiates(p, RowOf(env, r), session, values);
    InstantiateMeaning(p, r, session, values, c, env);
    OracleAgrees(c.engine, p, RowOf(env, r), session);
  }
}
