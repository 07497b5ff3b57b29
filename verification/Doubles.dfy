/**
  * Doubles written out in a statement. The emitter prints the decimal text of a double, so the
  * database reads an integral double as an integer. The theorems about emission hold for
  * whatever it reads; here is what it reads, and when that is the double itself.
  */
module Doubles {
  import opened Core
  import opened Ir
  import opened Semantics
  import opened Emit
  import opened EmitInvariants
  import opened SqlSemantics
  import opened EmitMeaning

  /**
    * A caller can check this of a literal: a double's numeral is not a 64-bit integer in digits
    * alone, and the text is read back as that double.
    */
  predicate ReadsBack(em: Emitter, sc: SqlCtx, v: LogicalValue) {
    v.Number? && v.number.Finite? ==>
      var x := v.number.value;
      var numeral := em.numeral(Magnitude(x));
      !PlainInteger(numeral, x < 0.0) && sc.readFloat(numeral) == Number(Finite(Magnitude(x)))
  }

  /** What an emitted literal is read as, whatever the engine. */
  lemma LiteralRead(em: Emitter, v: LogicalValue, st: EmitState, sc: SqlCtx, env: NamedEnv)
    requires Clean(st) && EmitLiteral(em, v, st).Ok?
    requires Within(EmitLiteral(em, v, st).value.1.serverParameters, sc.params)
    ensures SqlEval(sc, EmitLiteral(em, v, st).value.0, env)
         == if v.Number? then ReadDouble(em, sc, v.number.value) else v
  {
    var reading := sc.(engine := Reading(sc.engine, em, sc.readFloat));
    ReadingReads(sc.engine, em, sc.readFloat, sc.params, sc.tables);
    LiteralMeaning(em, v, st, reading, env);
    SameLiteral(em, v, st, sc, reading, env);
  }

  /** A literal is read without asking the engine. */
  lemma SameLiteral(em: Emitter, v: LogicalValue, st: EmitState, sc: SqlCtx, other: SqlCtx, env: NamedEnv)
    requires EmitLiteral(em, v, st).Ok? && other == sc.(engine := other.engine)
    requires Clean(st) && Within(EmitLiteral(em, v, st).value.1.serverParameters, sc.params)
    ensures SqlEval(sc, EmitLiteral(em, v, st).value.0, env) == SqlEval(other, EmitLiteral(em, v, st).value.0, env)
  {
    match v
    case Int64(n) =>
      IntegerMeaning(em, n, st, sc, env);
      IntegerMeaning(em, n, st, other, env);
    case Number(Finite(x)) =>
      NegatedMeaning(sc, em.numeral(Magnitude(x)), env);
      NegatedMeaning(other, em.numeral(Magnitude(x)), env);
    case Null =>
    case Boolean(_) =>
    case _ =>
      FreshMeaning(v, st, sc, env);
      FreshMeaning(v, st, other, env);
  }

  /** Emission keeps a literal's value exactly when it is not a double, or a double that is read back. */
  lemma LiteralExact(em: Emitter, v: LogicalValue, st: EmitState, sc: SqlCtx, env: NamedEnv)
    requires Clean(st) && EmitLiteral(em, v, st).Ok?
    requires Within(EmitLiteral(em, v, st).value.1.serverParameters, sc.params)
    ensures SqlEval(sc, EmitLiteral(em, v, st).value.0, env) == v <==> ReadsBack(em, sc, v)
  {
    LiteralRead(em, v, st, sc, env);
  }

  /** The numeral of the double is its shortest decimal text, and the database's conversion is correct on it. */
  predicate Shortest(em: Emitter, sc: SqlCtx, x: real) {
    var numeral, magnitude := em.numeral(Magnitude(x)), Magnitude(x);
    && (Integral(x) ==> numeral == Decimal(magnitude.Floor))
    && (!Integral(x) ==> !AllDigits(numeral))
    && sc.readFloat(numeral) == Number(Finite(magnitude))
  }

  predicate Integral(x: real) {
    x == x.Floor as real
  }

  /** A double is kept exactly when it is not an integer, or one that 64 bits do not hold. */
  lemma DoubleExact(em: Emitter, x: real, st: EmitState, sc: SqlCtx, env: NamedEnv)
    requires Clean(st) && Within(st.serverParameters, sc.params) && Shortest(em, sc, x)
    ensures EmitLiteral(em, Number(Finite(x)), st).Ok?
    ensures SqlEval(sc, EmitLiteral(em, Number(Finite(x)), st).value.0, env) == Number(Finite(x))
       <==> !(Integral(x) && -MAX_INT64 - 1 <= x.Floor <= MAX_INT64)
  {
    LiteralExact(em, Number(Finite(x)), st, sc, env);
    if Integral(x) {
      var magnitude: int := if x < 0.0 then -x.Floor else x.Floor;
      assert Magnitude(x) == magnitude as real;
      DecimalRoundTrip(magnitude);
    }
  }

  /** A double printed as digits that 64 bits hold, the sign included, is read as that integer. */
  lemma IntegralDouble(em: Emitter, x: real, st: EmitState, sc: SqlCtx, env: NamedEnv)
    requires Clean(st) && Within(st.serverParameters, sc.params) && PlainInteger(em.numeral(Magnitude(x)), x < 0.0)
    ensures EmitLiteral(em, Number(Finite(x)), st).Ok?
    ensures var n: int := DecimalValue(em.numeral(Magnitude(x)));
            SqlEval(sc, EmitLiteral(em, Number(Finite(x)), st).value.0, env) == Int64(if x < 0.0 then -n else n)
  {
    LiteralRead(em, Number(Finite(x)), st, sc, env);
  }

  /** The literal 10.0 is printed as 10 and read as the integer 10. */
  lemma TenPointZero(em: Emitter, st: EmitState, sc: SqlCtx, env: NamedEnv)
    requires Clean(st) && em.numeral(10.0) == "10" && Within(st.serverParameters, sc.params)
    ensures EmitLiteral(em, Number(Finite(10.0)), st).Ok?
    ensures SqlEval(sc, EmitLiteral(em, Number(Finite(10.0)), st).value.0, env) == Int64(10)
    ensures !ReadsBack(em, sc, Number(Finite(10.0)))
  {
    assert "10"[..1] == "1" && "1"[..0] == [];
    assert DecimalValue("1") == 1 && DecimalValue("10") == 10;
    IntegralDouble(em, 10.0, st, sc, env);
  }

  /** The engine whose written doubles are read as their numerals are. */
  function Reading(engine: Engine, em: Emitter, readFloat: string -> LogicalValue): Engine {
    engine.(double := (d: Double) =>
      if d.NonFinite? then Null
      else
        var numeral := em.numeral(Magnitude(d.value));
        ReadNumeral(SqlCtx(engine, map[], map[], readFloat), numeral, d.value < 0.0))
  }

  /** Every database has such an engine: the theorems about emission exclude no literal. */
  lemma ReadingReads(
    engine: Engine, em: Emitter, readFloat: string -> LogicalValue, params: Bindings,
    tables: map<string, seq<NamedRow>>)
    ensures ReadsDoubles(em, SqlCtx(Reading(engine, em, readFloat), params, tables, readFloat))
  {
  }
}
