/** Values, identities and outcomes shared by every part of the compiler and its clients. */
module Core {

  datatype Option<+T> = None | Some(value: T)

  /** A failure-compatible outcome; `Err` carries the source's error category. */
  datatype Result<+T, +E> = Ok(value: T) | Err(error: E) {
    predicate IsFailure() {
      Err?
    }

    function PropagateFailure<U>(): Result<U, E>
      requires Err?
    {
      Err(error)
    }

    function Extract(): T
      requires Ok?
    {
      value
    }
  }

  type ResourceId = nat

  /** A column is identified by its resource and its position in that resource. */
  datatype ColumnId = ColumnId(resource: ResourceId, ordinal: nat)

  datatype LogicalType =
    | StringType | IntegerType | BooleanType | Int64Type | NumberType
    | BytesType | DateType | DateTimeType | InstantType | JsonType

  const MAX_INT64: int := 0x7FFF_FFFF_FFFF_FFFF

  type Integer64 = n: int | -MAX_INT64 - 1 <= n <= MAX_INT64

  /** An IEEE double: a finite value, or an infinity or NaN. */
  datatype Double = Finite(value: real) | NonFinite

  datatype LogicalValue =
    | Null
    | String(text: string)
    | Boolean(truth: bool)
    | Int64(integer: Integer64)
    | Number(number: Double)
    | Bytes(bytes: seq<bv8>)
    | Json(document: string)

  /** Parameter bindings by name. Client names never start with the server prefix. */
  type Bindings = map<string, LogicalValue>

  /** The largest integer every double can tell from its neighbours: 2^53 - 1. */
  const MAX_SAFE_INTEGER: int := 9_007_199_254_740_991

  function Max(a: nat, b: nat): nat {
    if a < b then b else a
  }

  const SERVER_PARAMETER_PREFIX := "__policysql_"

  /** Every entry of `small` is in `big` with the same value. */
  ghost predicate Within<K(!new), V>(small: map<K, V>, big: map<K, V>) {
    forall k :: k in small ==> k in big && big[k] == small[k]
  }

  lemma WithinTransitive<K(!new), V>(a: map<K, V>, b: map<K, V>, c: map<K, V>)
    requires Within(a, b) && Within(b, c)
    ensures Within(a, c)
  {
  }

  /** A lower-case letter followed by lower-case letters, digits and underscores. */
  predicate CanonicalKey(text: string) {
    && text != []
    && 'a' <= text[0] <= 'z'
    && forall i | 1 <= i < |text| :: 'a' <= text[i] <= 'z' || '0' <= text[i] <= '9' || text[i] == '_'
  }

  /** The decimal digits of a natural number, as Rust's `to_string` prints them. */
  function Decimal(n: nat): (text: string)
    ensures |text| > 0
    ensures forall i | 0 <= i < |text| :: '0' <= text[i] <= '9'
  {
    if n < 10 then [Digit(n)] else Decimal(n / 10) + [Digit(n % 10)]
  }

  function Digit(n: nat): (c: char)
    requires n < 10
    ensures '0' <= c <= '9'
  {
    ('0' as int + n) as char
  }

  /** The value of a run of decimal digits. */
  function DecimalValue(text: string): nat
    requires forall i | 0 <= i < |text| :: '0' <= text[i] <= '9'
  {
    if text == [] then 0
    else 10 * DecimalValue(text[..|text| - 1]) + (text[|text| - 1] as int - '0' as int)
  }

  lemma {:induction false} DecimalRoundTrip(n: nat)
    ensures DecimalValue(Decimal(n)) == n
  {
    var text := Decimal(n);
    if n >= 10 {
      DecimalRoundTrip(n / 10);
      assert text[..|text| - 1] == Decimal(n / 10);
    } else {
      assert text[..|text| - 1] == [];
    }
  }

  lemma DecimalInjective(m: nat, n: nat)
    requires Decimal(m) == Decimal(n)
    ensures m == n
  {
    DecimalRoundTrip(m);
    DecimalRoundTrip(n);
  }

  /** Dropping a common prefix: equal concatenations with equal heads have equal tails. */
  lemma SamePrefix<T>(prefix: seq<T>, a: seq<T>, b: seq<T>)
    requires prefix + a == prefix + b
    ensures a == b
  {
    assert (prefix + a)[|prefix|..] == a;
    assert (prefix + b)[|prefix|..] == b;
  }
}
