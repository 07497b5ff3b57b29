/**
  * SQL string tokens: the decoder of crates/policysql-parser/src/lib.rs and the printer
  * of crates/policysql-sqlite/src/lib.rs are inverse to each other on NUL-free text.
  */
module Tokens {
  import opened Core

  const QUOTE := '\''
  const NUL := '\0'

  /** Every quote doubled. */
  function Doubled(value: string): string {
    if value == [] then [] else (if value[0] == QUOTE then [QUOTE, QUOTE] else [value[0]]) + Doubled(value[1..])
  }

  /** A value as a single-quoted token. */
  function StringToken(value: string): string {
    [QUOTE] + Doubled(value) + [QUOTE]
  }

  /** The characters between the outer quotes, with no stray quote and no NUL. */
  function Undoubled(inner: string): Option<string> {
    if inner == [] then Some([])
    else if inner[0] == NUL then None
    else if inner[0] != QUOTE then Before([inner[0]], Undoubled(inner[1..]))
    else if |inner| > 1 && inner[1] == QUOTE then Before([QUOTE], Undoubled(inner[2..]))
    else None
  }

  function Before(head: string, rest: Option<string>): Option<string> {
    if rest.None? then None else Some(head + rest.value)
  }

  function DecodeToken(token: string): Option<string> {
    if |token| >= 2 && token[0] == QUOTE && token[|token| - 1] == QUOTE then Undoubled(token[1..|token| - 1]) else None
  }

  lemma OneDecodes(c: char, rest: string)
    requires c != NUL
    ensures Undoubled((if c == QUOTE then [QUOTE, QUOTE] else [c]) + rest) == Before([c], Undoubled(rest))
  {
    if c == QUOTE {
      assert ([QUOTE, QUOTE] + rest)[2..] == rest;
    } else {
      assert ([c] + rest)[1..] == rest;
    }
  }

  lemma {:induction false} DoubledDecodes(value: string)
    requires NUL !in value
    ensures Undoubled(Doubled(value)) == Some(value)
  {
    if value != [] {
      assert NUL !in value[1..];
      DoubledDecodes(value[1..]);
      OneDecodes(value[0], Doubled(value[1..]));
      assert value == [value[0]] + value[1..];
    }
  }

  lemma {:induction false} UndoubledEncodes(inner: string)
    requires Undoubled(inner).Some?
    ensures Doubled(Undoubled(inner).value) == inner && NUL !in Undoubled(inner).value
    decreases |inner|
  {
    if inner != [] {
      var value := Undoubled(inner).value;
      if inner[0] != QUOTE {
        UndoubledEncodes(inner[1..]);
        assert value[1..] == Undoubled(inner[1..]).value;
        assert inner == [inner[0]] + inner[1..];
      } else {
        UndoubledEncodes(inner[2..]);
        assert value[1..] == Undoubled(inner[2..]).value;
        assert inner == [QUOTE, QUOTE] + inner[2..];
      }
    }
  }

  /** A token decodes to a value exactly when it is that value's token and the value has no NUL. */
  lemma TokenRoundTrip(token: string, value: string)
    ensures DecodeToken(token) == Some(value) <==> token == StringToken(value) && NUL !in value
  {
    if token == StringToken(value) && NUL !in value {
      DoubledDecodes(value);
      Inner(Doubled(value));
    }
    if DecodeToken(token) == Some(value) {
      UndoubledEncodes(token[1..|token| - 1]);
    }
  }

  lemma Inner(text: string)
    ensures ([QUOTE] + text + [QUOTE])[1..|text| + 1] == text
  {
  }

  lemma BeforeNothing(rest: Option<string>)
    ensures Before([], rest) == rest
  {
    assert rest.Some? ==> [] + rest.value == rest.value;
  }

  lemma BeforeTwice(a: string, b: string, rest: Option<string>)
    ensures Before(a, Before(b, rest)) == Before(a + b, rest)
  {
    assert rest.Some? ==> a + (b + rest.value) == a + b + rest.value;
  }

  /** The decoder's loop over characters. */
  method DecodeStringLiteral(token: string) returns (r: Option<string>)
    ensures r == DecodeToken(token)
  {
    if |token| < 2 || token[0] != QUOTE || token[|token| - 1] != QUOTE { return None; }
    var inner := token[1..|token| - 1];
    var value := [];
    var i := 0;
    assert inner[0..] == inner;
    BeforeNothing(Undoubled(inner));
    while i < |inner|
      invariant i <= |inner|
      invariant Undoubled(inner) == Before(value, Undoubled(inner[i..]))
    {
      var c := inner[i];
      ghost var rest := inner[i..];
      assert rest[0] == c && rest[1..] == inner[i + 1..];
      i := i + 1;
      if c == NUL { return None; }
      if c == QUOTE {
        if i == |inner| || inner[i] != QUOTE { return None; }
        assert rest[1] == QUOTE && rest[2..] == inner[i + 1..];
        i := i + 1;
      }
      BeforeTwice(value, [c], Undoubled(inner[i..]));
      value := value + [c];
    }
    assert inner[i..] == [] && value + [] == value;
    return Some(value);
  }
}
