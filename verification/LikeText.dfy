/**
  * The reference matcher works on UTF-8 bytes; the database's LIKE works on characters. The two
  * agree on every pattern exactly for ASCII values, and on every value for patterns without `_`.
  */
module LikeText {
  import opened Text
  import opened KeyOrder
  import opened Like

  /** `%` matches any run of characters, `_` one character, anything else itself. */
  predicate TextMatches(value: string, pattern: string)
    decreases |value| + |pattern|
  {
    if pattern == [] then value == []
    else if pattern[0] == '%' then
      TextMatches(value, pattern[1..]) || (value != [] && TextMatches(value[1..], pattern))
    else
      value != [] && (pattern[0] == '_' || pattern[0] == value[0]) && TextMatches(value[1..], pattern[1..])
  }

  predicate Ascii(text: string) {
    forall i | 0 <= i < |text| :: text[i] as int < 0x80
  }

  lemma AsciiCons(text: string)
    requires text != []
    ensures Ascii(text) <==> text[0] as int < 0x80 && Ascii(text[1..])
  {
    assert text == [text[0]] + text[1..];
    assert forall i | 0 < i < |text| :: text[i] == text[1..][i - 1];
  }

  /** A condition on the inputs alone under which bytes and characters cannot differ. */
  predicate SameUnits(value: string, pattern: string) {
    Ascii(value) || '_' !in pattern
  }

  // ----- Bytes of one character -----

  predicate Continuation(b: Byte) {
    0x80 <= b < 0xC0
  }

  /** A character's bytes: one below 0x80, or a leading byte and continuation bytes. */
  lemma Utf8Form(c: char)
    ensures c as int < 0x80 ==> Utf8(c) == [c as int]
    ensures c as int >= 0x80 ==> Utf8(c)[0] >= 0xC0 && forall b | b in Utf8(c)[1..] :: Continuation(b)
  {
  }

  lemma Utf8Cons(text: string)
    requires text != []
    ensures Utf8Bytes(text) == Utf8(text[0]) + Utf8Bytes(text[1..])
  {
  }

  /** Bytes that are not wildcards match only themselves. */
  lemma {:induction false} LiteralPrefix(value: Bytes, head: Bytes, rest: Bytes)
    requires PERCENT !in head && UNDERSCORE !in head
    ensures Matches(value, head + rest) <==> head <= value && Matches(value[|head|..], rest)
    decreases |head|
  {
    if head == [] {
      assert head + rest == rest && value[|head|..] == value;
    } else {
      assert (head + rest)[1..] == head[1..] + rest && (head + rest)[0] == head[0];
      if value != [] {
        LiteralPrefix(value[1..], head[1..], rest);
        if head[0] == value[0] && head[1..] <= value[1..] {
          assert head == [head[0]] + head[1..] && value == [value[0]] + value[1..];
        }
        if head <= value {
          assert head[1..] <= value[1..];
          assert value[1..][|head| - 1..] == value[|head|..];
        }
      }
    }
  }

  lemma PrefixIsChar(c: char, d: char, rest: Bytes)
    ensures Utf8(c) <= Utf8(d) + rest <==> c == d
  {
    if c < d {
      CharOrder(c, d);
      var k := FirstDifference(c as int, d as int);
      assert (Utf8(d) + rest)[k] == Utf8(d)[k];
    } else if d < c {
      CharOrder(d, c);
      var k := FirstDifference(d as int, c as int);
      assert (Utf8(d) + rest)[k] == Utf8(d)[k];
    }
  }

  // ----- Runs may begin inside a character only if they begin before it -----

  /** A `%` that could skip a continuation byte may as well have skipped it already. */
  lemma {:induction false} SkipContinuation(b: Byte, value: Bytes, pattern: string)
    requires Continuation(b) && pattern != [] && pattern[0] == '%' && '_' !in pattern
    ensures Matches([b] + value, Utf8Bytes(pattern)) == Matches(value, Utf8Bytes(pattern))
    decreases |pattern|
  {
    var rest := pattern[1..];
    Utf8Cons(pattern);
    var bytes := Utf8Bytes(rest);
    assert Utf8Bytes(pattern)[0] == PERCENT && Utf8Bytes(pattern)[1..] == bytes;
    assert ([b] + value)[1..] == value;
    assert Matches([b] + value, Utf8Bytes(pattern))
        == (Matches([b] + value, bytes) || Matches(value, Utf8Bytes(pattern)));
    assert Matches(value, bytes) ==> Matches(value, Utf8Bytes(pattern));
    if rest != [] {
      if rest[0] == '%' {
        SkipContinuation(b, value, rest);
      } else {
        Utf8Cons(rest);
        Utf8Form(rest[0]);
        assert bytes[0] == Utf8(rest[0])[0];
        assert rest[0] in pattern;
      }
    }
  }

  lemma {:induction false} SkipTail(tail: Bytes, value: Bytes, pattern: string)
    requires (forall b | b in tail :: Continuation(b)) && pattern != [] && pattern[0] == '%' && '_' !in pattern
    ensures Matches(tail + value, Utf8Bytes(pattern)) == Matches(value, Utf8Bytes(pattern))
    decreases |tail|
  {
    if tail == [] {
      assert tail + value == value;
    } else {
      assert tail + value == [tail[0]] + (tail[1..] + value);
      SkipContinuation(tail[0], tail[1..] + value, pattern);
      SkipTail(tail[1..], value, pattern);
    }
  }

  /** After `%`, leaving out one byte of the value is leaving out its whole first character. */
  lemma SkipCharacter(value: string, pattern: string)
    requires value != [] && pattern != [] && pattern[0] == '%' && SameUnits(value, pattern)
    ensures Matches(Utf8Bytes(value)[1..], Utf8Bytes(pattern)) == Matches(Utf8Bytes(value[1..]), Utf8Bytes(pattern))
  {
    Utf8Cons(value);
    Utf8Form(value[0]);
    var tail, rest := Utf8(value[0])[1..], Utf8Bytes(value[1..]);
    assert Utf8Bytes(value)[1..] == tail + rest;
    if value[0] as int < 0x80 {
      assert tail + rest == rest;
    } else {
      SkipTail(tail, rest, pattern);
    }
  }

  // ----- Agreement -----

  lemma SameUnitsTails(value: string, pattern: string)
    requires SameUnits(value, pattern)
    ensures pattern != [] ==> SameUnits(value, pattern[1..])
    ensures value != [] ==> SameUnits(value[1..], pattern)
    ensures value != [] && pattern != [] ==> SameUnits(value[1..], pattern[1..])
  {
    if value != [] {
      AsciiCons(value);
    }
  }

  lemma {:induction false} BytesAreText(value: string, pattern: string)
    requires SameUnits(value, pattern)
    ensures Matches(Utf8Bytes(value), Utf8Bytes(pattern)) == TextMatches(value, pattern)
    decreases |value| + |pattern|
  {
    SameUnitsTails(value, pattern);
    if pattern == [] {
      assert value != [] ==> Utf8Bytes(value) != [];
    } else if pattern[0] == '%' {
      RunAgrees(value, pattern);
    } else if pattern[0] == '_' {
      OneAgrees(value, pattern);
    } else {
      Utf8Cons(pattern);
      Utf8Form(pattern[0]);
      var head := Utf8(pattern[0]);
      assert PERCENT !in head && UNDERSCORE !in head by { assert head == [head[0]] + head[1..]; }
      LiteralPrefix(Utf8Bytes(value), head, Utf8Bytes(pattern[1..]));
      if value != [] {
        Utf8Cons(value);
        PrefixIsChar(pattern[0], value[0], Utf8Bytes(value[1..]));
        BytesAreText(value[1..], pattern[1..]);
      }
    }
  }

  lemma {:induction false} RunAgrees(value: string, pattern: string)
    requires pattern != [] && pattern[0] == '%' && SameUnits(value, pattern)
    ensures Matches(Utf8Bytes(value), Utf8Bytes(pattern)) == TextMatches(value, pattern)
    decreases |value| + |pattern|, 0
  {
    SameUnitsTails(value, pattern);
    Utf8Cons(pattern);
    assert Utf8Bytes(pattern)[0] == PERCENT && Utf8Bytes(pattern)[1..] == Utf8Bytes(pattern[1..]);
    BytesAreText(value, pattern[1..]);
    if value != [] {
      SkipCharacter(value, pattern);
      BytesAreText(value[1..], pattern);
    }
  }

  lemma {:induction false} OneAgrees(value: string, pattern: string)
    requires pattern != [] && pattern[0] == '_' && SameUnits(value, pattern)
    ensures Matches(Utf8Bytes(value), Utf8Bytes(pattern)) == TextMatches(value, pattern)
    decreases |value| + |pattern|, 0
  {
    SameUnitsTails(value, pattern);
    Utf8Cons(pattern);
    assert Utf8Bytes(pattern)[0] == UNDERSCORE && Utf8Bytes(pattern)[1..] == Utf8Bytes(pattern[1..]);
    if value != [] {
      assert pattern[0] in pattern;
      Utf8Cons(value);
      Utf8Form(value[0]);
      assert Utf8Bytes(value)[1..] == Utf8Bytes(value[1..]);
      BytesAreText(value[1..], pattern[1..]);
    }
  }

  // ----- The exact values -----

  function Underscores(n: nat): (pattern: string)
    ensures |pattern| == n
  {
    if n == 0 then [] else ['_'] + Underscores(n - 1)
  }

  lemma {:induction false} UnderscoresMatch(value: string)
    ensures TextMatches(value, Underscores(|value|))
  {
    if value != [] {
      assert Underscores(|value|)[1..] == Underscores(|value| - 1);
      UnderscoresMatch(value[1..]);
    }
  }

  /** `n` underscores match exactly the byte strings of length `n`. */
  lemma {:induction false} UnderscoresCount(value: Bytes, n: nat)
    ensures Matches(value, Utf8Bytes(Underscores(n))) <==> |value| == n
    decreases n
  {
    if n > 0 {
      var pattern := Underscores(n);
      Utf8Cons(pattern);
      assert pattern[1..] == Underscores(n - 1);
      assert Utf8Bytes(pattern)[0] == UNDERSCORE && Utf8Bytes(pattern)[1..] == Utf8Bytes(Underscores(n - 1));
      if value != [] {
        UnderscoresCount(value[1..], n - 1);
      }
    }
  }

  lemma {:induction false} AsciiLength(value: string)
    ensures |Utf8Bytes(value)| >= |value|
    ensures |Utf8Bytes(value)| == |value| <==> Ascii(value)
  {
    if value != [] {
      AsciiLength(value[1..]);
      Utf8Cons(value);
      Utf8Form(value[0]);
      AsciiCons(value);
    }
  }

  /** The byte matcher is the character matcher on a value, for every pattern, exactly when the value is ASCII. */
  lemma BytesAreTextExactly(value: string)
    ensures (forall pattern: string :: Matches(Utf8Bytes(value), Utf8Bytes(pattern)) == TextMatches(value, pattern))
       <==> Ascii(value)
  {
    if Ascii(value) {
      forall pattern: string
        ensures Matches(Utf8Bytes(value), Utf8Bytes(pattern)) == TextMatches(value, pattern)
      {
        BytesAreText(value, pattern);
      }
    } else {
      UnderscoresMatch(value);
      UnderscoresCount(Utf8Bytes(value), |value|);
      AsciiLength(value);
    }
  }
}
