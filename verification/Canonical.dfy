/**
  * Canonical JSON is a normal form: printing the normal form is inverted by the strict
  * parser, so two values have the same canonical text exactly when they are equivalent.
  */
module Canonical {
  import opened Core
  import opened Json
  import opened JsonText
  import Text

  // ---- What the parser produces and the writer is given.

  predicate GoodNumber(f: Floats, x: Number) {
    match x
    case Whole(n) => MIN_I64 <= n <= MAX_U64
    case _ => f.GoodDouble(Some(x))
  }

  predicate WellFormed(f: Floats, v: Value) {
    match v
    case Num(x) => GoodNumber(f, x)
    case Arr(items) => forall i :: 0 <= i < |items| ==> WellFormed(f, items[i])
    case Obj(members) => UniqueKeys(members) && forall i :: 0 <= i < |members| ==> WellFormed(f, members[i].value)
    case _ => true
  }

  /** Values in normal form: integers spelled as integers, members strictly ordered. */
  predicate Normal(f: Floats, v: Value) {
    match v
    case Num(x) => GoodNumber(f, x) && !x.SafeDouble?
    case Arr(items) => forall i :: 0 <= i < |items| ==> Normal(f, items[i])
    case Obj(members) => Strict(members) && forall i :: 0 <= i < |members| ==> Normal(f, members[i].value)
    case _ => true
  }

  /** Levels of arrays and objects. */
  function Depth(v: Value): nat {
    match v
    case Arr(items) => 1 + DepthItems(items)
    case Obj(members) => 1 + DepthMembers(members)
    case _ => 0
  }

  function DepthItems(items: seq<Value>): nat {
    if items == [] then 0 else assert items decreases to items[0]; Max(Depth(items[0]), DepthItems(items[1..]))
  }

  function DepthMembers(ms: seq<Member>): nat {
    if ms == [] then 0 else assert ms decreases to ms[0]; Max(Depth(ms[0].value), DepthMembers(ms[1..]))
  }

  lemma {:induction false} WellFormedIsDuplicateFree(f: Floats, v: Value)
    requires WellFormed(f, v)
    ensures DuplicateFree(v)
  {
    match v
    case Arr(items) =>
      forall i | 0 <= i < |items| ensures DuplicateFree(items[i]) { WellFormedIsDuplicateFree(f, items[i]); }
    case Obj(members) =>
      forall i | 0 <= i < |members| ensures DuplicateFree(members[i].value) {
        WellFormedIsDuplicateFree(f, members[i].value);
      }
    case _ =>
  }

  lemma {:induction false} NormIsNormal(f: Floats, v: Value)
    requires WellFormed(f, v)
    ensures Normal(f, Norm(v))
  {
    match v
    case Arr(items) =>
      forall i | 0 <= i < |items| ensures Normal(f, NormEach(items)[i]) {
        NormIsNormal(f, items[i]);
        NormEachAt(items, i);
      }
    case Obj(members) =>
      var named := NormMembers(members);
      NormKeysUnique(members);
      SortKeeps(named);
      forall i | 0 <= i < |Sort(named)| ensures Normal(f, Sort(named)[i].value) {
        SortMembers(named);
        assert Sort(named)[i] in named;
        var j :| 0 <= j < |named| && named[j] == Sort(named)[i];
        NormMembersAt(members, j);
        NormIsNormal(f, members[j].value);
      }
    case _ =>
  }

  lemma {:induction false} InsertDepth(m: Member, ms: seq<Member>)
    ensures DepthMembers(Insert(m, ms)) == Max(Depth(m.value), DepthMembers(ms))
    decreases |ms|
  {
    if ms == [] || !Less(ms[0].key, m.key) {
      assert Insert(m, ms)[1..] == ms;
    } else {
      InsertDepth(m, ms[1..]);
      assert Insert(m, ms)[1..] == Insert(m, ms[1..]);
    }
  }

  lemma {:induction false} SortDepth(ms: seq<Member>)
    ensures DepthMembers(Sort(ms)) == DepthMembers(ms)
    decreases |ms|
  {
    if ms != [] {
      SortDepth(ms[1..]);
      InsertDepth(ms[0], Sort(ms[1..]));
    }
  }

  lemma {:induction false} NormDepth(v: Value)
    ensures Depth(Norm(v)) == Depth(v)
  {
    match v
    case Arr(items) => NormDepthItems(items);
    case Obj(members) =>
      SortDepth(NormMembers(members));
      NormDepthMembers(members);
    case _ =>
  }

  lemma {:induction false} NormDepthItems(items: seq<Value>)
    ensures DepthItems(NormEach(items)) == DepthItems(items)
  {
    if items != [] {
      assert items decreases to items[0];
      NormDepth(items[0]);
      NormDepthItems(items[1..]);
      assert NormEach(items)[1..] == NormEach(items[1..]);
    }
  }

  lemma {:induction false} NormDepthMembers(ms: seq<Member>)
    ensures DepthMembers(NormMembers(ms)) == DepthMembers(ms)
  {
    if ms != [] {
      assert ms decreases to ms[0];
      NormDepth(ms[0].value);
      NormDepthMembers(ms[1..]);
      assert NormMembers(ms)[1..] == NormMembers(ms[1..]);
    }
  }

  // ---- Strings.

  lemma EscapeReads(c: char, rest: string)
    ensures Escape(c)[0] >= ' ' && Escape(c)[0] != '\"'
    ensures Escape(c)[0] != '\\' ==> Escape(c) == [c]
    ensures Escape(c)[0] == '\\' ==> ReadEscape((Escape(c) + rest)[1..]) == Done(c, rest)
  {
    var text := Escape(c) + rest;
    if Escape(c)[0] == '\\' {
      if |Escape(c)| == 2 {
        assert text[1..] == [Escape(c)[1]] + rest;
      } else {
        var high, low := HexDigit(c as int / 16), HexDigit(c as int % 16);
        assert text[1..] == "u00" + [high, low] + rest;
        assert text[1..][1..] == "00" + [high, low] + rest;
        assert ("00" + [high, low] + rest)[4..] == rest;
      }
    }
  }

  lemma CharReads(c: char, after: string, text: string, rest: string)
    requires ReadChars(after) == Done(text, rest)
    ensures ReadChars(Escape(c) + after) == Done([c] + text, rest)
  {
    var s := Escape(c) + after;
    EscapeReads(c, after);
    assert s[0] == Escape(c)[0];
    if Escape(c)[0] != '\\' { assert s[1..] == after; }
  }

  lemma {:induction false} CharsRead(text: string, rest: string)
    ensures ReadChars(Escaped(text) + "\"" + rest) == Done(text, rest)
    decreases |text|
  {
    var s := Escaped(text) + "\"" + rest;
    if text == [] {
      assert s == "\"" + rest && s[1..] == rest;
    } else {
      var after := Escaped(text[1..]) + "\"" + rest;
      CharsRead(text[1..], rest);
      CharReads(text[0], after, text[1..], rest);
      assert s == Escape(text[0]) + after;
      assert text == [text[0]] + text[1..];
    }
  }

  // ---- Numbers.

  lemma {:induction false} NoLeadingZero(n: nat)
    ensures |Decimal(n)| > 1 ==> Decimal(n)[0] != '0'
    ensures n > 0 ==> Decimal(n)[0] != '0'
    ensures n == 0 ==> Decimal(n) == "0"
  {
    if n >= 10 { NoLeadingZero(n / 10); }
  }

  lemma SignedReads(n: int)
    ensures IntegerLexeme(Signed(n)) && IntegerValue(Signed(n)) == n
    ensures Signed(n) != "-0"
    ensures forall i | 0 <= i < |Signed(n)| :: Signed(n)[i] == '-' || IsDigit(Signed(n)[i])
  {
    var size := if n < 0 then -n else n;
    NoLeadingZero(size);
    DecimalRoundTrip(size);
    if n < 0 {
      assert Signed(n)[1..] == Decimal(size);
      assert Signed(n)[1] != '0';
    }
  }

  lemma {:induction false} FirstNone(t: string, chars: string)
    requires forall i | 0 <= i < |t| :: t[i] !in chars
    ensures First(t, chars) == |t|
  {
    if t != [] { FirstNone(t[1..], chars); }
  }

  lemma WholeReads(f: Floats, n: int)
    requires MIN_I64 <= n <= MAX_U64
    ensures ReadNumber(f, Signed(n)) == Some(Whole(n))
    ensures Signed(n) != [] && forall i | 0 <= i < |Signed(n)| :: Signed(n)[i] == '-' || IsDigit(Signed(n)[i])
  {
    SignedReads(n);
    var t := Signed(n);
    IntegerIsNumber(t);
  }

  lemma IntegerIsNumber(t: string)
    requires IntegerLexeme(t) && forall i | 0 <= i < |t| :: t[i] == '-' || IsDigit(t[i])
    ensures NumberLexeme(t)
  {
    FirstNone(t, ".eE");
    assert t[..|t|] == t && t[|t|..] == [];
  }

  lemma NumeralReads(f: Floats, x: Number)
    requires GoodNumber(f, x) && !x.SafeDouble?
    ensures ReadNumber(f, Numeral(x)) == Some(x)
    ensures Numeral(x) != [] && (Numeral(x)[0] == '-' || IsDigit(Numeral(x)[0]))
    ensures forall i | 0 <= i < |Numeral(x)| :: IsNumberChar(Numeral(x)[i])
  {
    if x.Whole? { WholeReads(f, x.n); }
  }

  lemma {:induction false} RunStops(t: string, rest: string)
    requires forall i | 0 <= i < |t| :: IsNumberChar(t[i])
    requires Stops(rest)
    ensures NumberRun(t + rest) == |t|
  {
    if t == [] {
      assert t + rest == rest;
    } else {
      assert (t + rest)[1..] == t[1..] + rest;
      RunStops(t[1..], rest);
    }
  }

  /** Text that cannot prolong a number. */
  predicate Stops(rest: string) {
    rest == [] || !IsNumberChar(rest[0])
  }

  lemma LexemeReads(f: Floats, t: string, x: Number, rest: string)
    requires t != [] && (t[0] == '-' || IsDigit(t[0])) && (forall i | 0 <= i < |t| :: IsNumberChar(t[i]))
    requires Stops(rest) && ReadNumber(f, t) == Some(x)
    ensures ReadScalar(f, t + rest) == Done(Num(x), rest)
  {
    var s := t + rest;
    RunStops(t, rest);
    assert s[..|t|] == t && s[|t|..] == rest;
  }

  lemma NumberReads(f: Floats, x: Number, rest: string, room: nat)
    requires GoodNumber(f, x) && !x.SafeDouble? && Stops(rest)
    ensures ReadValue(f, Numeral(x) + rest, room) == Done(Num(x), rest)
  {
    NumeralReads(f, x);
    LexemeReads(f, Numeral(x), x, rest);
    assert (Numeral(x) + rest)[0] == Numeral(x)[0];
  }

  // ---- Values.

  lemma SortStrict(ms: seq<Member>)
    requires Strict(ms)
    ensures Sort(ms) == ms && NeighboursDiffer(ms)
  {
    forall i, j | 0 <= i < j < |ms| ensures ms[i].key != ms[j].key { LessTotal(ms[i].key, ms[j].key); }
    SortUnique(ms);
    SortMembers(ms);
    StrictSame(Sort(ms), ms);
    DuplicateScan(ms);
  }

  lemma PlainStarts(f: Floats, v: Value)
    requires Normal(f, v)
    ensures Plain(v) != [] && Plain(v)[0] !in " \t\n\r]},:"
  {
    if v.Num? { NumeralReads(f, v.number); }
  }

  lemma LastItem(f: Floats, s: string, v: Value, rest: string, room: nat)
    requires ReadValue(f, s, room) == Done(v, "]" + rest)
    ensures ReadItems(f, s, room) == Done([v], rest)
  {
    assert SkipSpace("]" + rest) == "]" + rest && ("]" + rest)[1..] == rest;
  }

  lemma NextItem(f: Floats, s: string, v: Value, next: string, vs: seq<Value>, rest: string, room: nat)
    requires ReadValue(f, s, room) == Done(v, "," + next)
    requires ReadItems(f, next, room) == Done(vs, rest)
    ensures ReadItems(f, s, room) == Done([v] + vs, rest)
  {
    assert SkipSpace("," + next) == "," + next && ("," + next)[1..] == next;
  }

  lemma ArrayReads(f: Floats, t: string, items: seq<Value>, rest: string, room: nat)
    requires t != [] && t[0] !in " \t\n\r]" && ReadItems(f, t, room) == Done(items, rest)
    ensures ReadValue(f, "[" + t, room + 1) == Done(Arr(items), rest)
  {
    assert SkipSpace("[" + t) == "[" + t && ("[" + t)[1..] == t && SkipSpace(t) == t;
    assert ReadArray(f, t, room) == Done(Arr(items), rest);
  }

  lemma MemberReads(f: Floats, q: string, key: string, w: string, v: Value, rest: string, room: nat)
    requires ReadChars(q) == Done(key, ":" + w) && ReadValue(f, w, room) == Done(v, rest)
    ensures ReadMember(f, "\"" + q, room) == Done(Member(key, v), rest)
  {
    assert SkipSpace("\"" + q) == "\"" + q && ("\"" + q)[1..] == q;
    assert SkipSpace(":" + w) == ":" + w && (":" + w)[1..] == w;
  }

  lemma LastMember(f: Floats, s: string, m: Member, rest: string, room: nat)
    requires ReadMember(f, s, room) == Done(m, "}" + rest)
    ensures ReadMembers(f, s, room) == Done([m], rest)
  {
    assert SkipSpace("}" + rest) == "}" + rest && ("}" + rest)[1..] == rest;
  }

  lemma NextMember(f: Floats, s: string, m: Member, next: string, ms: seq<Member>, rest: string, room: nat)
    requires ReadMember(f, s, room) == Done(m, "," + next)
    requires ReadMembers(f, next, room) == Done(ms, rest)
    ensures ReadMembers(f, s, room) == Done([m] + ms, rest)
  {
    assert SkipSpace("," + next) == "," + next && ("," + next)[1..] == next;
  }

  lemma ObjectReads(f: Floats, t: string, ms: seq<Member>, rest: string, room: nat)
    requires t != [] && t[0] == '\"' && ReadMembers(f, t, room) == Done(ms, rest) && Strict(ms)
    ensures ReadValue(f, "{" + t, room + 1) == Done(Obj(ms), rest)
  {
    SortStrict(ms);
    assert SkipSpace("{" + t) == "{" + t && ("{" + t)[1..] == t && SkipSpace(t) == t;
    assert ReadObject(f, t, room) == Done(Obj(ms), rest);
  }

  lemma EmptyReads(f: Floats, rest: string, room: nat)
    ensures ReadValue(f, "[" + ("]" + rest), room + 1) == Done(Arr([]), rest)
    ensures ReadValue(f, "{" + ("}" + rest), room + 1) == Done(Obj([]), rest)
  {
    var t, u := "]" + rest, "}" + rest;
    assert t[1..] == rest && SkipSpace(t) == t && ("[" + t)[1..] == t && SkipSpace("[" + t) == "[" + t;
    assert u[1..] == rest && SkipSpace(u) == u && ("{" + u)[1..] == u && SkipSpace("{" + u) == "{" + u;
    assert ReadArray(f, t, room) == Done(Arr([]), rest);
    assert ReadObject(f, u, room) == Done(Obj([]), rest);
  }

  lemma WordReads(f: Floats, rest: string, room: nat)
    ensures ReadValue(f, "null" + rest, room) == Done(Value.Null, rest)
    ensures ReadValue(f, "true" + rest, room) == Done(Bool(true), rest)
    ensures ReadValue(f, "false" + rest, room) == Done(Bool(false), rest)
  {
    assert SkipSpace("null" + rest) == "null" + rest && ("null" + rest)[4..] == rest;
    assert SkipSpace("true" + rest) == "true" + rest && ("true" + rest)[4..] == rest;
    assert SkipSpace("false" + rest) == "false" + rest && ("false" + rest)[5..] == rest;
  }

  lemma StringReads(f: Floats, text: string, rest: string, room: nat)
    ensures ReadValue(f, Quoted(text) + rest, room) == Done(Str(text), rest)
  {
    var q := Escaped(text) + "\"" + rest;
    CharsRead(text, rest);
    assert Quoted(text) + rest == "\"" + q;
    assert SkipSpace("\"" + q) == "\"" + q && ("\"" + q)[1..] == q;
  }

  lemma Grouped(a: string, b: string, c: string)
    ensures a + b + c == a + (b + c)
  {
  }

  lemma Enclosed(open: string, inner: string, close: string, rest: string)
    ensures open + inner + close + rest == open + (inner + close + rest)
  {
  }

  lemma Regrouped(first: string, separator: string, others: string, close: string, rest: string)
    ensures first + separator + others + close + rest == first + (separator + (others + close + rest))
  {
  }

  lemma ItemsText(items: seq<Value>, rest: string)
    requires items != []
    ensures PlainItems(items) + "]" + rest ==
            if |items| == 1 then Plain(items[0]) + ("]" + rest)
            else Plain(items[0]) + ("," + (PlainItems(items[1..]) + "]" + rest))
  {
    if |items| > 1 { Regrouped(Plain(items[0]), ",", PlainItems(items[1..]), "]", rest); }
  }

  lemma MembersText(ms: seq<Member>, rest: string)
    requires ms != []
    ensures PlainMembers(ms) + "}" + rest ==
            if |ms| == 1 then PlainMember(ms[0]) + ("}" + rest)
            else PlainMember(ms[0]) + ("," + (PlainMembers(ms[1..]) + "}" + rest))
  {
    if |ms| > 1 { Regrouped(PlainMember(ms[0]), ",", PlainMembers(ms[1..]), "}", rest); }
  }

  lemma MemberText(m: Member, rest: string)
    ensures PlainMember(m) + rest == "\"" + (Escaped(m.key) + "\"" + (":" + (Plain(m.value) + rest)))
    ensures PlainMember(m)[0] == '\"'
  {
  }

  /** The parser reads back what the writer prints for a value in normal form, and stops where it ends. */
  lemma {:induction false} PlainReads(f: Floats, v: Value, rest: string, room: nat)
    requires Normal(f, v) && Depth(v) <= room && Stops(rest)
    ensures ReadValue(f, Plain(v) + rest, room) == Done(v, rest)
    decreases v
  {
    match v
    case Null => WordReads(f, rest, room);
    case Bool(b) => WordReads(f, rest, room);
    case Num(x) => NumberReads(f, x, rest, room);
    case Str(text) => StringReads(f, text, rest, room);
    case Arr(items) =>
      Enclosed("[", PlainItems(items), "]", rest);
      ArrayPlainReads(f, items, PlainItems(items) + "]" + rest, rest, room);
    case Obj(members) =>
      Enclosed("{", PlainMembers(members), "}", rest);
      ObjectPlainReads(f, members, PlainMembers(members) + "}" + rest, rest, room);
  }

  lemma {:induction false} ArrayPlainReads(f: Floats, items: seq<Value>, body: string, rest: string, room: nat)
    requires (forall i :: 0 <= i < |items| ==> Normal(f, items[i])) && DepthItems(items) < room
    requires body == PlainItems(items) + "]" + rest
    ensures ReadValue(f, "[" + body, room) == Done(Arr(items), rest)
    decreases items, 1
  {
    if items == [] {
      assert body == "]" + rest;
      EmptyReads(f, rest, room - 1);
    } else {
      ItemsRead(f, items, rest, room - 1);
      ArrayReads(f, body, items, rest, room - 1);
    }
  }

  lemma {:induction false} ObjectPlainReads(f: Floats, members: seq<Member>, body: string, rest: string, room: nat)
    requires Strict(members) && (forall i :: 0 <= i < |members| ==> Normal(f, members[i].value))
    requires DepthMembers(members) < room
    requires body == PlainMembers(members) + "}" + rest
    ensures ReadValue(f, "{" + body, room) == Done(Obj(members), rest)
    decreases members, 1
  {
    if members == [] {
      assert body == "}" + rest;
      EmptyReads(f, rest, room - 1);
    } else {
      MembersRead(f, members, rest, room - 1);
      ObjectReads(f, body, members, rest, room - 1);
    }
  }

  lemma {:induction false} ItemsRead(f: Floats, items: seq<Value>, rest: string, room: nat)
    requires items != [] && (forall i :: 0 <= i < |items| ==> Normal(f, items[i])) && DepthItems(items) <= room
    ensures ReadItems(f, PlainItems(items) + "]" + rest, room) == Done(items, rest)
    ensures PlainItems(items) != [] && PlainItems(items)[0] !in " \t\n\r]"
    decreases items, 0
  {
    assert items decreases to items[0];
    ItemsText(items, rest);
    var s := PlainItems(items) + "]" + rest;
    PlainStarts(f, items[0]);
    if |items| == 1 {
      assert items == [items[0]];
      PlainReads(f, items[0], "]" + rest, room);
      LastItem(f, s, items[0], rest, room);
    } else {
      var next := PlainItems(items[1..]) + "]" + rest;
      assert items == [items[0]] + items[1..];
      PlainReads(f, items[0], "," + next, room);
      ItemsRead(f, items[1..], rest, room);
      NextItem(f, s, items[0], next, items[1..], rest, room);
    }
  }

  lemma {:induction false} PlainMemberReads(f: Floats, m: Member, rest: string, room: nat)
    requires Normal(f, m.value) && Depth(m.value) <= room && Stops(rest)
    ensures ReadMember(f, PlainMember(m) + rest, room) == Done(m, rest)
    ensures PlainMember(m)[0] == '\"'
    decreases m
  {
    var w := Plain(m.value) + rest;
    var q := Escaped(m.key) + "\"" + (":" + w);
    PlainReads(f, m.value, rest, room);
    CharsRead(m.key, ":" + w);
    MemberReads(f, q, m.key, w, m.value, rest, room);
    MemberText(m, rest);
  }

  lemma {:induction false} MembersRead(f: Floats, ms: seq<Member>, rest: string, room: nat)
    requires ms != [] && (forall i :: 0 <= i < |ms| ==> Normal(f, ms[i].value)) && DepthMembers(ms) <= room
    ensures ReadMembers(f, PlainMembers(ms) + "}" + rest, room) == Done(ms, rest)
    ensures PlainMembers(ms) != [] && PlainMembers(ms)[0] == '\"'
    decreases ms, 0
  {
    assert ms decreases to ms[0];
    MembersText(ms, rest);
    var s := PlainMembers(ms) + "}" + rest;
    if |ms| == 1 {
      assert ms == [ms[0]];
      PlainMemberReads(f, ms[0], "}" + rest, room);
      LastMember(f, s, ms[0], rest, room);
    } else {
      var next := PlainMembers(ms[1..]) + "}" + rest;
      assert ms == [ms[0]] + ms[1..];
      PlainMemberReads(f, ms[0], "," + next, room);
      MembersRead(f, ms[1..], rest, room);
      NextMember(f, s, ms[0], next, ms[1..], rest, room);
    }
  }

  // ---- The theorems.

  /** Canonical texts followed by anything that cannot prolong a number are decoded uniquely. */
  lemma CanonicalPrefix(f: Floats, a: Value, x: string, b: Value, y: string)
    requires WellFormed(f, a) && WellFormed(f, b) && Stops(x) && Stops(y)
    requires ToCanonical(a) + x == ToCanonical(b) + y
    ensures Norm(a) == Norm(b) && x == y
  {
    var room := Depth(Norm(a)) + Depth(Norm(b));
    NormIsNormal(f, a);
    NormIsNormal(f, b);
    PlainReads(f, Norm(a), x, room);
    PlainReads(f, Norm(b), y, room);
  }

  /** Two values have the same canonical text exactly when they are equivalent. */
  lemma CanonicalExact(f: Floats, a: Value, b: Value)
    requires WellFormed(f, a) && WellFormed(f, b)
    ensures ToCanonical(a) == ToCanonical(b) <==> Equivalent(a, b)
  {
    WellFormedIsDuplicateFree(f, a);
    WellFormedIsDuplicateFree(f, b);
    NormExact(a, b);
    if ToCanonical(a) == ToCanonical(b) {
      CanonicalPrefix(f, a, "", b, "");
    }
  }

  /** With anything behind them that cannot prolong a number, canonical texts still decide equivalence. */
  lemma CanonicalPrefixExact(f: Floats, a: Value, x: string, b: Value, y: string)
    requires WellFormed(f, a) && WellFormed(f, b) && Stops(x) && Stops(y)
    ensures ToCanonical(a) + x == ToCanonical(b) + y <==> Equivalent(a, b) && x == y
  {
    CanonicalExact(f, a, b);
    if ToCanonical(a) + x == ToCanonical(b) + y { CanonicalPrefix(f, a, x, b, y); }
  }

  /** Canonical text parses to the normal form. */
  lemma CanonicalReads(f: Floats, v: Value, room: nat)
    requires WellFormed(f, v) && Depth(v) <= room
    ensures ParseWithMaxDepth(f, ToCanonical(v), room) == Some(Norm(v))
  {
    NormIsNormal(f, v);
    NormDepth(v);
    assert ToCanonical(v) + "" == ToCanonical(v);
    PlainReads(f, Norm(v), "", room);
  }

  lemma {:induction false} NormIdempotent(f: Floats, v: Value)
    requires Normal(f, v)
    ensures Norm(v) == v
  {
    match v
    case Arr(items) =>
      forall i | 0 <= i < |items| ensures NormEach(items)[i] == items[i] {
        NormIdempotent(f, items[i]);
        NormEachAt(items, i);
      }
    case Obj(members) =>
      forall i | 0 <= i < |members| ensures NormMembers(members)[i] == members[i] {
        NormIdempotent(f, members[i].value);
        NormMembersAt(members, i);
      }
      assert NormMembers(members) == members;
      SortStrict(members);
    case _ =>
  }

  // ---- Every text.

  lemma ReadNumberGood(f: Floats, t: string)
    requires f.Valid()
    ensures ReadNumber(f, t).Some? ==> GoodNumber(f, ReadNumber(f, t).value)
  {
    assert f.GoodDouble(f.read(t));
  }

  /** What the parser accepts is well formed and within its depth. */
  lemma {:induction false} ReadValueGood(f: Floats, text: string, room: nat)
    requires f.Valid()
    ensures var r := ReadValue(f, text, room); r.Done? ==> WellFormed(f, r.value) && Depth(r.value) <= room
    decreases |text|, 0
  {
    var s := SkipSpace(text);
    if s != [] {
      if s[0] == '[' {
        if room > 0 { ReadArrayGood(f, s[1..], room - 1); }
      } else if s[0] == '{' {
        if room > 0 { ReadObjectGood(f, s[1..], room - 1); }
      } else {
        ReadScalarGood(f, s);
      }
    }
  }

  lemma ReadScalarGood(f: Floats, s: string)
    requires f.Valid() && s != []
    ensures var r := ReadScalar(f, s); r.Done? ==> WellFormed(f, r.value) && Depth(r.value) == 0
  {
    ReadNumberGood(f, s[..NumberRun(s)]);
  }

  lemma {:induction false} ReadArrayGood(f: Floats, text: string, room: nat)
    requires f.Valid()
    ensures var r := ReadArray(f, text, room); r.Done? ==> WellFormed(f, r.value) && Depth(r.value) <= room + 1
    decreases |text|, 2
  {
    var s := SkipSpace(text);
    if !(s != [] && s[0] == ']') { ReadItemsGood(f, s, room); }
  }

  lemma {:induction false} ReadObjectGood(f: Floats, text: string, room: nat)
    requires f.Valid()
    ensures var r := ReadObject(f, text, room); r.Done? ==> WellFormed(f, r.value) && Depth(r.value) <= room + 1
    decreases |text|, 2
  {
    var s := SkipSpace(text);
    if !(s != [] && s[0] == '}') {
      ReadMembersGood(f, s, room);
      var r := ReadMembers(f, s, room);
      if r.Done? { MakeObjectGood(f, r.value, r.rest, room); }
    }
  }

  lemma MakeObjectGood(f: Floats, ms: seq<Member>, rest: string, room: nat)
    requires (forall i :: 0 <= i < |ms| ==> WellFormed(f, ms[i].value)) && DepthMembers(ms) <= room
    ensures var r := MakeObject(ms, rest); r.Done? ==> WellFormed(f, r.value) && Depth(r.value) <= room + 1
  {
    var sorted := Sort(ms);
    SortKeeps(ms);
    SortDepth(ms);
    DuplicateScan(ms);
    SortUnique(ms);
    SortMembers(ms);
    forall i | 0 <= i < |sorted| ensures WellFormed(f, sorted[i].value) { assert sorted[i] in ms; }
    if Strict(sorted) {
      forall i, j | 0 <= i < j < |sorted| ensures sorted[i].key != sorted[j].key {
        LessTotal(sorted[i].key, sorted[j].key);
      }
    }
  }

  lemma {:induction false} ReadItemsGood(f: Floats, s: string, room: nat)
    requires f.Valid()
    ensures var r := ReadItems(f, s, room);
            r.Done? ==> (forall i :: 0 <= i < |r.value| ==> WellFormed(f, r.value[i])) && DepthItems(r.value) <= room
    decreases |s|, 1
  {
    ReadValueGood(f, s, room);
    var r := ReadValue(f, s, room);
    if r.Done? {
      var t := SkipSpace(r.rest);
      if t != [] && t[0] == ',' {
        ReadItemsGood(f, t[1..], room);
        var next := ReadItems(f, t[1..], room);
        if next.Done? { assert ([r.value] + next.value)[1..] == next.value; }
      }
    }
  }

  lemma {:induction false} ReadMembersGood(f: Floats, s: string, room: nat)
    requires f.Valid()
    ensures var r := ReadMembers(f, s, room);
            r.Done? ==>
              (forall i :: 0 <= i < |r.value| ==> WellFormed(f, r.value[i].value)) && DepthMembers(r.value) <= room
    decreases |s|, 1
  {
    var r := ReadMember(f, s, room);
    if r.Done? {
      var chars := ReadChars(SkipSpace(s)[1..]);
      ReadValueGood(f, SkipSpace(chars.rest)[1..], room);
      var t := SkipSpace(r.rest);
      if t != [] && t[0] == ',' {
        ReadMembersGood(f, t[1..], room);
        var next := ReadMembers(f, t[1..], room);
        if next.Done? { assert ([r.value] + next.value)[1..] == next.value; }
      }
    }
  }

  /** Canonical text is its own canonical text. */
  lemma CanonicalStable(f: Floats, text: string)
    requires f.Valid() && CanonicalJson(f, text).Some?
    ensures CanonicalJson(f, CanonicalJson(f, text).value) == CanonicalJson(f, text)
  {
    var v := ParseWithMaxDepth(f, text, MAX_DEPTH).value;
    ReadValueGood(f, text, MAX_DEPTH);
    CanonicalReads(f, v, MAX_DEPTH);
    NormIsNormal(f, v);
    NormIdempotent(f, Norm(v));
  }

  /** Two accepted texts have the same canonical text exactly when the values they denote are equivalent. */
  lemma CanonicalTexts(f: Floats, s: string, t: string)
    requires f.Valid()
    requires ParseWithMaxDepth(f, s, MAX_DEPTH).Some? && ParseWithMaxDepth(f, t, MAX_DEPTH).Some?
    ensures CanonicalJson(f, s) == CanonicalJson(f, t) <==>
            Equivalent(ParseWithMaxDepth(f, s, MAX_DEPTH).value, ParseWithMaxDepth(f, t, MAX_DEPTH).value)
  {
    ReadValueGood(f, s, MAX_DEPTH);
    ReadValueGood(f, t, MAX_DEPTH);
    CanonicalExact(f, ParseWithMaxDepth(f, s, MAX_DEPTH).value, ParseWithMaxDepth(f, t, MAX_DEPTH).value);
  }

  // ---- Which text is written for a character.

  /** The text stands, inside a string, for exactly this character. */
  predicate StandsFor(s: string, c: char) {
    s != [] &&
    if s[0] == '\\' then ReadEscape(s[1..]) == Done(c, []) else s == [c] && c >= ' ' && c != '\"'
  }

  lemma LowerHex(d: char)
    requires IsHex(d)
    ensures Text.LowerAscii(d) == HexDigit(HexValue(d))
  {
  }

  lemma LowerCons(d: char, rest: string)
    ensures Text.LowerText([d] + rest) == [Text.LowerAscii(d)] + Text.LowerText(rest)
  {
    assert ([d] + rest)[1..] == rest;
  }

  lemma {:induction false} LowerAt(s: string, i: nat)
    requires i < |s|
    ensures Text.LowerText(s)[i] == Text.LowerAscii(s[i])
  {
    if i > 0 {
      LowerAt(s[1..], i - 1);
    }
  }

  lemma LowerFour(s: string)
    requires |s| == 4 && forall i | 0 <= i < 4 :: IsHex(s[i])
    ensures Text.LowerText(s) == seq(4, i requires 0 <= i < 4 => HexDigit(HexValue(s[i])))
  {
    forall i | 0 <= i < 4
      ensures Text.LowerText(s)[i] == HexDigit(HexValue(s[i]))
    {
      LowerAt(s, i);
      LowerHex(s[i]);
    }
  }

  /** A control character by its code unit. */
  lemma UnitIsEscape(s: string, c: char)
    requires |s| == 4 && c < ' ' && CodeUnit(s) == Done(c as nat, [])
    ensures Text.LowerText("\\u" + s) == "\\u00" + [HexDigit(c as int / 16), HexDigit(c as int % 16)]
  {
    LowerFour(s);
    assert HexValue(s[0]) == 0 && HexValue(s[1]) == 0;
    assert HexValue(s[2]) == c as int / 16 && HexValue(s[3]) == c as int % 16;
    assert "\\u" + s == ['\\'] + (['u'] + s);
    LowerCons('\\', ['u'] + s);
    LowerCons('u', s);
  }

  lemma UnitIsLong(s: string, c: char)
    requires |s| >= 2 && s[0] == '\\' && s[1] == 'u' && StandsFor(s, c) && |s| <= |Escape(c)|
    ensures |s| == 6 && Text.LowerText(s) == Escape(c)
  {
    assert s[1..][1..] == s[2..];
    assert c < ' ' && |s[2..]| == 4;
    UnitIsEscape(s[2..], c);
    assert s == "\\u" + s[2..];
  }

  lemma LetterIsEscape(s: string, c: char)
    requires s != [] && s[0] == '\\' && (|s| >= 2 ==> s[1] != 'u') && StandsFor(s, c) && |s| <= |Escape(c)|
    ensures s == Escape(c)
  {
    var rest := s[1..];
    assert ReadEscape(rest) == Done(c, rest[1..]) && rest[1..] == [];
    assert s == ['\\', rest[0]];
  }

  /** No shorter text stands for a character than the one written, and no other as short, but for upper-case digits. */
  lemma EscapeIsShortest(s: string, c: char)
    requires StandsFor(s, c) && |s| <= |Escape(c)|
    ensures s == Escape(c) || (|s| == 6 && Text.LowerText(s) == Escape(c))
  {
    if s[0] == '\\' {
      if |s| >= 2 && s[1] == 'u' {
        UnitIsLong(s, c);
      } else {
        LetterIsEscape(s, c);
      }
    }
  }

  lemma EscapeStands(c: char)
    ensures StandsFor(Escape(c), c)
  {
    if c < ' ' && |Escape(c)| == 6 {
      var s := Escape(c);
      assert s[1..][1..] == s[2..] && s[2..] == "00" + [HexDigit(c as int / 16), HexDigit(c as int % 16)];
    }
  }
}
