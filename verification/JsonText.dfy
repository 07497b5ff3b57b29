/**
  * JSON text: the canonical writer of crates/policysql-transaction/src/canonical.rs and
  * the strict grammar of sections 2 to 7 of RFC 8259 that its parser accepts, with
  * its nesting bound and its refusal of duplicate keys.
  */
module JsonText {
  import opened Core
  import opened Json

  // ---- Writing.

  function HexDigit(n: nat): char
    requires n < 16
  {
    if n < 10 then ('0' as int + n) as char else ('a' as int + n - 10) as char
  }

  function Escape(c: char): (text: string)
    ensures |text| > 0
  {
    match c
    case '\"' => "\\\""
    case '\\' => "\\\\"
    case '\U{8}' => "\\b"
    case '\t' => "\\t"
    case '\n' => "\\n"
    case '\U{C}' => "\\f"
    case '\r' => "\\r"
    case _ => if c < ' ' then "\\u00" + [HexDigit(c as int / 16), HexDigit(c as int % 16)] else [c]
  }

  function Escaped(text: string): string {
    if text == [] then [] else Escape(text[0]) + Escaped(text[1..])
  }

  function Quoted(text: string): string {
    "\"" + Escaped(text) + "\""
  }

  function Signed(n: int): string {
    if n < 0 then "-" + Decimal(-n) else Decimal(n)
  }

  function Numeral(number: Number): string {
    if number.OtherDouble? then number.text else Signed(number.n)
  }

  /** The text of a value with its members in the order they have. */
  function Plain(v: Value): string {
    match v
    case Null => "null"
    case Bool(b) => if b then "true" else "false"
    case Num(number) => Numeral(number)
    case Str(text) => Quoted(text)
    case Arr(items) => "[" + PlainItems(items) + "]"
    case Obj(members) => "{" + PlainMembers(members) + "}"
  }

  function PlainItems(items: seq<Value>): string {
    if items == [] then ""
    else
      assert items decreases to items[0];
      if |items| == 1 then Plain(items[0]) else Plain(items[0]) + "," + PlainItems(items[1..])
  }

  function PlainMember(m: Member): string {
    Quoted(m.key) + ":" + Plain(m.value)
  }

  function PlainMembers(ms: seq<Member>): string {
    if ms == [] then ""
    else
      assert ms decreases to ms[0];
      if |ms| == 1 then PlainMember(ms[0]) else PlainMember(ms[0]) + "," + PlainMembers(ms[1..])
  }

  /** The canonical text. */
  function ToCanonical(v: Value): string {
    Plain(Norm(v))
  }

  // ---- Reading.

  datatype Parsed<+T> = Fail | Done(value: T, rest: string)

  function SkipSpace(s: string): (r: string)
    ensures |r| <= |s|
  {
    if s != [] && s[0] in " \t\n\r" then SkipSpace(s[1..]) else s
  }

  predicate IsHex(c: char) {
    '0' <= c <= '9' || 'a' <= c <= 'f' || 'A' <= c <= 'F'
  }

  function HexValue(c: char): (n: nat)
    requires IsHex(c)
    ensures n < 16
  {
    if c <= '9' then c as int - '0' as int
    else if c <= 'F' then c as int - 'A' as int + 10
    else c as int - 'a' as int + 10
  }

  /** Four hexadecimal digits: one UTF-16 code unit. */
  function CodeUnit(s: string): (r: Parsed<nat>)
    ensures r.Done? ==> |r.rest| < |s| && r.value < 0x1_0000
  {
    if |s| < 4 || !IsHex(s[0]) || !IsHex(s[1]) || !IsHex(s[2]) || !IsHex(s[3]) then Fail
    else Done(0x1000 * HexValue(s[0]) + 0x100 * HexValue(s[1]) + 0x10 * HexValue(s[2]) + HexValue(s[3]), s[4..])
  }

  /** What follows a backslash; a lone surrogate is refused. */
  function ReadEscape(s: string): (r: Parsed<char>)
    ensures r.Done? ==> |r.rest| < |s|
  {
    if s == [] then Fail
    else match s[0]
      case '\"' => Done('\"', s[1..])
      case '\\' => Done('\\', s[1..])
      case '/' => Done('/', s[1..])
      case 'b' => Done('\U{8}', s[1..])
      case 'f' => Done('\U{C}', s[1..])
      case 'n' => Done('\n', s[1..])
      case 'r' => Done('\r', s[1..])
      case 't' => Done('\t', s[1..])
      case 'u' =>
        (match CodeUnit(s[1..])
         case Fail => Fail
         case Done(unit, rest) =>
           if unit < 0xD800 || unit >= 0xE000 then Done(unit as char, rest)
           else if unit < 0xDC00 && "\\u" <= rest then ReadLowSurrogate(unit, rest[2..])
           else Fail)
      case _ => Fail
  }

  function ReadLowSurrogate(high: nat, s: string): (r: Parsed<char>)
    requires 0xD800 <= high < 0xDC00
    ensures r.Done? ==> |r.rest| < |s|
  {
    match CodeUnit(s)
    case Fail => Fail
    case Done(low, rest) =>
      if 0xDC00 <= low < 0xE000 then Done((0x1_0000 + 0x400 * (high - 0xD800) + (low - 0xDC00)) as char, rest) else Fail
  }

  /** The characters of a string after its opening quote. */
  function ReadChars(s: string): (r: Parsed<string>)
    ensures r.Done? ==> |r.rest| < |s|
    decreases |s|
  {
    if s == [] || s[0] < ' ' then Fail
    else if s[0] == '\"' then Done([], s[1..])
    else
      var first := if s[0] == '\\' then ReadEscape(s[1..]) else Done(s[0], s[1..]);
      match first
      case Fail => Fail
      case Done(c, rest) =>
        match ReadChars(rest)
        case Fail => Fail
        case Done(text, rest) => Done([c] + text, rest)
  }

  predicate IsDigit(c: char) {
    '0' <= c <= '9'
  }

  predicate IsNumberChar(c: char) {
    IsDigit(c) || c in "+-.eE"
  }

  predicate Digits(t: string) {
    t != [] && forall i | 0 <= i < |t| :: IsDigit(t[i])
  }

  /** An integer part: no sign but minus, no leading zero. */
  predicate IntegerLexeme(t: string) {
    var digits := if t != [] && t[0] == '-' then t[1..] else t;
    Digits(digits) && (|digits| > 1 ==> digits[0] != '0')
  }

  predicate Exponent(t: string) {
    t == [] ||
    (t[0] in "eE" && (Digits(t[1..]) || (|t| > 1 && t[1] in "+-" && Digits(t[2..]))))
  }

  /** The first position of one of the given characters, or the length. */
  function First(t: string, chars: string): (k: nat)
    ensures k <= |t|
  {
    if t == [] || t[0] in chars then 0 else 1 + First(t[1..], chars)
  }

  predicate Fraction(t: string) {
    if t != [] && t[0] == '.' then
      var k := First(t[1..], "eE") + 1;
      Digits(t[1..k]) && Exponent(t[k..])
    else Exponent(t)
  }

  /** Section 6 of RFC 8259. */
  predicate NumberLexeme(t: string) {
    var k := First(t, ".eE");
    IntegerLexeme(t[..k]) && Fraction(t[k..])
  }

  function IntegerValue(t: string): int
    requires IntegerLexeme(t)
  {
    if t[0] == '-' then 0 - DecimalValue(t[1..]) else DecimalValue(t)
  }

  /**
    * Correctly rounded decimal-to-double conversion, as a parameter: a lexeme is out of range,
    * or denotes a double whose value is a safe integer, or another double known by its shortest text.
    */
  datatype Floats = Floats(read: string -> Option<Number>) {
    ghost predicate Valid() {
      forall t: string :: GoodDouble(read(t))
    }

    /** The shortest text is a number with a fraction or an exponent, and reads back as the same double. */
    predicate GoodDouble(x: Option<Number>) {
      match x
      case None => true
      case Some(Whole(_)) => false
      case Some(SafeDouble(n)) => -MAX_SAFE_INTEGER <= n <= MAX_SAFE_INTEGER
      case Some(OtherDouble(text)) => Shortest(text)
    }

    predicate Shortest(text: string) {
      NumberLexeme(text) && !IntegerLexeme(text) && (forall i | 0 <= i < |text| :: IsNumberChar(text[i])) &&
      (text[0] == '-' || IsDigit(text[0])) && read(text) == Some(OtherDouble(text))
    }
  }

  function ReadNumber(f: Floats, t: string): Option<Number> {
    if !NumberLexeme(t) then None
    else if !IntegerLexeme(t) then f.read(t)
    else if t == "-0" then Some(SafeDouble(0))
    else if MIN_I64 <= IntegerValue(t) <= MAX_U64 then Some(Whole(IntegerValue(t)))
    else f.read(t)
  }

  function NumberRun(s: string): (k: nat)
    ensures k <= |s|
    ensures forall i | 0 <= i < k :: IsNumberChar(s[i])
    ensures k < |s| ==> !IsNumberChar(s[k])
  {
    if s != [] && IsNumberChar(s[0]) then 1 + NumberRun(s[1..]) else 0
  }

  function Word(s: string, word: string, v: Value): Parsed<Value> {
    if word <= s then Done(v, s[|word|..]) else Fail
  }

  /** A value that is neither an array nor an object, without leading space. */
  function ReadScalar(f: Floats, s: string): (r: Parsed<Value>)
    requires s != []
    ensures r.Done? ==> |r.rest| < |s|
  {
    match s[0]
    case 'n' => Word(s, "null", Value.Null)
    case 't' => Word(s, "true", Bool(true))
    case 'f' => Word(s, "false", Bool(false))
    case '\"' =>
      (match ReadChars(s[1..])
       case Fail => Fail
       case Done(text, rest) => Done(Str(text), rest))
    case _ =>
      var k := NumberRun(s);
      match ReadNumber(f, s[..k])
      case None => Fail
      case Some(number) => Done(Num(number), s[k..])
  }

  /** A value, with room for that many levels of arrays and objects. */
  function ReadValue(f: Floats, text: string, room: nat): (r: Parsed<Value>)
    ensures r.Done? ==> |r.rest| < |text|
    decreases |text|, 0
  {
    var s := SkipSpace(text);
    if s == [] then Fail
    else if s[0] == '[' then if room == 0 then Fail else ReadArray(f, s[1..], room - 1)
    else if s[0] == '{' then if room == 0 then Fail else ReadObject(f, s[1..], room - 1)
    else ReadScalar(f, s)
  }

  /** An array after its bracket. */
  function ReadArray(f: Floats, text: string, room: nat): (r: Parsed<Value>)
    ensures r.Done? ==> |r.rest| < |text|
    decreases |text|, 2
  {
    var s := SkipSpace(text);
    if s != [] && s[0] == ']' then Done(Arr([]), s[1..])
    else match ReadItems(f, s, room)
      case Fail => Fail
      case Done(items, rest) => Done(Arr(items), rest)
  }

  /** An object after its brace. */
  function ReadObject(f: Floats, text: string, room: nat): (r: Parsed<Value>)
    ensures r.Done? ==> |r.rest| < |text|
    decreases |text|, 3
  {
    var s := SkipSpace(text);
    if s != [] && s[0] == '}' then Done(Obj([]), s[1..])
    else match ReadMembers(f, s, room)
      case Fail => Fail
      case Done(members, rest) => MakeObject(members, rest)
  }

  /** The members are sorted, and neighbours with equal keys refuse the object. */
  function MakeObject(members: seq<Member>, rest: string): Parsed<Value> {
    var sorted := Sort(members);
    if NeighboursDiffer(sorted) then Done(Obj(sorted), rest) else Fail
  }

  function ReadItems(f: Floats, s: string, room: nat): (r: Parsed<seq<Value>>)
    ensures r.Done? ==> |r.rest| < |s|
    decreases |s|, 1
  {
    match ReadValue(f, s, room)
    case Fail => Fail
    case Done(v, rest) =>
      var t := SkipSpace(rest);
      if t != [] && t[0] == ']' then Done([v], t[1..])
      else if t != [] && t[0] == ',' then
        (match ReadItems(f, t[1..], room)
         case Fail => Fail
         case Done(vs, rest) => Done([v] + vs, rest))
      else Fail
  }

  function ReadMember(f: Floats, text: string, room: nat): (r: Parsed<Member>)
    ensures r.Done? ==> |r.rest| < |text|
    decreases |text|, 1
  {
    var s := SkipSpace(text);
    if s == [] || s[0] != '\"' then Fail
    else match ReadChars(s[1..])
      case Fail => Fail
      case Done(key, rest) =>
        var t := SkipSpace(rest);
        if t == [] || t[0] != ':' then Fail
        else match ReadValue(f, t[1..], room)
          case Fail => Fail
          case Done(v, rest) => Done(Member(key, v), rest)
  }

  function ReadMembers(f: Floats, s: string, room: nat): (r: Parsed<seq<Member>>)
    ensures r.Done? ==> |r.rest| < |s|
    decreases |s|, 2
  {
    match ReadMember(f, s, room)
    case Fail => Fail
    case Done(m, rest) =>
      var t := SkipSpace(rest);
      if t != [] && t[0] == '}' then Done([m], t[1..])
      else if t != [] && t[0] == ',' then
        (match ReadMembers(f, t[1..], room)
         case Fail => Fail
         case Done(ms, rest) => Done([m] + ms, rest))
      else Fail
  }

  const MAX_DEPTH: nat := 64

  /** A whole text, nothing after the value. */
  function ParseWithMaxDepth(f: Floats, text: string, room: nat): Option<Value> {
    match ReadValue(f, text, room)
    case Fail => None
    case Done(v, rest) => if SkipSpace(rest) == [] then Some(v) else None
  }

  function CanonicalJson(f: Floats, text: string): Option<string> {
    match ParseWithMaxDepth(f, text, MAX_DEPTH)
    case None => None
    case Some(v) => Some(ToCanonical(v))
  }
}
