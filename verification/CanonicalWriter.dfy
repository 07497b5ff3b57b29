/**
  * The writer of crates/policysql-transaction/src/canonical.rs: it appends to a text and sorts each
  * object as it goes.
  */
module CanonicalWriter {
  import opened Core
  import opened Json
  import opened JsonText
  import opened Canonical

  class Writer {
    var out: string

    constructor ()
      ensures out == ""
    {
      out := "";
    }

    method WriteNumber(number: Number)
      modifies this
      ensures out == old(out) + Numeral(number)
    {
      match number
      case SafeDouble(n) => out := out + Signed(n);
      case Whole(n) => out := out + Signed(n);
      case OtherDouble(text) => out := out + text;
    }

    /** Characters that need no escape are copied in runs. */
    method WriteString(text: string)
      modifies this
      ensures out == old(out) + Quoted(text)
    {
      ghost var before := out;
      out := out + "\"";
      var start := 0;
      for index := 0 to |text|
        invariant 0 <= start <= index
        invariant forall i | start <= i < index :: Unescaped(text[i])
        invariant out == before + "\"" + Escaped(text[..start])
      {
        var c := text[index];
        if !Unescaped(c) {
          EscapedRun(text, start, index);
          Enclosed(before + "\"", Escaped(text[..start]), text[start..index], Escape(c));
          out := out + text[start..index];
          out := out + Escape(c);
          start := index + 1;
        }
      }
      EscapedEnd(text, start);
      Enclosed(before + "\"", Escaped(text[..start]), text[start..], "\"");
      out := out + text[start..];
      out := out + "\"";
      Enclosed(before, "\"", Escaped(text), "\"");
      Grouped(before + "\"", Escaped(text), "\"");
    }

    method WriteValue(v: Value)
      modifies this
      ensures out == old(out) + ToCanonical(v)
      decreases v, 0
    {
      match v
      case Null => out := out + "null";
      case Bool(b) => out := out + if b then "true" else "false";
      case Num(number) => WriteNumber(number);
      case Str(text) => WriteString(text);
      case Arr(items) =>
        Enclosed(out, "[", PlainItems(NormEach(items)), "]");
        out := out + "[";
        WriteItems(items);
        out := out + "]";
      case Obj(members) =>
        var sorted := Sort(members);
        SortMembers(members);
        SortNorm(members);
        Enclosed(out, "{", PlainMembers(NormMembers(sorted)), "}");
        out := out + "{";
        WriteMembers(sorted, members);
        out := out + "}";
    }

    method WriteItems(items: seq<Value>)
      modifies this
      ensures out == old(out) + PlainItems(NormEach(items))
      decreases items
    {
      ghost var before := out;
      for index := 0 to |items|
        invariant out == before + PlainItems(NormEach(items[..index]))
      {
        var separator := if index > 0 then "," else "";
        ItemsStep(items, index, separator);
        Enclosed(before, PlainItems(NormEach(items[..index])), separator, ToCanonical(items[index]));
        out := out + separator;
        assert items decreases to items[index];
        WriteValue(items[index]);
      }
      assert items[..|items|] == items;
    }

    /** `sorted` holds the members of the object `members` in their order of writing. */
    method WriteMembers(sorted: seq<Member>, ghost members: seq<Member>)
      requires forall m <- sorted :: m in members
      modifies this
      ensures out == old(out) + PlainMembers(NormMembers(sorted))
      decreases members
    {
      ghost var before := out;
      for index := 0 to |sorted|
        invariant out == before + PlainMembers(NormMembers(sorted[..index]))
      {
        var separator := if index > 0 then "," else "";
        MembersStep(sorted, index, separator);
        Enclosed(before, PlainMembers(NormMembers(sorted[..index])), separator, MemberCanonical(sorted[index]));
        out := out + separator;
        assert sorted[index] in members;
        assert members decreases to sorted[index];
        WriteMember(sorted[index]);
      }
      assert sorted[..|sorted|] == sorted;
    }

    method WriteMember(m: Member)
      modifies this
      ensures out == old(out) + MemberCanonical(m)
      decreases m
    {
      Enclosed(out, Quoted(m.key), ":", ToCanonical(m.value));
      WriteString(m.key);
      out := out + ":";
      WriteValue(m.value);
    }
  }

  function MemberCanonical(m: Member): string {
    Quoted(m.key) + ":" + ToCanonical(m.value)
  }

  predicate Unescaped(c: char) {
    c != '\"' && c != '\\' && c >= ' '
  }

  lemma EscapedRun(text: string, start: nat, index: nat)
    requires start <= index < |text| && forall i | start <= i < index :: Unescaped(text[i])
    ensures Escaped(text[..index + 1]) == Escaped(text[..start]) + text[start..index] + Escape(text[index])
  {
    EscapedEnd(text[..index], start);
    assert text[..index][..start] == text[..start] && text[..index][start..] == text[start..index];
    EscapedAppend(text[..index], [text[index]]);
    assert text[..index + 1] == text[..index] + [text[index]];
    assert Escaped([text[index]]) == Escape(text[index]);
  }

  lemma EscapedEnd(text: string, start: nat)
    requires start <= |text| && forall i | start <= i < |text| :: Unescaped(text[i])
    ensures Escaped(text) == Escaped(text[..start]) + text[start..]
  {
    var front, back := text[..start], text[start..];
    assert text == front + back;
    RawEscaped(back);
    EscapedAppend(front, back);
  }

  lemma ItemsStep(items: seq<Value>, index: nat, separator: string)
    requires index < |items| && separator == if index > 0 then "," else ""
    ensures PlainItems(NormEach(items[..index + 1])) ==
            PlainItems(NormEach(items[..index])) + separator + ToCanonical(items[index])
  {
    assert items[..index + 1] == items[..index] + [items[index]];
    NormEachAppend(items[..index], items[index]);
    ItemsAppend(NormEach(items[..index]), Norm(items[index]));
  }

  lemma MembersStep(ms: seq<Member>, index: nat, separator: string)
    requires index < |ms| && separator == if index > 0 then "," else ""
    ensures PlainMembers(NormMembers(ms[..index + 1])) ==
            PlainMembers(NormMembers(ms[..index])) + separator + MemberCanonical(ms[index])
  {
    assert ms[..index + 1] == ms[..index] + [ms[index]];
    NormMembersAppend(ms[..index], ms[index]);
    MembersAppend(NormMembers(ms[..index]), Member(ms[index].key, Norm(ms[index].value)));
  }

  lemma {:induction false} EscapedAppend(a: string, b: string)
    ensures Escaped(a + b) == Escaped(a) + Escaped(b)
  {
    if a == [] {
      assert a + b == b;
    } else {
      assert (a + b)[1..] == a[1..] + b;
      EscapedAppend(a[1..], b);
    }
  }

  lemma {:induction false} RawEscaped(text: string)
    requires forall i | 0 <= i < |text| :: Unescaped(text[i])
    ensures Escaped(text) == text
  {
    if text != [] { RawEscaped(text[1..]); }
  }

  lemma {:induction false} NormEachAppend(items: seq<Value>, v: Value)
    ensures NormEach(items + [v]) == NormEach(items) + [Norm(v)]
    decreases |items|
  {
    if items != [] {
      assert (items + [v])[1..] == items[1..] + [v];
      NormEachAppend(items[1..], v);
    }
  }

  lemma {:induction false} NormMembersAppend(ms: seq<Member>, m: Member)
    ensures NormMembers(ms + [m]) == NormMembers(ms) + [Member(m.key, Norm(m.value))]
    decreases |ms|
  {
    if ms != [] {
      assert (ms + [m])[1..] == ms[1..] + [m];
      NormMembersAppend(ms[1..], m);
    }
  }

  lemma {:induction false} ItemsAppend(items: seq<Value>, v: Value)
    ensures PlainItems(items + [v]) == PlainItems(items) + (if items == [] then "" else ",") + Plain(v)
    decreases |items|
  {
    if items != [] {
      assert (items + [v])[1..] == items[1..] + [v];
      ItemsAppend(items[1..], v);
    }
  }

  lemma {:induction false} MembersAppend(ms: seq<Member>, m: Member)
    ensures PlainMembers(ms + [m]) == PlainMembers(ms) + (if ms == [] then "" else ",") + PlainMember(m)
    decreases |ms|
  {
    if ms != [] {
      assert (ms + [m])[1..] == ms[1..] + [m];
      MembersAppend(ms[1..], m);
    }
  }

  /** Sorting before normalizing the values is sorting after it: only keys are compared. */
  lemma {:induction false} SortNorm(ms: seq<Member>)
    ensures NormMembers(Sort(ms)) == Sort(NormMembers(ms))
    decreases |ms|
  {
    if ms != [] {
      SortNorm(ms[1..]);
      InsertNorm(ms[0], Sort(ms[1..]));
      assert NormMembers(ms)[1..] == NormMembers(ms[1..]);
    }
  }

  lemma {:induction false} InsertNorm(m: Member, ms: seq<Member>)
    ensures NormMembers(Insert(m, ms)) == Insert(Member(m.key, Norm(m.value)), NormMembers(ms))
    decreases |ms|
  {
    if ms == [] || !Less(ms[0].key, m.key) {
      assert ([m] + ms)[1..] == ms;
    } else {
      InsertNorm(m, ms[1..]);
      assert NormMembers(ms)[1..] == NormMembers(ms[1..]);
      assert Insert(m, ms)[1..] == Insert(m, ms[1..]);
    }
  }

  /** The text the writer leaves in a fresh buffer. */
  method WriteCanonical(v: Value) returns (text: string)
    ensures text == ToCanonical(v)
  {
    var writer := new Writer();
    writer.WriteValue(v);
    text := writer.out;
  }
}
