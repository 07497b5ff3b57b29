/** Strings are compared by their UTF-8 bytes, which is the order of their code points. */
module KeyOrder {
  import opened Text
  import Json

  predicate BytesLess(a: ByteString, b: ByteString) {
    if b == [] then false
    else if a == [] then true
    else a[0] < b[0] || (a[0] == b[0] && BytesLess(a[1..], b[1..]))
  }

  lemma {:induction false} DifferAt(a: ByteString, b: ByteString, k: nat)
    requires k < |a| && k < |b| && a[..k] == b[..k] && a[k] < b[k]
    ensures BytesLess(a, b) && !BytesLess(b, a)
    decreases k
  {
    if k > 0 {
      assert a[..k][0] == a[0] && b[..k][0] == b[0];
      assert a[1..][..k - 1] == a[..k][1..] && b[1..][..k - 1] == b[..k][1..];
      DifferAt(a[1..], b[1..], k - 1);
    }
  }

  lemma {:induction false} SameHead(head: ByteString, a: ByteString, b: ByteString)
    ensures BytesLess(head + a, head + b) <==> BytesLess(a, b)
    decreases |head|
  {
    if head == [] {
      assert head + a == a && head + b == b;
    } else {
      assert (head + a)[1..] == head[1..] + a && (head + b)[1..] == head[1..] + b;
      SameHead(head[1..], a, b);
    }
  }

  /** The position where the encodings of two characters first differ, in the order of the characters. */
  function FirstDifference(m: nat, n: nat): nat {
    if n < 0x80 || m < 0x80 then 0
    else if n < 0x800 || m < 0x800 then if n >= 0x800 || m / 0x40 != n / 0x40 then 0 else 1
    else if n < 0x1_0000 || m < 0x1_0000 then
      if n >= 0x1_0000 || m / 0x1000 != n / 0x1000 then 0 else if m / 0x40 != n / 0x40 then 1 else 2
    else if m / 0x4_0000 != n / 0x4_0000 then 0
    else if m / 0x1000 != n / 0x1000 then 1
    else if m / 0x40 != n / 0x40 then 2
    else 3
  }

  lemma CharOrder(c: char, d: char)
    requires c < d
    ensures var k := FirstDifference(c as int, d as int);
            k < |Utf8(c)| && k < |Utf8(d)| && Utf8(c)[k] < Utf8(d)[k] && forall i | 0 <= i < k ::
                Utf8(c)[i] == Utf8(d)[i]
  {
    var m, n := c as int, d as int;
    assert m / 0x40 / 0x40 == m / 0x1000 && n / 0x40 / 0x40 == n / 0x1000;
    assert m / 0x1000 / 0x40 == m / 0x4_0000 && n / 0x1000 / 0x40 == n / 0x4_0000;
  }

  lemma HeadOrder(c: char, d: char, a: ByteString, b: ByteString)
    requires c < d
    ensures BytesLess(Utf8(c) + a, Utf8(d) + b) && !BytesLess(Utf8(d) + b, Utf8(c) + a)
  {
    var k, x, y := FirstDifference(c as int, d as int), Utf8(c) + a, Utf8(d) + b;
    CharOrder(c, d);
    assert x[..k] == y[..k] by { assert forall i | 0 <= i < k :: x[i] == Utf8(c)[i] && y[i] == Utf8(d)[i]; }
    DifferAt(x, y, k);
  }

  /** Comparing texts by UTF-8 bytes is comparing them by code points. */
  lemma {:induction false} KeysCompareAsBytes(a: string, b: string)
    ensures BytesLess(Utf8Bytes(a), Utf8Bytes(b)) <==> Json.Less(a, b)
    decreases |a|
  {
    if a != [] && b != [] {
      if a[0] == b[0] {
        KeysCompareAsBytes(a[1..], b[1..]);
        SameHead(Utf8(a[0]), Utf8Bytes(a[1..]), Utf8Bytes(b[1..]));
      } else if a[0] < b[0] {
        HeadOrder(a[0], b[0], Utf8Bytes(a[1..]), Utf8Bytes(b[1..]));
      } else {
        HeadOrder(b[0], a[0], Utf8Bytes(b[1..]), Utf8Bytes(a[1..]));
      }
    }
  }
}
