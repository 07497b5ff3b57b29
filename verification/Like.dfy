/** The reference LIKE matcher: a two-dimensional table that equals the recursive wildcard definition. */
module Like {

  import opened Text

  type Bytes = ByteString

  const PERCENT: Byte := 37
  const UNDERSCORE: Byte := 95

  /** `%` matches any run, `_` one byte, anything else itself. */
  predicate Matches(value: Bytes, pattern: Bytes)
    decreases |value| + |pattern|
  {
    if pattern == [] then value == []
    else if pattern[0] == PERCENT then
      Matches(value, pattern[1..]) || (value != [] && Matches(value[1..], pattern))
    else
      value != [] && (pattern[0] == UNDERSCORE || pattern[0] == value[0]) && Matches(value[1..], pattern[1..])
  }

  /** One cell of the table: the last pattern byte against the end of the value. */
  predicate FromBack(value: Bytes, pattern: Bytes)
    requires pattern != []
  {
    var last := pattern[|pattern| - 1];
    if last == PERCENT then
      Matches(value, pattern[..|pattern| - 1]) || (value != [] && Matches(value[..|value| - 1], pattern))
    else
      && value != []
      && (last == UNDERSCORE || last == value[|value| - 1])
      && Matches(value[..|value| - 1], pattern[..|pattern| - 1])
  }

  /** The definition consumes pattern and value from the front; it may as well consume them from the back. */
  lemma {:induction false} FrontIsBack(value: Bytes, pattern: Bytes)
    requires pattern != []
    ensures Matches(value, pattern) == FromBack(value, pattern)
    decreases |value| + |pattern|
  {
    var n, m := |value|, |pattern|;
    var last := pattern[m - 1];
    if m == 1 {
      assert pattern[1..] == [] && pattern[..m - 1] == [];
      if value != [] {
        FrontIsBack(value[1..], pattern);
        if n > 1 {
          assert value[1..][..n - 2] == value[..n - 1][1..];
          FrontIsBack(value[..n - 1], pattern);
        }
      }
    } else {
      assert pattern[1..][..m - 2] == pattern[..m - 1][1..];
      FrontIsBack(value, pattern[1..]);
      if value != [] {
        FrontIsBack(value[..n - 1], pattern[1..]);
        FrontIsBack(value[1..], pattern[1..]);
        FrontIsBack(value[1..], pattern);
        if n > 1 {
          assert value[1..][..n - 2] == value[..n - 1][1..];
        }
      }
    }
  }

  lemma MatchesEmptyValue(pattern: Bytes)
    requires pattern != []
    ensures Matches([], pattern) == (pattern[|pattern| - 1] == PERCENT && Matches([], pattern[..|pattern| - 1]))
  {
    FrontIsBack([], pattern);
  }

  /** One cell of the table from its neighbours. */
  lemma CellStep(value: Bytes, pattern: Bytes, i: nat, j: nat)
    requires 0 < i <= |value| && 0 < j <= |pattern|
    ensures Matches(value[..i], pattern[..j]) ==
            var byte := pattern[j - 1];
            if byte == PERCENT then Matches(value[..i], pattern[..j - 1]) || Matches(value[..i - 1], pattern[..j])
            else (byte == UNDERSCORE || byte == value[i - 1]) && Matches(value[..i - 1], pattern[..j - 1])
  {
    FrontIsBack(value[..i], pattern[..j]);
    assert value[..i][..i - 1] == value[..i - 1] && pattern[..j][..j - 1] == pattern[..j - 1];
  }

  /** Fills the table of prefix matches and reads its corner. */
  method SqliteLike(value: Bytes, pattern: Bytes) returns (matched: bool)
    ensures matched == Matches(value, pattern)
  {
    var n, m := |value|, |pattern|;
    var table := new bool[n + 1, m + 1]((i, j) => false);
    table[0, 0] := true;
    for j := 1 to m + 1
      invariant forall k | 0 <= k < j :: table[0, k] == Matches([], pattern[..k])
      invariant forall k | j <= k <= m :: !table[0, k]
      invariant forall h | 1 <= h <= n :: !table[h, 0]
    {
      MatchesEmptyValue(pattern[..j]);
      assert pattern[..j][..j - 1] == pattern[..j - 1];
      if pattern[j - 1] == PERCENT {
        table[0, j] := table[0, j - 1];
      }
    }
    for i := 1 to n + 1
      invariant forall h, k | 0 <= h < i && 0 <= k <= m :: table[h, k] == Matches(value[..h], pattern[..k])
      invariant forall h | i <= h <= n :: !table[h, 0]
    {
      for j := 1 to m + 1
        invariant forall h, k | 0 <= h < i && 0 <= k <= m :: table[h, k] == Matches(value[..h], pattern[..k])
        invariant forall k | 0 <= k < j :: table[i, k] == Matches(value[..i], pattern[..k])
        invariant forall h | i <= h <= n :: !table[h, 0]
      {
        CellStep(value, pattern, i, j);
        var byte := pattern[j - 1];
        table[i, j] :=
          if byte == PERCENT then table[i, j - 1] || table[i - 1, j]
          else if byte == UNDERSCORE then table[i - 1, j - 1]
          else byte == value[i - 1] && table[i - 1, j - 1];
      }
    }
    matched := table[n, m];
    assert value[..n] == value && pattern[..m] == pattern;
  }
}
