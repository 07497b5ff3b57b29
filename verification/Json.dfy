/**
  * JSON values of crates/policysql-transaction/src/canonical.rs, the order of
  * object members, and when two values mean the same.
  */
module Json {

  /**
    * A number as the parser keeps it: an integer lexeme of the 64-bit range, a double whose
    * value is a safe integer, or any other double by its shortest text.
    */
  datatype Number = Whole(n: int) | SafeDouble(n: int) | OtherDouble(text: string)

  datatype Value =
    | Null
    | Bool(b: bool)
    | Num(number: Number)
    | Str(text: string)
    | Arr(items: seq<Value>)
    | Obj(members: seq<Member>)

  datatype Member = Member(key: string, value: Value)

  const MIN_I64 := -0x8000_0000_0000_0000
  const MAX_U64 := 0xFFFF_FFFF_FFFF_FFFF

  // ---- The order of keys and the sort.

  /** The order of code points, which is the order of the UTF-8 bytes. */
  predicate Less(a: string, b: string) {
    if b == [] then false
    else if a == [] then true
    else a[0] < b[0] || (a[0] == b[0] && Less(a[1..], b[1..]))
  }

  function Insert(m: Member, ms: seq<Member>): seq<Member> {
    if ms == [] || !Less(ms[0].key, m.key) then [m] + ms else [ms[0]] + Insert(m, ms[1..])
  }

  function Sort(ms: seq<Member>): seq<Member> {
    if ms == [] then [] else Insert(ms[0], Sort(ms[1..]))
  }

  predicate UniqueKeys(ms: seq<Member>) {
    forall i, j :: 0 <= i < j < |ms| ==> ms[i].key != ms[j].key
  }

  predicate Strict(ms: seq<Member>) {
    forall i, j :: 0 <= i < j < |ms| ==> Less(ms[i].key, ms[j].key)
  }

  predicate Ordered(ms: seq<Member>) {
    forall i, j :: 0 <= i < j < |ms| ==> !Less(ms[j].key, ms[i].key)
  }

  /** The scan over neighbours that finds a duplicate key after the sort. */
  predicate NeighboursDiffer(ms: seq<Member>) {
    forall i :: 0 < i < |ms| ==> ms[i - 1].key != ms[i].key
  }

  lemma {:induction false} LessTotal(a: string, b: string)
    ensures Less(a, b) || Less(b, a) || a == b
    ensures !(Less(a, b) && Less(b, a))
    ensures a == b ==> !Less(a, b)
    decreases |a|
  {
    if a != [] && b != [] {
      LessTotal(a[1..], b[1..]);
      assert a == [a[0]] + a[1..] && b == [b[0]] + b[1..];
    }
  }

  lemma {:induction false} LessTransitive(a: string, b: string, c: string)
    requires Less(a, b) && !Less(c, b)
    ensures Less(a, c)
    decreases |a|
  {
    LessTotal(b, c);
    if a != [] && b != [] && c != [] && a[0] == b[0] == c[0] {
      LessTransitive(a[1..], b[1..], c[1..]);
    }
  }

  lemma OrderedCons(m: Member, ms: seq<Member>)
    ensures Ordered([m] + ms) <==> Ordered(ms) && forall x <- ms :: !Less(x.key, m.key)
  {
    var r := [m] + ms;
    if Ordered(r) {
      forall i, j | 0 <= i < j < |ms| ensures !Less(ms[j].key, ms[i].key) {
        assert r[i + 1] == ms[i] && r[j + 1] == ms[j];
      }
      forall x | x in ms ensures !Less(x.key, m.key) {
        var k :| 0 <= k < |ms| && ms[k] == x;
        assert r[0] == m && r[k + 1] == x;
      }
    }
  }

  lemma UniqueCons(m: Member, ms: seq<Member>)
    ensures UniqueKeys([m] + ms) <==> UniqueKeys(ms) && forall x <- ms :: x.key != m.key
  {
    var r := [m] + ms;
    if UniqueKeys(r) {
      forall i, j | 0 <= i < j < |ms| ensures ms[i].key != ms[j].key { assert r[i + 1] == ms[i] && r[j + 1] == ms[j]; }
      forall x | x in ms ensures x.key != m.key {
        var k :| 0 <= k < |ms| && ms[k] == x;
        assert r[0] == m && r[k + 1] == x;
      }
    }
  }

  lemma {:induction false} InsertMembers(m: Member, ms: seq<Member>)
    ensures multiset(Insert(m, ms)) == multiset(ms) + multiset{m}
    ensures |Insert(m, ms)| == |ms| + 1
    ensures forall x :: x in Insert(m, ms) <==> x == m || x in ms
    decreases |ms|
  {
    if ms != [] {
      assert ms == [ms[0]] + ms[1..];
      if Less(ms[0].key, m.key) { InsertMembers(m, ms[1..]); }
    }
  }

  lemma {:induction false} InsertOrdered(m: Member, ms: seq<Member>)
    requires Ordered(ms)
    ensures Ordered(Insert(m, ms))
    decreases |ms|
  {
    if ms == [] {
    } else if !Less(ms[0].key, m.key) {
      forall x | x in ms ensures !Less(x.key, m.key) { NotBelow(ms, x, m); }
      OrderedCons(m, ms);
    } else {
      assert ms == [ms[0]] + ms[1..];
      OrderedCons(ms[0], ms[1..]);
      InsertMembers(m, ms[1..]);
      InsertOrdered(m, ms[1..]);
      LessTotal(ms[0].key, m.key);
      OrderedCons(ms[0], Insert(m, ms[1..]));
    }
  }

  lemma NotBelow(ms: seq<Member>, x: Member, m: Member)
    requires Ordered(ms) && x in ms && !Less(ms[0].key, m.key)
    ensures !Less(x.key, m.key)
  {
    assert ms == [ms[0]] + ms[1..];
    OrderedCons(ms[0], ms[1..]);
    if Less(x.key, m.key) {
      LessTotal(x.key, ms[0].key);
      BoundBelow(ms[0].key, x.key, m.key);
    }
  }

  lemma BoundBelow(a: string, b: string, c: string)
    requires !Less(b, a) && Less(b, c)
    ensures Less(a, c)
  {
    LessTotal(a, b);
    LessTotal(a, c);
    LessTotal(b, c);
    if Less(a, b) { LessTransitive(a, b, c); }
  }

  lemma {:induction false} SortKeeps(ms: seq<Member>)
    ensures multiset(Sort(ms)) == multiset(ms)
    ensures |Sort(ms)| == |ms|
    ensures Ordered(Sort(ms))
    decreases |ms|
  {
    if ms != [] {
      SortKeeps(ms[1..]);
      InsertMembers(ms[0], Sort(ms[1..]));
      InsertOrdered(ms[0], Sort(ms[1..]));
      assert ms == [ms[0]] + ms[1..];
    }
  }

  lemma {:induction false} SortMembers(ms: seq<Member>)
    ensures forall m :: m in Sort(ms) <==> m in ms
    decreases |ms|
  {
    if ms != [] {
      SortMembers(ms[1..]);
      InsertMembers(ms[0], Sort(ms[1..]));
      assert ms == [ms[0]] + ms[1..];
    }
  }

  /** The sort of a list is strict exactly when no key repeats in the list. */
  lemma {:induction false} SortUnique(ms: seq<Member>)
    ensures UniqueKeys(ms) <==> Strict(Sort(ms))
    decreases |ms|
  {
    if ms != [] {
      var rest := Sort(ms[1..]);
      SortUnique(ms[1..]);
      SortMembers(ms[1..]);
      SortKeeps(ms[1..]);
      InsertUnique(ms[0], rest);
      assert ms == [ms[0]] + ms[1..];
      UniqueCons(ms[0], ms[1..]);
    }
  }

  lemma {:induction false} InsertUnique(m: Member, ms: seq<Member>)
    requires Ordered(ms)
    ensures Strict(Insert(m, ms)) <==> Strict(ms) && forall x <- ms :: x.key != m.key
    decreases |ms|
  {
    if ms == [] {
    } else if !Less(ms[0].key, m.key) {
      forall x | x in ms ensures Less(m.key, x.key) <==> x.key != m.key {
        NotBelow(ms, x, m);
        LessTotal(m.key, x.key);
      }
      StrictCons(m, ms);
    } else {
      assert ms == [ms[0]] + ms[1..];
      OrderedCons(ms[0], ms[1..]);
      InsertUnique(m, ms[1..]);
      InsertMembers(m, ms[1..]);
      LessTotal(ms[0].key, m.key);
      StrictCons(ms[0], ms[1..]);
      StrictCons(ms[0], Insert(m, ms[1..]));
    }
  }

  lemma StrictCons(m: Member, ms: seq<Member>)
    ensures Strict([m] + ms) <==> Strict(ms) && forall x <- ms :: Less(m.key, x.key)
  {
    var r := [m] + ms;
    if Strict(r) {
      forall i, j | 0 <= i < j < |ms| ensures Less(ms[i].key, ms[j].key) {
        assert r[i + 1] == ms[i] && r[j + 1] == ms[j];
      }
      forall x | x in ms ensures Less(m.key, x.key) {
        var k :| 0 <= k < |ms| && ms[k] == x;
        assert r[0] == m && r[k + 1] == x;
      }
    }
  }

  /** The neighbour scan after the sort accepts exactly the duplicate-free objects. */
  lemma DuplicateScan(ms: seq<Member>)
    ensures NeighboursDiffer(Sort(ms)) <==> UniqueKeys(ms)
  {
    SortKeeps(ms);
    SortUnique(ms);
    NeighboursStrict(Sort(ms));
  }

  lemma {:induction false} NeighboursStrict(ms: seq<Member>)
    requires Ordered(ms)
    ensures NeighboursDiffer(ms) <==> Strict(ms)
    decreases |ms|
  {
    if |ms| > 1 {
      var rest := ms[1..];
      assert ms == [ms[0]] + rest;
      OrderedCons(ms[0], rest);
      NeighboursStrict(rest);
      StrictCons(ms[0], rest);
      NeighboursCons(ms);
      assert rest[0] in rest;
      LessTotal(ms[0].key, rest[0].key);
      if Strict(rest) && Less(ms[0].key, rest[0].key) { StrictHead(ms[0].key, rest); }
    }
  }

  lemma NeighboursCons(ms: seq<Member>)
    requires |ms| > 1
    ensures NeighboursDiffer(ms) <==> NeighboursDiffer(ms[1..]) && ms[0].key != ms[1].key
  {
    var rest := ms[1..];
    forall i | 0 < i < |rest| ensures rest[i] == ms[i + 1] && rest[i - 1] == ms[i] {}
    if NeighboursDiffer(rest) && ms[0].key != ms[1].key {
      forall i | 0 < i < |ms| ensures ms[i - 1].key != ms[i].key {
        if i > 1 { assert rest[i - 1] == ms[i] && rest[i - 2] == ms[i - 1]; }
      }
    }
  }

  lemma StrictHead(key: string, ms: seq<Member>)
    requires ms != [] && Strict(ms) && Less(key, ms[0].key)
    ensures forall x <- ms :: Less(key, x.key)
  {
    forall x | x in ms ensures Less(key, x.key) {
      var k :| 0 <= k < |ms| && ms[k] == x;
      if k > 0 {
        LessTotal(ms[0].key, x.key);
        LessTransitive(key, ms[0].key, x.key);
      }
    }
  }

  /** A strictly ordered list is determined by its members. */
  lemma {:induction false} StrictSame(xs: seq<Member>, ys: seq<Member>)
    requires Strict(xs) && Strict(ys)
    requires forall m :: m in xs <==> m in ys
    ensures xs == ys
    decreases |xs|
  {
    assert |xs| > 0 ==> xs[0] in xs;
    assert |ys| > 0 ==> ys[0] in ys;
    if xs != [] && ys != [] {
      var x, y, restX, restY := xs[0], ys[0], xs[1..], ys[1..];
      assert xs == [x] + restX && ys == [y] + restY;
      StrictCons(x, restX);
      StrictCons(y, restY);
      assert x in ys && y in xs;
      LessTotal(x.key, y.key);
      LessTotal(x.key, x.key);
      assert x == y;
      forall m ensures m in restX <==> m in restY {
        assert m in restX ==> m in xs && m != x;
        assert m in restY ==> m in ys && m != y;
      }
      StrictSame(restX, restY);
    }
  }

  // ---- Meaning.

  /** Two numbers mean the same: the same integer whatever its spelling, or the same double. */
  predicate SameNumber(a: Number, b: Number) {
    if a.OtherDouble? || b.OtherDouble? then a == b else a.n == b.n
  }

  /** Equal up to the order of object members and the spelling of safe integers. */
  ghost predicate Equivalent(a: Value, b: Value)
    decreases a
  {
    match a
    case Num(x) => b.Num? && SameNumber(x, b.number)
    case Arr(items) =>
      b.Arr? && |items| == |b.items| && forall i :: 0 <= i < |items| ==> Equivalent(items[i], b.items[i])
    case Obj(members) =>
      b.Obj? && |members| == |b.members| &&
      forall i :: 0 <= i < |members| ==> HasEquivalent(members[i], b.members)
    case _ => a == b
  }

  ghost predicate HasEquivalent(m: Member, ms: seq<Member>)
    decreases m, 1
  {
    exists j :: 0 <= j < |ms| && ms[j].key == m.key && Equivalent(m.value, ms[j].value)
  }

  /** The normal form: safe integers as integers, members sorted. */
  function Norm(v: Value): Value {
    match v
    case Num(SafeDouble(n)) => Num(Whole(n))
    case Arr(items) => Arr(NormEach(items))
    case Obj(members) => Obj(Sort(NormMembers(members)))
    case _ => v
  }

  function NormEach(items: seq<Value>): (r: seq<Value>)
    ensures |r| == |items|
  {
    if items == [] then [] else assert items decreases to items[0]; [Norm(items[0])] + NormEach(items[1..])
  }

  function NormMembers(ms: seq<Member>): (r: seq<Member>)
    ensures |r| == |ms|
    ensures forall i | 0 <= i < |ms| :: r[i].key == ms[i].key
  {
    if ms == [] then []
    else assert ms decreases to ms[0]; [Member(ms[0].key, Norm(ms[0].value))] + NormMembers(ms[1..])
  }

  /** No object of the value has a duplicate key. */
  predicate DuplicateFree(v: Value) {
    match v
    case Arr(items) => forall i :: 0 <= i < |items| ==> DuplicateFree(items[i])
    case Obj(members) => UniqueKeys(members) && forall i :: 0 <= i < |members| ==> DuplicateFree(members[i].value)
    case _ => true
  }

  lemma {:induction false} NormEachAt(items: seq<Value>, i: nat)
    requires i < |items|
    ensures NormEach(items)[i] == Norm(items[i])
  {
    if i > 0 { NormEachAt(items[1..], i - 1); }
  }

  lemma {:induction false} NormMembersAt(ms: seq<Member>, i: nat)
    requires i < |ms|
    ensures NormMembers(ms)[i] == Member(ms[i].key, Norm(ms[i].value))
  {
    if i > 0 { NormMembersAt(ms[1..], i - 1); }
  }

  lemma NormKeysUnique(ms: seq<Member>)
    requires UniqueKeys(ms)
    ensures UniqueKeys(NormMembers(ms)) && Strict(Sort(NormMembers(ms)))
  {
    SortUnique(NormMembers(ms));
  }

  /** Lists of members with distinct keys sort to the same list when they hold the same members. */
  lemma SortedSame(xs: seq<Member>, ys: seq<Member>)
    requires UniqueKeys(xs) && UniqueKeys(ys)
    ensures Sort(xs) == Sort(ys) <==> |xs| == |ys| && forall m <- xs :: m in ys
  {
    SortKeeps(xs);
    SortKeeps(ys);
    SortMembers(xs);
    SortMembers(ys);
    SortUnique(xs);
    SortUnique(ys);
    if |xs| == |ys| && forall m <- xs :: m in ys {
      NoMoreMembers(xs, ys);
      StrictSame(Sort(xs), Sort(ys));
    }
    if Sort(xs) == Sort(ys) {
      forall m | m in xs ensures m in ys { assert m in Sort(xs); }
    }
  }

  lemma NoMoreMembers(xs: seq<Member>, ys: seq<Member>)
    requires UniqueKeys(xs) && UniqueKeys(ys) && |xs| == |ys|
    requires forall m <- xs :: m in ys
    ensures forall m <- ys :: m in xs
  {
    var sx, sy := set m <- xs, set m <- ys;
    SetSize(xs);
    SetSize(ys);
    assert sx <= sy;
    SubsetSize(sx, sy);
    forall m | m in ys ensures m in xs { assert m in sy; }
  }

  lemma SubsetSize<T>(a: set<T>, b: set<T>)
    requires a <= b && |a| == |b|
    ensures a == b
  {
    assert |b - a| == |b| - |a|;
  }

  lemma {:induction false} SetSize(ms: seq<Member>)
    requires UniqueKeys(ms)
    ensures |(set m <- ms)| == |ms|
    decreases |ms|
  {
    if ms != [] {
      var front, last := ms[..|ms| - 1], ms[|ms| - 1];
      SetSize(front);
      assert ms == front + [last];
      assert (set m <- ms) == (set m <- front) + {last};
      assert last !in front;
    }
  }

  /** The normal form decides equivalence. */
  lemma {:induction false} NormExact(a: Value, b: Value)
    requires DuplicateFree(a) && DuplicateFree(b)
    ensures Norm(a) == Norm(b) <==> Equivalent(a, b)
    decreases a
  {
    match a
    case Arr(items) =>
      if b.Arr? && |items| == |b.items| {
        forall i | 0 <= i < |items|
          ensures (NormEach(items)[i] == NormEach(b.items)[i]) <==> Equivalent(items[i], b.items[i])
        {
          NormExact(items[i], b.items[i]);
          NormEachAt(items, i);
          NormEachAt(b.items, i);
        }
      }
    case Obj(members) =>
      if b.Obj? { NormExactMembers(members, b.members); }
    case _ =>
  }

  lemma {:induction false} NormExactMembers(ms: seq<Member>, ns: seq<Member>)
    requires DuplicateFree(Obj(ms)) && DuplicateFree(Obj(ns))
    ensures Sort(NormMembers(ms)) == Sort(NormMembers(ns)) <==> Equivalent(Obj(ms), Obj(ns))
    decreases ms, 1
  {
    var xs, ys := NormMembers(ms), NormMembers(ns);
    NormKeysUnique(ms);
    NormKeysUnique(ns);
    SortedSame(xs, ys);
    forall i | 0 <= i < |ms| ensures xs[i] in ys <==> HasEquivalent(ms[i], ns) { NormExactMember(ms, i, ns); }
    AllIn(xs, ys);
  }

  lemma AllIn(xs: seq<Member>, ys: seq<Member>)
    ensures (forall m <- xs :: m in ys) <==> (forall i :: 0 <= i < |xs| ==> xs[i] in ys)
  {
  }

  lemma {:induction false} NormExactMember(ms: seq<Member>, i: nat, ns: seq<Member>)
    requires i < |ms| && DuplicateFree(Obj(ms)) && DuplicateFree(Obj(ns))
    ensures NormMembers(ms)[i] in NormMembers(ns) <==> HasEquivalent(ms[i], ns)
    decreases ms, 0
  {
    assert ms decreases to ms[i];
    var ys := NormMembers(ns);
    NormMembersAt(ms, i);
    forall j | 0 <= j < |ns|
      ensures (NormMembers(ms)[i] == ys[j]) <==> (ns[j].key == ms[i].key && Equivalent(ms[i].value, ns[j].value))
    {
      NormExact(ms[i].value, ns[j].value);
      NormMembersAt(ns, j);
    }
  }
}
