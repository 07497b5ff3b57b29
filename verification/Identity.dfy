/**
  * The texts that crates/policysql-transaction/src/identity.rs hashes. SHA-256 is not
  * part of this model; what is proved is which inputs share a text.
  */
module Identity {
  import opened Core
  import opened Text
  import opened Json
  import opened JsonText
  import opened Canonical

  datatype IdentityError = KeyInvalid | Internal

  // ---- Reading the input.

  function Find(ms: seq<Member>, key: string): Option<Value> {
    if ms == [] then None else if ms[0].key == key then Some(ms[0].value) else Find(ms[1..], key)
  }

  function Get(v: Value, key: string): Option<Value> {
    if v.Obj? then Find(v.members, key) else None
  }

  predicate ExactKeys(v: Value, required: seq<string>, optional: seq<string>) {
    v.Obj? && (forall m <- v.members :: m.key in required || m.key in optional) &&
    forall key <- required :: Get(v, key).Some?
  }

  predicate IsString(v: Option<Value>) {
    v.Some? && v.value.Str?
  }

  datatype Caller = Caller(principal: string, subject: string, role: string, session: Value)

  predicate StringList(v: Option<Value>) {
    v.None? || (v.value.Arr? && forall item <- v.value.items :: item.Str?)
  }

  /** The identity fields of a canonical session. */
  function ReadCaller(v: Option<Value>): Result<Caller, IdentityError> {
    if v.None? || !ExactKeys(v.value, ["principal", "subject", "role", "session"], ["roles", "access"])
        then Err(Internal)
    else if !StringList(Get(v.value, "roles")) || !StringList(Get(v.value, "access")) then Err(Internal)
    else
      var principal, subject, role := Get(v.value, "principal"), Get(v.value, "subject"), Get(v.value, "role");
      var session := Get(v.value, "session").value;
      if !IsString(principal) || !IsString(subject) || !IsString(role) then Err(Internal)
      else if !session.Obj? || exists m <- session.members :: !m.value.Str? then Err(Internal)
      else Ok(Caller(principal.value.text, subject.value.text, role.value.text, session))
  }

  const BINDING_KEYS := ["version", "scope", "databaseId", "generation", "snapshot"]

  predicate IsOne(v: Option<Value>) {
    v.Some? && v.value.Num? && (v.value.number == Whole(1) || v.value.number == SafeDouble(1))
  }

  predicate IsBinding(v: Value) {
    ExactKeys(v, BINDING_KEYS, []) && IsOne(Get(v, "version")) &&
    IsString(Get(v, "scope")) && IsString(Get(v, "databaseId")) &&
    IsString(Get(v, "generation")) && IsString(Get(v, "snapshot"))
  }

  /** A text part of a binding. */
  function Part(binding: Value, name: string): string
    requires IsString(Get(binding, name))
  {
    Get(binding, name).value.text
  }

  predicate KeyByte(b: int) {
    'A' as int <= b <= 'Z' as int || 'a' as int <= b <= 'z' as int || '0' as int <= b <= '9' as int ||
    b == '.' as int || b == '_' as int || b == ':' as int || b == '-' as int || b == '+' as int || b == '/' as int ||
    b == '=' as int
  }

  predicate ValidIdempotencyKey(key: string) {
    16 <= |Utf8Bytes(key)| <= 128 && forall b <- Utf8Bytes(key) :: KeyByte(b)
  }

  datatype Parts = Parts(caller: Caller, endpoint: string, binding: Value, body: Value, key: string)

  /** The `request` operation up to the hashes: no identity without a key. */
  function Request(f: Floats, input: Value): Result<Option<Parts>, IdentityError> {
    if !ExactKeys(input, ["op", "endpoint", "auth", "binding", "body"], ["key"]) then Err(Internal)
    else
      var endpoint, binding, body := Get(input, "endpoint").value, Get(input, "binding").value,
          Get(input, "body").value;
      if !endpoint.Str? || (endpoint.text != "execute" && endpoint.text != "interactive-start") then Err(Internal)
      else
        var caller :- ReadCaller(Get(input, "auth"));
        if !IsBinding(binding) || !body.Str? then Err(Internal)
        else
          var parsed := ParseWithMaxDepth(f, body.text, MAX_DEPTH);
          if parsed.None? then Err(Internal)
          else match Get(input, "key")
            case None => Ok(None)
            case Some(key) =>
              if !key.Str? || !ValidIdempotencyKey(key.text) then Err(KeyInvalid)
              else Ok(Some(Parts(caller, endpoint.text, binding, parsed.value, key.text)))
  }

  // ---- The texts.

  function DropKey(ms: seq<Member>, key: string): seq<Member> {
    if ms == [] then [] else (if ms[0].key == key then [] else [ms[0]]) + DropKey(ms[1..], key)
  }

  function WithoutSnapshot(binding: Value): Value
    requires binding.Obj?
  {
    Obj(DropKey(binding.members, "snapshot"))
  }

  /** An object built from its keys and values. */
  function Record(keys: seq<string>, values: seq<Value>): (v: Value)
    requires |keys| == |values|
    ensures v.Obj?
  {
    Obj(seq(|keys|, i requires 0 <= i < |keys| => Member(keys[i], values[i])))
  }

  function Database(scope: string, databaseId: string): Value {
    Record(["scope", "databaseId"], [Str(scope), Str(databaseId)])
  }

  const IDENTITY_KEYS := ["principal", "subject", "role", "session", "endpoint", "database"]

  function IdentityFields(p: Parts): seq<Value>
    requires IsBinding(p.binding)
  {
    [Str(p.caller.principal), Str(p.caller.subject), Str(p.caller.role), p.caller.session, Str(p.endpoint),
     Database(Part(p.binding, "scope"), Part(p.binding, "databaseId"))]
  }

  function IdentityValue(p: Parts): Value
    requires IsBinding(p.binding)
  {
    Record(IDENTITY_KEYS, IdentityFields(p))
  }

  function KeyPreimage(p: Parts): string
    requires IsBinding(p.binding)
  {
    ToCanonical(IdentityValue(p)) + ":" + p.key
  }

  function FingerprintPreimage(p: Parts): string
    requires IsBinding(p.binding)
  {
    ToCanonical(IdentityValue(p)) + ":" + ToCanonical(p.body) + ":" + ToCanonical(WithoutSnapshot(p.binding))
  }

  const AUTH_KEYS := ["principal", "subject", "role", "session", "databaseBinding"]

  /** The auth fingerprint's object. */
  function AuthValue(caller: Caller, binding: Value): Value {
    Record(AUTH_KEYS, [Str(caller.principal), Str(caller.subject), Str(caller.role), caller.session, binding])
  }

  const REPLAY_KEYS := ["replay", "principal", "subject", "role", "session", "database"]

  /** The replay identity's object. */
  function ReplayValue(caller: Caller, binding: Value): Value
    requires binding.Obj?
  {
    Record(REPLAY_KEYS, [Str("v1"), Str(caller.principal), Str(caller.subject), Str(caller.role), caller.session,
                         WithoutSnapshot(binding)])
  }

  // ---- What the parts mean.

  ghost predicate SameCaller(a: Caller, b: Caller) {
    a.principal == b.principal && a.subject == b.subject && a.role == b.role && Equivalent(a.session, b.session)
  }

  ghost predicate SameIdentity(p: Parts, q: Parts)
    requires IsBinding(p.binding) && IsBinding(q.binding)
  {
    SameCaller(p.caller, q.caller) && p.endpoint == q.endpoint &&
    Part(p.binding, "scope") == Part(q.binding, "scope") &&
    Part(p.binding, "databaseId") == Part(q.binding, "databaseId")
  }

  /** The bindings agree on everything but the snapshot. */
  predicate SameDatabase(a: Value, b: Value)
    requires IsBinding(a) && IsBinding(b)
  {
    Part(a, "scope") == Part(b, "scope") && Part(a, "databaseId") == Part(b, "databaseId") &&
    Part(a, "generation") == Part(b, "generation")
  }

  ghost predicate GoodCaller(f: Floats, c: Caller) {
    WellFormed(f, c.session)
  }

  ghost predicate GoodBinding(f: Floats, b: Value) {
    WellFormed(f, b) && IsBinding(b)
  }

  ghost predicate GoodParts(f: Floats, p: Parts) {
    GoodCaller(f, p.caller) && GoodBinding(f, p.binding) && WellFormed(f, p.body) && ValidIdempotencyKey(p.key)
  }

  // ---- Objects compared by key.

  lemma {:induction false} FindMember(ms: seq<Member>, key: string)
    ensures Find(ms, key).Some? <==> exists m <- ms :: m.key == key
    ensures Find(ms, key).Some? ==> Member(key, Find(ms, key).value) in ms
  {
    if ms != [] {
      FindMember(ms[1..], key);
      assert ms == [ms[0]] + ms[1..];
    }
  }

  lemma FindUnique(ms: seq<Member>, m: Member)
    requires UniqueKeys(ms) && m in ms
    ensures Find(ms, m.key) == Some(m.value)
  {
    FindMember(ms, m.key);
  }

  lemma {:induction false} KeyCount(ms: seq<Member>)
    requires UniqueKeys(ms)
    ensures |(set m <- ms :: m.key)| == |ms|
    decreases |ms|
  {
    if ms != [] {
      var front, last := ms[..|ms| - 1], ms[|ms| - 1];
      KeyCount(front);
      assert ms == front + [last];
      assert (set m <- ms :: m.key) == (set m <- front :: m.key) + {last.key};
      assert last.key !in (set m <- front :: m.key);
    }
  }

  predicate HasKeys(ms: seq<Member>, keys: seq<string>) {
    (forall m <- ms :: m.key in keys) && forall key <- keys :: Find(ms, key).Some?
  }

  lemma KeySets(ms: seq<Member>, keys: seq<string>)
    requires HasKeys(ms, keys)
    ensures (set m <- ms :: m.key) == (set key <- keys)
  {
    forall key | key in keys ensures key in (set m <- ms :: m.key) { FindMember(ms, key); }
  }

  /** Objects with the same keys are equivalent when the values under each key are. */
  lemma EquivalentByKey(a: seq<Member>, b: seq<Member>, keys: seq<string>)
    requires UniqueKeys(a) && UniqueKeys(b) && HasKeys(a, keys) && HasKeys(b, keys)
    ensures Equivalent(Obj(a), Obj(b)) <==>
            forall key <- keys :: Equivalent(Find(a, key).value, Find(b, key).value)
  {
    KeySets(a, keys);
    KeySets(b, keys);
    KeyCount(a);
    KeyCount(b);
    forall i | 0 <= i < |a|
      ensures HasEquivalent(a[i], b) <==> Equivalent(Find(a, a[i].key).value, Find(b, a[i].key).value)
    {
      FindUnique(a, a[i]);
      MemberByKey(a[i], b);
    }
    forall key | key in keys ensures exists i :: 0 <= i < |a| && a[i].key == key { FindMember(a, key); }
  }

  lemma MemberByKey(m: Member, b: seq<Member>)
    requires UniqueKeys(b) && Find(b, m.key).Some?
    ensures HasEquivalent(m, b) <==> Equivalent(m.value, Find(b, m.key).value)
  {
    FindMember(b, m.key);
    forall j | 0 <= j < |b| && b[j].key == m.key ensures Find(b, m.key) == Some(b[j].value) { FindUnique(b, b[j]); }
  }

  /** Objects written with the same keys in the same order. */
  lemma EquivalentByPosition(a: seq<Member>, b: seq<Member>)
    requires |a| == |b| && UniqueKeys(a) && forall i :: 0 <= i < |a| ==> a[i].key == b[i].key
    ensures Equivalent(Obj(a), Obj(b)) <==> forall i :: 0 <= i < |a| ==> Equivalent(a[i].value, b[i].value)
  {
    forall i | 0 <= i < |a| ensures HasEquivalent(a[i], b) <==> Equivalent(a[i].value, b[i].value) {
      forall j | 0 <= j < |b| && b[j].key == a[i].key ensures j == i {}
    }
  }

  // ---- Built objects.

  predicate Distinct(keys: seq<string>) {
    forall i, j :: 0 <= i < j < |keys| ==> keys[i] != keys[j]
  }

  lemma DistinctKeys()
    ensures Distinct(["scope", "databaseId"]) && Distinct(IDENTITY_KEYS) && Distinct(AUTH_KEYS) && Distinct(REPLAY_KEYS)
  {
    assert |"scope"| == 5 && |"databaseId"| == 10;
    var principal, subject, role, session := "principal", "subject", "role", "session";
    assert |principal| == 9 && |role| == 4;
    assert |subject| == 7 && subject[1] == 'u' && |session| == 7 && session[1] == 'e';
    assert |"endpoint"| == 8 && "endpoint"[0] == 'e' && |"database"| == 8 && "database"[0] == 'd';
    assert |"replay"| == 6 && |"databaseBinding"| == 15;
  }

  lemma RecordGood(f: Floats, keys: seq<string>, values: seq<Value>)
    requires |keys| == |values| && Distinct(keys) && forall i :: 0 <= i < |values| ==> WellFormed(f, values[i])
    ensures WellFormed(f, Record(keys, values))
  {
  }

  lemma RecordExact(keys: seq<string>, vs: seq<Value>, ws: seq<Value>)
    requires |keys| == |vs| == |ws| && Distinct(keys)
    ensures Equivalent(Record(keys, vs), Record(keys, ws)) <==> AllEquivalent(vs, ws)
  {
    AllAt(vs, ws);
    var a, b := Record(keys, vs).members, Record(keys, ws).members;
    EquivalentByPosition(a, b);
    assert forall i :: 0 <= i < |vs| ==> a[i].value == vs[i] && b[i].value == ws[i];
  }

  ghost predicate AllEquivalent(vs: seq<Value>, ws: seq<Value>)
    requires |vs| == |ws|
  {
    vs == [] || (Equivalent(vs[0], ws[0]) && AllEquivalent(vs[1..], ws[1..]))
  }

  /** A list of values is equivalent to another when its head and its tail are. */
  lemma AllCons(v: Value, vs: seq<Value>, w: Value, ws: seq<Value>)
    requires |vs| == |ws|
    ensures AllEquivalent([v] + vs, [w] + ws) <==> Equivalent(v, w) && AllEquivalent(vs, ws)
  {
    assert ([v] + vs)[1..] == vs && ([w] + ws)[1..] == ws;
  }

  lemma {:induction false} AllAt(vs: seq<Value>, ws: seq<Value>)
    requires |vs| == |ws|
    ensures AllEquivalent(vs, ws) <==> forall i :: 0 <= i < |vs| ==> Equivalent(vs[i], ws[i])
  {
    if vs != [] {
      AllAt(vs[1..], ws[1..]);
      if AllEquivalent(vs, ws) {
        forall i | 0 <= i < |vs| ensures Equivalent(vs[i], ws[i]) {
          if i > 0 { assert vs[i] == vs[1..][i - 1] && ws[i] == ws[1..][i - 1]; }
        }
      }
      if forall i :: 0 <= i < |vs| ==> Equivalent(vs[i], ws[i]) {
        forall i | 0 <= i < |vs[1..]| ensures Equivalent(vs[1..][i], ws[1..][i]) {
          assert vs[1..][i] == vs[i + 1] && ws[1..][i] == ws[i + 1];
        }
      }
    }
  }

  lemma OneField(v: Value, w: Value)
    ensures AllEquivalent([v], [w]) <==> Equivalent(v, w)
  {
    assert [v][1..] == [] && [w][1..] == [];
  }

  lemma Texts(x: string, y: string)
    ensures Equivalent(Str(x), Str(y)) <==> x == y
  {
  }

  lemma DatabaseExact(scope: string, databaseId: string, scope': string, databaseId': string)
    ensures Equivalent(Database(scope, databaseId), Database(scope', databaseId')) <==>
            scope == scope' && databaseId == databaseId'
  {
    var vs, ws := [Str(scope), Str(databaseId)], [Str(scope'), Str(databaseId')];
    DistinctKeys();
    RecordExact(["scope", "databaseId"], vs, ws);
    TwoFields(vs[0], vs[1], ws[0], ws[1]);
  }

  /** The caller fields in front of others. */
  lemma CallerFields(a: Caller, vs: seq<Value>, b: Caller, ws: seq<Value>)
    requires |vs| == |ws|
    ensures AllEquivalent([Str(a.principal), Str(a.subject), Str(a.role), a.session] + vs,
                          [Str(b.principal), Str(b.subject), Str(b.role), b.session] + ws) <==>
            SameCaller(a, b) && AllEquivalent(vs, ws)
  {
    var v3, w3 := [a.session] + vs, [b.session] + ws;
    var v2, w2 := [Str(a.role)] + v3, [Str(b.role)] + w3;
    var v1, w1 := [Str(a.subject)] + v2, [Str(b.subject)] + w2;
    var v0, w0 := [Str(a.principal)] + v1, [Str(b.principal)] + w1;
    AllCons(a.session, vs, b.session, ws);
    AllCons(Str(a.role), v3, Str(b.role), w3);
    AllCons(Str(a.subject), v2, Str(b.subject), w2);
    AllCons(Str(a.principal), v1, Str(b.principal), w1);
    assert v0 == [Str(a.principal), Str(a.subject), Str(a.role), a.session] + vs;
    assert w0 == [Str(b.principal), Str(b.subject), Str(b.role), b.session] + ws;
  }

  lemma TwoFields(v: Value, v': Value, w: Value, w': Value)
    ensures AllEquivalent([v, v'], [w, w']) <==> Equivalent(v, w) && Equivalent(v', w')
  {
    AllCons(v, [v'], w, [w']);
    assert [v, v'] == [v] + [v'] && [w, w'] == [w] + [w'];
    OneField(v', w');
  }

  // ---- The identity object.

  lemma IdentityGood(f: Floats, p: Parts)
    requires GoodParts(f, p)
    ensures WellFormed(f, IdentityValue(p))
  {
    DistinctKeys();
    var scope, databaseId := Part(p.binding, "scope"), Part(p.binding, "databaseId");
    RecordGood(f, ["scope", "databaseId"], [Str(scope), Str(databaseId)]);
    RecordGood(f, IDENTITY_KEYS, IdentityFields(p));
  }

  lemma IdentityExact(p: Parts, q: Parts)
    requires IsBinding(p.binding) && IsBinding(q.binding)
    ensures Equivalent(IdentityValue(p), IdentityValue(q)) <==> SameIdentity(p, q)
  {
    var vs := [Str(p.endpoint), Database(Part(p.binding, "scope"), Part(p.binding, "databaseId"))];
    var ws := [Str(q.endpoint), Database(Part(q.binding, "scope"), Part(q.binding, "databaseId"))];
    DistinctKeys();
    RecordExact(IDENTITY_KEYS, IdentityFields(p), IdentityFields(q));
    CallerFields(p.caller, vs, q.caller, ws);
    TwoFields(vs[0], vs[1], ws[0], ws[1]);
    DatabaseExact(Part(p.binding, "scope"), Part(p.binding, "databaseId"),
                  Part(q.binding, "scope"), Part(q.binding, "databaseId"));
    assert IdentityFields(p)
           == [Str(p.caller.principal), Str(p.caller.subject), Str(p.caller.role), p.caller.session] + vs;
    assert IdentityFields(q)
           == [Str(q.caller.principal), Str(q.caller.subject), Str(q.caller.role), q.caller.session] + ws;
  }

  // ---- The binding with and without its snapshot.

  lemma {:induction false} DropKeyKeeps(ms: seq<Member>, key: string)
    ensures forall m :: m in DropKey(ms, key) <==> m in ms && m.key != key
    ensures UniqueKeys(ms) ==> UniqueKeys(DropKey(ms, key))
    ensures forall other :: other != key ==> Find(DropKey(ms, key), other) == Find(ms, other)
    decreases |ms|
  {
    if ms != [] {
      var rest := DropKey(ms[1..], key);
      DropKeyKeeps(ms[1..], key);
      assert ms == [ms[0]] + ms[1..];
      UniqueCons(ms[0], ms[1..]);
      if ms[0].key == key {
        assert DropKey(ms, key) == rest;
      } else {
        assert DropKey(ms, key)[1..] == rest;
        UniqueCons(ms[0], rest);
      }
    }
  }

  const DATABASE_KEYS := ["version", "scope", "databaseId", "generation"]

  lemma KeptKeys()
    ensures BINDING_KEYS == DATABASE_KEYS + ["snapshot"]
    ensures forall key <- DATABASE_KEYS :: key != "snapshot"
  {
    assert |"version"| == 7 && |"scope"| == 5 && |"databaseId"| == 10 && |"generation"| == 10 && |"snapshot"| == 8;
  }

  lemma SnapshotDropped(f: Floats, b: Value)
    requires GoodBinding(f, b)
    ensures WellFormed(f, WithoutSnapshot(b)) && UniqueKeys(WithoutSnapshot(b).members)
    ensures HasKeys(WithoutSnapshot(b).members, DATABASE_KEYS)
    ensures forall key <- DATABASE_KEYS :: Find(WithoutSnapshot(b).members, key) == Get(b, key)
  {
    var ms := b.members;
    KeptKeys();
    DropKeyKeeps(ms, "snapshot");
    forall m | m in DropKey(ms, "snapshot") ensures m.key in DATABASE_KEYS && WellFormed(f, m.value) {
      assert m in ms && m.key in BINDING_KEYS;
    }
    forall key | key in DATABASE_KEYS ensures key in BINDING_KEYS {}
  }

  lemma VersionsAgree(a: Value, b: Value)
    requires IsBinding(a) && IsBinding(b)
    ensures Equivalent(Get(a, "version").value, Get(b, "version").value)
  {
  }

  /** Without the snapshots two bindings are equivalent exactly when scope, database and generation agree. */
  lemma WithoutSnapshotExact(f: Floats, a: Value, b: Value)
    requires GoodBinding(f, a) && GoodBinding(f, b)
    ensures Equivalent(WithoutSnapshot(a), WithoutSnapshot(b)) <==> SameDatabase(a, b)
  {
    SnapshotDropped(f, a);
    SnapshotDropped(f, b);
    EquivalentByKey(WithoutSnapshot(a).members, WithoutSnapshot(b).members, DATABASE_KEYS);
    VersionsAgree(a, b);
    assert forall key <- DATABASE_KEYS :: Equivalent(Find(WithoutSnapshot(a).members, key).value,
                                                     Find(WithoutSnapshot(b).members, key).value)
                                                         == SamePart(a, b, key);
    FourKeys(a, b);
  }

  ghost predicate SamePart(a: Value, b: Value, key: string) {
    Get(a, key).Some? && Get(b, key).Some? && Equivalent(Get(a, key).value, Get(b, key).value)
  }

  lemma FourKeys(a: Value, b: Value)
    requires IsBinding(a) && IsBinding(b)
    ensures (forall key <- DATABASE_KEYS :: SamePart(a, b, key)) <==> SameDatabase(a, b)
  {
    VersionsAgree(a, b);
    assert DATABASE_KEYS[0] == "version" && DATABASE_KEYS[1] == "scope";
    assert DATABASE_KEYS[2] == "databaseId" && DATABASE_KEYS[3] == "generation";
    assert (forall key <- DATABASE_KEYS :: SamePart(a, b, key)) <==>
           SamePart(a, b, "version") && SamePart(a, b, "scope") && SamePart(a, b, "databaseId") &&
               SamePart(a, b, "generation");
  }

  /** With the snapshots, those must agree as well. */
  lemma BindingExact(f: Floats, a: Value, b: Value)
    requires GoodBinding(f, a) && GoodBinding(f, b)
    ensures Equivalent(a, b) <==> SameDatabase(a, b) && Part(a, "snapshot") == Part(b, "snapshot")
  {
    EquivalentByKey(a.members, b.members, BINDING_KEYS);
    assert forall key <- BINDING_KEYS :: Equivalent(Find(a.members, key).value, Find(b.members, key).value) ==
                                         SamePart(a, b, key);
    FourKeys(a, b);
    KeptKeys();
    OneMore(a, b, DATABASE_KEYS, "snapshot");
    Texts(Part(a, "snapshot"), Part(b, "snapshot"));
  }

  lemma OneMore(a: Value, b: Value, keys: seq<string>, last: string)
    ensures (forall key <- keys + [last] :: SamePart(a, b, key)) <==>
            (forall key <- keys :: SamePart(a, b, key)) && SamePart(a, b, last)
  {
    if forall key <- keys + [last] :: SamePart(a, b, key) {
      assert last in keys + [last];
    }
  }

  // ---- The theorems.

  lemma {:induction false} KeyChars(key: string)
    requires forall b <- Utf8Bytes(key) :: KeyByte(b)
    ensures forall c <- key :: KeyByte(c as int)
    decreases |key|
  {
    if key != [] {
      var rest := Utf8Bytes(key[1..]);
      BytesSplit(Utf8(key[0]), rest);
      KeyChars(key[1..]);
      FirstByte(key[0]);
      assert key == [key[0]] + key[1..];
    }
  }

  lemma BytesSplit(a: ByteString, b: ByteString)
    requires forall x <- a + b :: KeyByte(x)
    ensures (forall x <- a :: KeyByte(x)) && (forall x <- b :: KeyByte(x))
  {
    forall x | x in a ensures KeyByte(x) { assert x in a + b; }
    forall x | x in b ensures KeyByte(x) { assert x in a + b; }
  }

  lemma FirstByte(c: char)
    requires forall x <- Utf8(c) :: KeyByte(x)
    ensures KeyByte(c as int)
  {
    assert Utf8(c)[0] in Utf8(c);
  }

  /** Equal key texts force the same identity and the same key, and conversely. */
  lemma KeyPreimageExact(f: Floats, p: Parts, q: Parts)
    requires GoodParts(f, p) && GoodParts(f, q)
    ensures KeyPreimage(p) == KeyPreimage(q) <==> SameIdentity(p, q) && p.key == q.key
  {
    var a, b, x, y := IdentityValue(p), IdentityValue(q), ":" + p.key, ":" + q.key;
    IdentityGood(f, p);
    IdentityGood(f, q);
    IdentityExact(p, q);
    CanonicalPrefixExact(f, a, x, b, y);
    Grouped(ToCanonical(a), ":", p.key);
    Grouped(ToCanonical(b), ":", q.key);
    assert x[1..] == p.key && y[1..] == q.key;
  }

  /** Two canonical texts joined by a colon decide the equivalence of both values. */
  lemma PairExact(f: Floats, a: Value, c: Value, b: Value, d: Value)
    requires WellFormed(f, a) && WellFormed(f, b) && WellFormed(f, c) && WellFormed(f, d)
    ensures ToCanonical(a) + (":" + ToCanonical(c)) == ToCanonical(b) + (":" + ToCanonical(d)) <==>
            Equivalent(a, b) && Equivalent(c, d)
  {
    var x, y := ":" + ToCanonical(c), ":" + ToCanonical(d);
    CanonicalPrefixExact(f, a, x, b, y);
    CanonicalExact(f, c, d);
    assert x[1..] == ToCanonical(c) && y[1..] == ToCanonical(d);
  }

  /** The part of the fingerprint text behind the identity and a colon. */
  function FingerprintTail(p: Parts): string
    requires p.binding.Obj?
  {
    ToCanonical(p.body) + (":" + ToCanonical(WithoutSnapshot(p.binding)))
  }

  lemma TailExact(f: Floats, p: Parts, q: Parts)
    requires GoodParts(f, p) && GoodParts(f, q)
    ensures FingerprintTail(p) == FingerprintTail(q) <==>
            Equivalent(p.body, q.body) && SameDatabase(p.binding, q.binding)
  {
    SnapshotDropped(f, p.binding);
    SnapshotDropped(f, q.binding);
    WithoutSnapshotExact(f, p.binding, q.binding);
    PairExact(f, p.body, WithoutSnapshot(p.binding), q.body, WithoutSnapshot(q.binding));
  }

  lemma FingerprintSplit(p: Parts)
    requires IsBinding(p.binding)
    ensures FingerprintPreimage(p) == ToCanonical(IdentityValue(p)) + (":" + FingerprintTail(p))
  {
    var a, b, c := ToCanonical(IdentityValue(p)), ToCanonical(p.body), ToCanonical(WithoutSnapshot(p.binding));
    assert a + ":" + b + ":" + c == a + (":" + (b + (":" + c)));
  }

  /**
    * Equal fingerprint texts mean the same identity, equivalent bodies and the same database
    * generation; the snapshot, and nothing else of the binding, does not matter.
    */
  lemma FingerprintExact(f: Floats, p: Parts, q: Parts)
    requires GoodParts(f, p) && GoodParts(f, q)
    ensures FingerprintPreimage(p) == FingerprintPreimage(q) <==>
            SameIdentity(p, q) && Equivalent(p.body, q.body) && SameDatabase(p.binding, q.binding)
  {
    var x, y := ":" + FingerprintTail(p), ":" + FingerprintTail(q);
    IdentityGood(f, p);
    IdentityGood(f, q);
    IdentityExact(p, q);
    TailExact(f, p, q);
    FingerprintSplit(p);
    FingerprintSplit(q);
    CanonicalPrefixExact(f, IdentityValue(p), x, IdentityValue(q), y);
    assert x[1..] == FingerprintTail(p) && y[1..] == FingerprintTail(q);
  }

  /** No key text is a fingerprint text. */
  lemma FamiliesDisjoint(f: Floats, p: Parts, q: Parts)
    requires GoodParts(f, p) && GoodParts(f, q)
    ensures KeyPreimage(p) != FingerprintPreimage(q)
  {
    KeyChars(p.key);
    var s, t := KeyPreimage(p), FingerprintPreimage(q);
    assert |p.key| > 0;
    assert s[|s| - 1] == p.key[|p.key| - 1];
    assert p.key[|p.key| - 1] in p.key;
    assert ToCanonical(WithoutSnapshot(q.binding))[|ToCanonical(WithoutSnapshot(q.binding))| - 1] == '}';
    assert t[|t| - 1] == '}';
  }

  /** The auth fingerprint sees the caller and the whole binding. */
  lemma AuthExact(f: Floats, c: Caller, a: Value, d: Caller, b: Value)
    requires GoodCaller(f, c) && GoodCaller(f, d) && GoodBinding(f, a) && GoodBinding(f, b)
    ensures ToCanonical(AuthValue(c, a)) == ToCanonical(AuthValue(d, b)) <==>
            SameCaller(c, d) && SameDatabase(a, b) && Part(a, "snapshot") == Part(b, "snapshot")
  {
    AuthFields(f, c, a);
    AuthFields(f, d, b);
    CanonicalExact(f, AuthValue(c, a), AuthValue(d, b));
    DistinctKeys();
    RecordExact(AUTH_KEYS, CallerValues(c) + [a], CallerValues(d) + [b]);
    CallerFields(c, [a], d, [b]);
    OneField(a, b);
    BindingExact(f, a, b);
  }

  function CallerValues(c: Caller): seq<Value> {
    [Str(c.principal), Str(c.subject), Str(c.role), c.session]
  }

  lemma AuthFields(f: Floats, c: Caller, a: Value)
    requires GoodCaller(f, c) && WellFormed(f, a)
    ensures AuthValue(c, a) == Record(AUTH_KEYS, CallerValues(c) + [a]) && WellFormed(f, AuthValue(c, a))
  {
    DistinctKeys();
    assert CallerValues(c) + [a] == [Str(c.principal), Str(c.subject), Str(c.role), c.session, a];
    RecordGood(f, AUTH_KEYS, CallerValues(c) + [a]);
  }

  lemma ReplayFields(f: Floats, c: Caller, a: Value)
    requires GoodCaller(f, c) && GoodBinding(f, a)
    ensures ReplayValue(c, a) == Record(REPLAY_KEYS, [Str("v1")] + (CallerValues(c) + [WithoutSnapshot(a)]))
    ensures WellFormed(f, ReplayValue(c, a))
  {
    DistinctKeys();
    SnapshotDropped(f, a);
    var x := WithoutSnapshot(a);
    assert [Str("v1")] + (CallerValues(c) + [x]) ==
           [Str("v1"), Str(c.principal), Str(c.subject), Str(c.role), c.session, x];
    RecordGood(f, REPLAY_KEYS, [Str("v1")] + (CallerValues(c) + [x]));
  }

  /** The replay identity sees the caller and the binding without its snapshot. */
  lemma ReplayExact(f: Floats, c: Caller, a: Value, d: Caller, b: Value)
    requires GoodCaller(f, c) && GoodCaller(f, d) && GoodBinding(f, a) && GoodBinding(f, b)
    ensures ToCanonical(ReplayValue(c, a)) == ToCanonical(ReplayValue(d, b)) <==> SameCaller(c, d) && SameDatabase(a, b)
  {
    var vs, ws := CallerValues(c) + [WithoutSnapshot(a)], CallerValues(d) + [WithoutSnapshot(b)];
    ReplayFields(f, c, a);
    ReplayFields(f, d, b);
    CanonicalExact(f, ReplayValue(c, a), ReplayValue(d, b));
    DistinctKeys();
    RecordExact(REPLAY_KEYS, [Str("v1")] + vs, [Str("v1")] + ws);
    AllCons(Str("v1"), vs, Str("v1"), ws);
    CallerFields(c, [WithoutSnapshot(a)], d, [WithoutSnapshot(b)]);
    OneField(WithoutSnapshot(a), WithoutSnapshot(b));
    WithoutSnapshotExact(f, a, b);
  }

  /** Whatever the operation accepts from a parsed input is covered by the theorems. */
  lemma RequestIsGood(f: Floats, input: Value)
    requires f.Valid() && WellFormed(f, input) && Request(f, input).Ok? && Request(f, input).value.Some?
    ensures GoodParts(f, Request(f, input).value.value)
  {
    RequestFields(f, input);
    var p := Request(f, input).value.value;
    ReadValueGood(f, Get(input, "body").value.text, MAX_DEPTH);
    GetGood(f, input, "binding");
    GetGood(f, input, "auth");
    CallerGood(f, Get(input, "auth").value);
  }

  lemma RequestFields(f: Floats, input: Value)
    requires Request(f, input).Ok? && Request(f, input).value.Some?
    ensures var p := Request(f, input).value.value;
            Get(input, "binding") == Some(p.binding) && IsBinding(p.binding) && ValidIdempotencyKey(p.key) &&
            Get(input, "auth").Some? && ReadCaller(Get(input, "auth")) == Ok(p.caller) &&
            IsString(Get(input, "body")) &&
                ParseWithMaxDepth(f, Get(input, "body").value.text, MAX_DEPTH) == Some(p.body)
  {
  }

  lemma CallerGood(f: Floats, v: Value)
    requires WellFormed(f, v) && ReadCaller(Some(v)).Ok?
    ensures GoodCaller(f, ReadCaller(Some(v)).value)
  {
    GetGood(f, v, "session");
  }

  lemma GetGood(f: Floats, v: Value, key: string)
    requires WellFormed(f, v) && Get(v, key).Some?
    ensures WellFormed(f, Get(v, key).value)
  {
    FindMember(v.members, key);
  }
}
