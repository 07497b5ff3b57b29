/** Protected joins on the real rows, seen through the view, are the client's joins on the view. */
module JoinView {
  import opened Core
  import opened Ir
  import opened Semantics
  import opened Policy
  import opened View
  import opened Compile
  import opened Instantiation
  import opened Protection

  // ----- Expressions outside WHERE -----

  /** A validated expression without EXISTS reads only what the view reveals. */
  lemma FreeAgrees(v: RoleView, selected: Selected, params: Bindings, db: Database, e: BoundExpr, env: Env)
    requires v.Valid() && Within(selected, v.policies)
    requires Shape(e, false) && ValidateClient(e, RegularColumns(selected)).Ok?
    ensures Eval(RealCtx(v, params, db), e, env) == Eval(ViewCtx(v, params, db), e, v.EnvOf(env))
  {
    ProtectIdentity(e, selected, v.session, map[]);
    ProtectAgrees(v, selected, params, db, e, false, map[], env);
  }

  // ----- Joins -----

  ghost predicate Admitted(v: RoleView, resources: set<ResourceId>, env: Env) {
    forall r | r in resources :: v.Shows(r, RowOf(env, r))
  }

  ghost function AdmittedBy(v: RoleView, resources: set<ResourceId>): Env -> bool {
    env => Admitted(v, resources, env)
  }

  /** A protected join: on the real rows its condition is the client's, for a LEFT JOIN with the row filter. */
  ghost predicate JoinAgrees(v: RoleView, c: Ctx, cv: Ctx, protected: BoundJoin, client: BoundJoin) {
    && protected.resource == client.resource
    && protected.kind == client.kind
    && client.resource in v.policies
    && forall env: Env {:trigger IsTrue(c, protected.on, env)} ::
         IsTrue(c, protected.on, env)
         <==> IsTrue(cv, client.on, v.EnvOf(env))
              && (client.kind == Left ==> v.Shows(client.resource, RowOf(env, client.resource)))
  }

  function InnerResources(joins: seq<BoundJoin>): set<ResourceId> {
    if joins == [] then {}
    else (if joins[0].kind == Inner then {joins[0].resource} else {}) + InnerResources(joins[1..])
  }

  /** Only the joined resource's row differs from the environment it extends. */
  ghost predicate OnlyBinds(extended: Env, env: Env, r: ResourceId) {
    r in extended && extended == env[r := extended[r]]
  }

  lemma {:induction false} ExtendBinds(env: Env, r: ResourceId, rows: seq<Row>)
    ensures forall e | e in Extend(env, r, rows) :: OnlyBinds(e, env, r)
  {
    if rows != [] {
      ExtendBinds(env, r, rows[1..]);
      assert OnlyBinds(env[r := rows[0]], env, r);
    }
  }

  lemma {:induction false} PickWithin<T>(items: seq<T>, p: T -> bool)
    ensures forall x | x in Pick(items, p) :: x in items && p(x)
  {
    if items != [] {
      PickWithin(items[1..], p);
    }
  }

  lemma JoinEnvBinds(c: Ctx, join: BoundJoin, source: Database, env: Env)
    ensures forall e | e in JoinEnv(c, join, source, env) :: OnlyBinds(e, env, join.resource)
  {
    var rows := Extend(env, join.resource, Rows(source, join.resource));
    ExtendBinds(env, join.resource, Rows(source, join.resource));
    KeepIsPick(c, join.on, rows);
    PickWithin(rows, Passes(c, Some(join.on)));
  }

  lemma Regroup<T>(a: seq<T>, b: seq<T>, c: seq<T>)
    ensures (a + b) + c == a + (b + c)
  {
  }

  lemma {:induction false} PickConcat<T>(a: seq<T>, b: seq<T>, p: T -> bool)
    ensures Pick(a + b, p) == Pick(a, p) + Pick(b, p)
  {
    if a == [] {
      assert a + b == b;
    } else {
      PickConcat(a[1..], b, p);
      assert (a + b)[1..] == a[1..] + b;
      Regroup(if p(a[0]) then [a[0]] else [], Pick(a[1..], p), Pick(b, p));
    }
  }

  lemma {:induction false} EnvsOfConcat(v: RoleView, a: seq<Env>, b: seq<Env>)
    ensures v.EnvsOf(a + b) == v.EnvsOf(a) + v.EnvsOf(b)
  {
    if a == [] {
      assert a + b == b;
    } else {
      EnvsOfConcat(v, a[1..], b);
      assert (a + b)[1..] == a[1..] + b;
    }
  }

  lemma {:induction false} PickNone<T>(items: seq<T>, p: T -> bool)
    requires forall x | x in items :: !p(x)
    ensures Pick(items, p) == []
  {
    if items != [] {
      PickNone(items[1..], p);
    }
  }

  lemma {:induction false} PickTwice<T>(items: seq<T>, p: T -> bool, q: T -> bool)
    ensures Pick(Pick(items, p), q) == Pick(items, Both(p, q))
  {
    if items != [] {
      PickTwice(items[1..], p, q);
      PickConcat(if p(items[0]) then [items[0]] else [], Pick(items[1..], p), q);
    }
  }

  /** The resources that must show a row after this join. */
  function Next(admitted: set<ResourceId>, join: BoundJoin): set<ResourceId> {
    if join.kind == Inner then admitted + {join.resource} else admitted
  }

  lemma NextAdmitted(v: RoleView, admitted: set<ResourceId>, join: BoundJoin, extended: Env, env: Env)
    requires join.resource !in admitted && OnlyBinds(extended, env, join.resource)
    ensures Admitted(v, Next(admitted, join), extended)
       <==> Admitted(v, admitted, env) && (join.kind == Inner ==> v.Shows(join.resource, extended[join.resource]))
  {
    assert forall r | r in admitted :: RowOf(extended, r) == RowOf(env, r);
    assert RowOf(extended, join.resource) == extended[join.resource];
  }

  /** One environment: the admitted part of the real join is the join on the view. */
  lemma JoinEnvView(
    v: RoleView, c: Ctx, cv: Ctx, protected: BoundJoin, client: BoundJoin, db: Database, admitted: set<ResourceId>,
    env: Env)
    requires JoinAgrees(v, c, cv, protected, client) && client.resource !in admitted
    requires Admitted(v, admitted, env)
    ensures v.EnvsOf(Pick(JoinEnv(c, protected, db, env), AdmittedBy(v, Next(admitted, client))))
         == JoinEnv(cv, client, v.DatabaseOf(db), v.EnvOf(env))
  {
    MatchedView(v, c, cv, protected, client, db, admitted, env);
    if client.kind == Left {
      LeftJoinEnvView(v, c, cv, protected, client, db, admitted, env);
    }
  }

  /** Viewed, the admitted matches of a join are the matches on the view. */
  lemma MatchedView(
    v: RoleView, c: Ctx, cv: Ctx, protected: BoundJoin, client: BoundJoin, db: Database, admitted: set<ResourceId>,
    env: Env)
    requires JoinAgrees(v, c, cv, protected, client) && client.resource !in admitted
    requires Admitted(v, admitted, env)
    ensures var raw := Extend(env, client.resource, Rows(db, client.resource));
            var seen := Extend(v.EnvOf(env), client.resource, Rows(v.DatabaseOf(db), client.resource));
            v.EnvsOf(Pick(Keep(c, protected.on, raw), AdmittedBy(v, Next(admitted, client))))
                == Keep(cv, client.on, seen)
  {
    var r := client.resource;
    var rows := Rows(db, r);
    var raw, seen := Extend(env, r, rows), Extend(v.EnvOf(env), r, v.RowsOf(r, rows));
    assert Rows(v.DatabaseOf(db), r) == v.RowsOf(r, rows);
    var on := Passes(c, Some(protected.on));
    var adm := AdmittedBy(v, Next(admitted, client));
    var both := Both(on, adm);
    KeepIsPick(c, protected.on, raw);
    PickTwice(raw, on, adm);
    KeepIsPick(cv, client.on, seen);
    forall row | row in rows
      ensures both(env[r := row]) <==> v.Shows(r, row) && Passes(cv, Some(client.on))(v.EnvOf(env[r := row]))
    {
      var extended := env[r := row];
      assert OnlyBinds(extended, env, r);
      NextAdmitted(v, admitted, client, extended, env);
      assert RowOf(extended, r) == row;
    }
    PickView(v, both, Passes(cv, Some(client.on)), r, rows, env);
  }

  lemma LeftJoinEnvView(
    v: RoleView, c: Ctx, cv: Ctx, protected: BoundJoin, client: BoundJoin, db: Database, admitted: set<ResourceId>,
    env: Env)
    requires JoinAgrees(v, c, cv, protected, client) && client.resource !in admitted
    requires client.kind == Left && Admitted(v, admitted, env)
    requires var raw := Extend(env, client.resource, Rows(db, client.resource));
             var seen := Extend(v.EnvOf(env), client.resource, Rows(v.DatabaseOf(db), client.resource));
             v.EnvsOf(Pick(Keep(c, protected.on, raw), AdmittedBy(v, admitted))) == Keep(cv, client.on, seen)
    ensures v.EnvsOf(Pick(JoinEnv(c, protected, db, env), AdmittedBy(v, admitted)))
         == JoinEnv(cv, client, v.DatabaseOf(db), v.EnvOf(env))
  {
    var r := client.resource;
    var adm := AdmittedBy(v, admitted);
    var raw := Extend(env, r, Rows(db, r));
    var matched := Keep(c, protected.on, raw);
    JoinEnvBinds(c, protected, db, env);
    forall e | e in JoinEnv(c, protected, db, env)
      ensures adm(e)
    {
      NextAdmitted(v, admitted, client, e, env);
    }
    PickAll(JoinEnv(c, protected, db, env), adm);
    if matched == [] {
      assert v.EnvsOf([]) == [];
      var empty: Row := map[];
      assert v.EnvOf(env[r := empty]) == v.EnvOf(env)[r := v.Redact(r, empty)];
      assert v.Redact(r, empty) == empty;
    } else {
      assert JoinEnv(c, protected, db, env) == matched;
      assert v.EnvsOf(matched) != [];
    }
  }

  lemma {:induction false} JoinEachView(
    v: RoleView, c: Ctx, cv: Ctx, protected: BoundJoin, client: BoundJoin, db: Database, admitted: set<ResourceId>,
    envs: seq<Env>)
    requires JoinAgrees(v, c, cv, protected, client) && client.resource !in admitted
    ensures v.EnvsOf(Pick(JoinEach(c, protected, db, envs), AdmittedBy(v, Next(admitted, client))))
         == JoinEach(cv, client, v.DatabaseOf(db), v.EnvsOf(Pick(envs, AdmittedBy(v, admitted))))
  {
    if envs != [] {
      var env, rest := envs[0], envs[1..];
      var before := AdmittedBy(v, admitted);
      var after := AdmittedBy(v, Next(admitted, client));
      var joined := JoinEnv(c, protected, db, env);
      JoinEachView(v, c, cv, protected, client, db, admitted, rest);
      PickConcat(joined, JoinEach(c, protected, db, rest), after);
      EnvsOfConcat(v, Pick(joined, after), Pick(JoinEach(c, protected, db, rest), after));
      if before(env) {
        JoinEnvView(v, c, cv, protected, client, db, admitted, env);
        assert ([env] + Pick(rest, before))[1..] == Pick(rest, before);
        var seen := v.EnvsOf(Pick(rest, before));
        assert ([v.EnvOf(env)] + seen)[1..] == seen;
      } else {
        JoinEnvBinds(c, protected, db, env);
        forall e | e in joined
          ensures !after(e)
        {
          NextAdmitted(v, admitted, client, e, env);
        }
        PickNone(joined, after);
        assert Pick(envs, before) == Pick(rest, before);
      }
    }
  }

  /** A whole chain of joins. */
  lemma {:induction false} JoinAllView(
    v: RoleView, c: Ctx, cv: Ctx, protected: seq<BoundJoin>, client: seq<BoundJoin>, db: Database,
    admitted: set<ResourceId>, envs: seq<Env>)
    requires |protected| == |client|
    requires forall i | 0 <= i < |client| :: JoinAgrees(v, c, cv, protected[i], client[i])
    requires forall i | 0 <= i < |client| :: client[i].resource !in admitted
    requires forall i, j | 0 <= i < j < |client| :: client[i].resource != client[j].resource
    ensures v.EnvsOf(Pick(JoinAll(c, protected, db, envs), AdmittedBy(v, admitted + InnerResources(client))))
         == JoinAll(cv, client, v.DatabaseOf(db), v.EnvsOf(Pick(envs, AdmittedBy(v, admitted))))
    decreases |client|
  {
    if client == [] {
      PickSame(envs, AdmittedBy(v, admitted + InnerResources(client)), AdmittedBy(v, admitted));
    } else {
      var next := Next(admitted, client[0]);
      var joined := JoinEach(c, protected[0], db, envs);
      JoinEachView(v, c, cv, protected[0], client[0], db, admitted, envs);
      JoinAllView(v, c, cv, protected[1..], client[1..], db, next, joined);
      assert next + InnerResources(client[1..]) == admitted + InnerResources(client);
    }
  }

  // ----- What ProtectJoins builds -----

  lemma {:induction false} ProtectJoinsKeeps(
    joins: seq<BoundJoin>, current: BoundExpr, selected: Selected, session: TrustedSession, values: Bindings)
    requires SessionOnly(values, session) && ProtectJoins(joins, current, selected, session, values).Ok?
    ensures var out := ProtectJoins(joins, current, selected, session, values).value.2;
            SessionOnly(out, session) && Within(values, out)
  {
    if joins != [] {
      var (rows, values') := Instantiate(selected[joins[0].resource].rowFilter, session, values).value;
      InstantiateKeeps(selected[joins[0].resource].rowFilter, session, values);
      var current' := if joins[0].kind == Inner then Binary(And, current, rows) else current;
      ProtectJoinsKeeps(joins[1..], current', selected, session, values');
    }
  }

  /** One join: where its row filter goes, and what the two conditions then mean. */
  lemma ProtectJoinMeaning(
    v: RoleView, selected: Selected, params: Bindings, db: Database,
    join: BoundJoin, current: BoundExpr, rows: BoundExpr)
    requires v.Valid() && Within(selected, v.policies) && join.resource in selected
    requires Shape(join.on, false) && ValidateClient(join.on, RegularColumns(selected)).Ok?
    requires forall env: Env {:trigger IsTrue(RealCtx(v, params, db), rows, env)} ::
               IsTrue(RealCtx(v, params, db), rows, env) <==> v.Shows(join.resource, RowOf(env, join.resource))
    ensures JoinAgrees(v, RealCtx(v, params, db), ViewCtx(v, params, db),
                       if join.kind == Inner then join else join.(on := Binary(And, join.on, rows)), join)
    ensures var current' := if join.kind == Inner then Binary(And, current, rows) else current;
            forall env: Env {:trigger IsTrue(RealCtx(v, params, db), current', env)} ::
              IsTrue(RealCtx(v, params, db), current', env)
              <==> IsTrue(RealCtx(v, params, db), current, env)
                   && (join.kind == Inner ==> v.Shows(join.resource, RowOf(env, join.resource)))
  {
    var c, cv := RealCtx(v, params, db), ViewCtx(v, params, db);
    var join' := if join.kind == Inner then join else join.(on := Binary(And, join.on, rows));
    forall env: Env
      ensures IsTrue(c, join'.on, env)
         <==> IsTrue(cv, join.on, v.EnvOf(env))
              && (join.kind == Left ==> v.Shows(join.resource, RowOf(env, join.resource)))
    {
      FreeAgrees(v, selected, params, db, join.on, env);
      AndOptionalTrue(c, Some(join.on), rows, env);
    }
    forall env: Env
      ensures IsTrue(c, Binary(And, current, rows), env)
         <==> IsTrue(c, current, env) && v.Shows(join.resource, RowOf(env, join.resource))
    {
      AndOptionalTrue(c, Some(current), rows, env);
    }
  }

  lemma {:induction false} ProtectJoinsMeaning(
    v: RoleView, selected: Selected, params: Bindings, db: Database,
    joins: seq<BoundJoin>, current: BoundExpr, values: Bindings)
    requires v.Valid() && Within(selected, v.policies) && SessionOnly(values, v.session)
    requires forall j: BoundJoin | j in joins :: Shape(j.on, false)
    requires ValidateJoins(joins, RegularColumns(selected)).Ok?
    requires ProtectJoins(joins, current, selected, v.session, values).Ok?
    requires Within(ProtectJoins(joins, current, selected, v.session, values).value.2, params)
    ensures var (joins', current', _) := ProtectJoins(joins, current, selected, v.session, values).value;
            && JoinsAgree(v, RealCtx(v, params, db), ViewCtx(v, params, db), joins', joins)
            && Gained(v, RealCtx(v, params, db), joins, current', current)
  {
    if joins != [] {
      var c := RealCtx(v, params, db);
      var join := joins[0];
      var policy := selected[join.resource];
      var (rows, values') := Instantiate(policy.rowFilter, v.session, values).value;
      var current1 := if join.kind == Inner then Binary(And, current, rows) else current;
      var join' := if join.kind == Inner then join else join.(on := Binary(And, join.on, rows));
      InstantiateKeeps(policy.rowFilter, v.session, values);
      ProtectJoinsKeeps(joins[1..], current1, selected, v.session, values');
      ProtectJoinsMeaning(v, selected, params, db, joins[1..], current1, values');
      var (rest, current', values'') := ProtectJoins(joins[1..], current1, selected, v.session, values').value;
      forall env: Env
        ensures IsTrue(c, rows, env) <==> v.Shows(join.resource, RowOf(env, join.resource))
      {
        InstantiateMeaning(policy.rowFilter, join.resource, v.session, values, c, env);
      }
      assert join in joins;
      ProtectJoinMeaning(v, selected, params, db, join, current, rows);
      JoinsAgreeCons(v, c, ViewCtx(v, params, db), join', rest, joins);
      GainedCons(v, c, joins, current', current1, current);
    }
  }

  /** The condition gained exactly the inner joins' row filters. */
  ghost predicate Gained(v: RoleView, c: Ctx, client: seq<BoundJoin>, after: BoundExpr, before: BoundExpr) {
    forall env: Env {:trigger IsTrue(c, after, env)} ::
      IsTrue(c, after, env) <==> IsTrue(c, before, env) && Admitted(v, InnerResources(client), env)
  }

  ghost predicate JoinsAgree(v: RoleView, c: Ctx, cv: Ctx, protected: seq<BoundJoin>, client: seq<BoundJoin>) {
    && |protected| == |client|
    && forall i | 0 <= i < |client| :: JoinAgrees(v, c, cv, protected[i], client[i])
  }

  lemma AdmittedCons(v: RoleView, joins: seq<BoundJoin>, env: Env)
    requires joins != []
    ensures Admitted(v, InnerResources(joins), env)
       <==> (joins[0].kind == Inner ==> v.Shows(joins[0].resource, RowOf(env, joins[0].resource)))
            && Admitted(v, InnerResources(joins[1..]), env)
  {
    var first: set<ResourceId> := if joins[0].kind == Inner then {joins[0].resource} else {};
    assert InnerResources(joins) == first + InnerResources(joins[1..]);
    assert forall r | r in InnerResources(joins[1..]) :: r in InnerResources(joins);
    assert joins[0].kind == Inner ==> joins[0].resource in InnerResources(joins);
  }

  lemma JoinsAgreeCons(
    v: RoleView, c: Ctx, cv: Ctx, first: BoundJoin, rest: seq<BoundJoin>, client: seq<BoundJoin>)
    requires client != [] && JoinAgrees(v, c, cv, first, client[0])
    requires JoinsAgree(v, c, cv, rest, client[1..])
    ensures JoinsAgree(v, c, cv, [first] + rest, client)
  {
    forall i | 0 <= i < |client|
      ensures JoinAgrees(v, c, cv, ([first] + rest)[i], client[i])
    {
      if i > 0 {
        assert JoinAgrees(v, c, cv, rest[i - 1], client[1..][i - 1]);
      }
    }
  }

  lemma GainedCons(
    v: RoleView, c: Ctx, client: seq<BoundJoin>, after: BoundExpr, middle: BoundExpr, before: BoundExpr)
    requires client != [] && Gained(v, c, client[1..], after, middle)
    requires forall env: Env {:trigger IsTrue(c, middle, env)} ::
               IsTrue(c, middle, env)
               <==> IsTrue(c, before, env)
                    && (client[0].kind == Inner ==> v.Shows(client[0].resource, RowOf(env, client[0].resource)))
    ensures Gained(v, c, client, after, before)
  {
    forall env: Env
      ensures IsTrue(c, after, env) <==> IsTrue(c, before, env) && Admitted(v, InnerResources(client), env)
    {
      AdmittedCons(v, client, env);
      assert IsTrue(c, after, env) <==> IsTrue(c, middle, env) && Admitted(v, InnerResources(client[1..]), env);
    }
  }
}
