/** Joins, derived roots and whole queries: the bound select answers what the written query means. */
module FlattenTheorem {
  import opened Core
  import opened Text
  import I = Ir
  import opened Semantics
  import opened Surface
  import opened Binder
  import opened Flatten

  // ----- Joins -----

  /** The same for the join conditions, each under its own source. */
  predicate JoinsUnshadowed(cat: Catalog, bs: seq<BindScope>, joins: seq<Join>)
    decreases |joins|
  {
    joins != [] && BindTable(cat, joins[0].table, joins[0].alias).Ok? ==>
      var b := BindTable(cat, joins[0].table, joins[0].alias).value;
      NoShadow(cat, bs + [b], joins[0].on) && JoinsUnshadowed(cat, bs + [b], joins[1..])
  }

  lemma JoinEnvAgrees(cat: Catalog, c: Ctx, bs: seq<BindScope>, join: Join, on: I.BoundExpr, ss: seq<Scope>, env: Env)
    requires ValidCatalog(cat) && Agree(bs, ss, env) && BindTable(cat, join.table, join.alias).Ok?
    requires var b := BindTable(cat, join.table, join.alias).value;
             !InScope(bs, b.resource) && NoShadow(cat, bs + [b], join.on) &&
             BindExpr(cat, bs + [b], join.on) == Ok(on)
    ensures var b := BindTable(cat, join.table, join.alias).value;
            AllAgree(bs + [b], SJoinEnv(cat, c, join, ss),
                JoinEnv(c, I.BoundJoin(b.resource, join.kind, on), c.nested, env))
  {
    var b := BindTable(cat, join.table, join.alias).value;
    var q, rows := Qualifier(join.table, join.alias), Rows(c.nested, b.resource);
    ExtendAgrees(cat, join.table, join.alias, bs, ss, env, rows);
    KeepAgrees(cat, c, bs + [b], join.on, SExtend(ss, q, TableRows(cat, c.nested, join.table)),
        Extend(env, b.resource, rows));
    TableScope(cat, join.table, join.alias, env, map[]);
    AgreeExtend(bs, ss, env, b, Scope(q, NullRow(cat, join.table)), map[]);
  }

  lemma {:induction false} JoinEachAgrees(
    cat: Catalog, c: Ctx, bs: seq<BindScope>, join: Join, on: I.BoundExpr, scopes: seq<seq<Scope>>, envs: seq<Env>)
    requires ValidCatalog(cat) && AllAgree(bs, scopes, envs) && BindTable(cat, join.table, join.alias).Ok?
    requires var b := BindTable(cat, join.table, join.alias).value;
             !InScope(bs, b.resource) && NoShadow(cat, bs + [b], join.on) &&
             BindExpr(cat, bs + [b], join.on) == Ok(on)
    ensures var b := BindTable(cat, join.table, join.alias).value;
            AllAgree(bs + [b], SJoinEach(cat, c, join, scopes),
                JoinEach(c, I.BoundJoin(b.resource, join.kind, on), c.nested, envs))
    decreases |envs|
  {
    if envs != [] {
      var b := BindTable(cat, join.table, join.alias).value;
      var bound := I.BoundJoin(b.resource, join.kind, on);
      assert Agree(bs, scopes[0], envs[0]);
      JoinEnvAgrees(cat, c, bs, join, on, scopes[0], envs[0]);
      assert forall i | 0 <= i < |envs[1..]| :: Agree(bs, scopes[1..][i], envs[1..][i]);
      JoinEachAgrees(cat, c, bs, join, on, scopes[1..], envs[1..]);
      AllAgreeConcat(bs + [b], SJoinEnv(cat, c, join, scopes[0]), SJoinEach(cat, c, join, scopes[1..]),
                     JoinEnv(c, bound, c.nested, envs[0]), JoinEach(c, bound, c.nested, envs[1..]));
    }
  }

  lemma {:induction false} JoinAllAgrees(
    cat: Catalog, c: Ctx, bs: seq<BindScope>, joins: seq<Join>, scopes: seq<seq<Scope>>, envs: seq<Env>)
    requires ValidCatalog(cat) && AllAgree(bs, scopes, envs)
    requires JoinsUnshadowed(cat, bs, joins) && BindJoins(cat, bs, joins).Ok?
    ensures var (bound, all) := BindJoins(cat, bs, joins).value;
            AllAgree(all, SJoinAll(cat, c, joins, scopes), JoinAll(c, bound, c.nested, envs))
    decreases |joins|
  {
    if joins != [] {
      var b := BindTable(cat, joins[0].table, joins[0].alias).value;
      var on := BindExpr(cat, bs + [b], joins[0].on).value;
      var (rest, all) := BindJoins(cat, bs + [b], joins[1..]).value;
      JoinEachAgrees(cat, c, bs, joins[0], on, scopes, envs);
      var joined := I.BoundJoin(b.resource, joins[0].kind, on);
      JoinAllAgrees(cat, c, bs + [b], joins[1..], SJoinEach(cat, c, joins[0], scopes),
          JoinEach(c, joined, c.nested, envs));
      JoinAllCons(c, joined, rest, c.nested, envs);
    }
  }

  lemma JoinAllCons(c: Ctx, join: I.BoundJoin, rest: seq<I.BoundJoin>, db: Database, envs: seq<Env>)
    ensures JoinAll(c, [join] + rest, db, envs) == JoinAll(c, rest, db, JoinEach(c, join, db, envs))
  {
    assert ([join] + rest)[1..] == rest;
  }

  predicate Avoids(joins: seq<I.BoundJoin>, r: ResourceId) {
    forall i | 0 <= i < |joins| :: joins[i].resource != r
  }

  lemma {:induction false} JoinsAvoid(cat: Catalog, bs: seq<BindScope>, joins: seq<Join>, r: ResourceId)
    requires BindJoins(cat, bs, joins).Ok? && InScope(bs, r)
    ensures Avoids(BindJoins(cat, bs, joins).value.0, r)
    decreases |joins|
  {
    if joins != [] {
      var b := BindTable(cat, joins[0].table, joins[0].alias).value;
      var i :| 0 <= i < |bs| && bs[i].resource == r;
      assert (bs + [b])[i].resource == r;
      JoinsAvoid(cat, bs + [b], joins[1..], r);
    }
  }

  // ----- A condition on the root commutes with joins -----

  /** The condition reads nothing but the row of one resource. */
  ghost predicate Local(c: Ctx, filter: Option<I.BoundExpr>, r: ResourceId) {
    forall env: Env, env': Env {:trigger Satisfies(c, filter, env), Satisfies(c, filter, env')} ::
      RowOf(env, r) == RowOf(env', r) ==> Satisfies(c, filter, env) == Satisfies(c, filter, env')
  }

  ghost predicate KeepsRow(envs: seq<Env>, env: Env, r: ResourceId) {
    forall i | 0 <= i < |envs| :: RowOf(envs[i], r) == RowOf(env, r)
  }

  lemma {:induction false} ExtendKeepsRow(env: Env, s: ResourceId, rows: seq<Semantics.Row>, r: ResourceId)
    requires r != s
    ensures KeepsRow(Extend(env, s, rows), env, r)
    decreases |rows|
  {
    if rows != [] {
      ExtendKeepsRow(env, s, rows[1..], r);
    }
  }

  lemma {:induction false} KeepKeepsRow(c: Ctx, e: I.BoundExpr, envs: seq<Env>, env: Env, r: ResourceId)
    requires KeepsRow(envs, env, r)
    ensures KeepsRow(Keep(c, e, envs), env, r)
    decreases |envs|
  {
    if envs != [] {
      assert forall i | 0 <= i < |envs[1..]| :: envs[1..][i] == envs[i + 1];
      KeepKeepsRow(c, e, envs[1..], env, r);
    }
  }

  lemma JoinKeepsRow(c: Ctx, join: I.BoundJoin, db: Database, env: Env, r: ResourceId)
    requires join.resource != r
    ensures KeepsRow(JoinEnv(c, join, db, env), env, r)
  {
    var extended := Extend(env, join.resource, Rows(db, join.resource));
    ExtendKeepsRow(env, join.resource, Rows(db, join.resource), r);
    KeepKeepsRow(c, join.on, extended, env, r);
  }

  lemma {:induction false} WhereAll(c: Ctx, filter: Option<I.BoundExpr>, envs: seq<Env>, yes: bool)
    requires forall i | 0 <= i < |envs| :: Satisfies(c, filter, envs[i]) == yes
    ensures Where(c, filter, envs) == if yes then envs else []
    decreases |envs|
  {
    assert envs != [] ==> Satisfies(c, filter, envs[0]) == yes;
    if filter.Some? && envs != [] {
      assert forall i | 0 <= i < |envs[1..]| :: envs[1..][i] == envs[i + 1];
      WhereAll(c, filter, envs[1..], yes);
      assert envs == [envs[0]] + envs[1..];
    }
  }

  lemma {:induction false} WhereConcat(c: Ctx, filter: Option<I.BoundExpr>, xs: seq<Env>, ys: seq<Env>)
    ensures Where(c, filter, xs + ys) == Where(c, filter, xs) + Where(c, filter, ys)
    decreases |xs|
  {
    if filter.Some? {
      if xs == [] {
        assert xs + ys == ys && Keep(c, filter.value, xs) == [];
      } else {
        assert (xs + ys)[1..] == xs[1..] + ys && (xs + ys)[0] == xs[0];
        WhereConcat(c, filter, xs[1..], ys);
        KeepCons(c, filter.value, xs);
        KeepCons(c, filter.value, xs + ys);
      }
    }
  }

  lemma KeepCons(c: Ctx, e: I.BoundExpr, envs: seq<Env>)
    requires envs != []
    ensures Keep(c, e, envs) == (if IsTrue(c, e, envs[0]) then [envs[0]] else []) + Keep(c, e, envs[1..])
  {
  }

  lemma WhereCons(c: Ctx, filter: Option<I.BoundExpr>, envs: seq<Env>)
    requires envs != []
    ensures Where(c, filter, envs)
            == (if Satisfies(c, filter, envs[0]) then [envs[0]] else []) + Where(c, filter, envs[1..])
  {
    assert envs == [envs[0]] + envs[1..];
  }

  lemma JoinEachCons(c: Ctx, join: I.BoundJoin, db: Database, env: Env, envs: seq<Env>)
    ensures JoinEach(c, join, db, [env] + envs) == JoinEnv(c, join, db, env) + JoinEach(c, join, db, envs)
  {
    assert ([env] + envs)[1..] == envs;
  }

  lemma {:induction false} FilterThroughJoin(
    c: Ctx, filter: Option<I.BoundExpr>, r: ResourceId, join: I.BoundJoin, db: Database, envs: seq<Env>)
    requires Local(c, filter, r) && join.resource != r
    ensures Where(c, filter, JoinEach(c, join, db, envs)) == JoinEach(c, join, db, Where(c, filter, envs))
    decreases |envs|
  {
    if envs == [] {
      WhereAll(c, filter, [], true);
    } else {
      var first, rest := JoinEnv(c, join, db, envs[0]), JoinEach(c, join, db, envs[1..]);
      var yes := Satisfies(c, filter, envs[0]);
      JoinKeepsRow(c, join, db, envs[0], r);
      assert forall i | 0 <= i < |first| :: Satisfies(c, filter, first[i]) == yes;
      WhereAll(c, filter, first, yes);
      WhereConcat(c, filter, first, rest);
      FilterThroughJoin(c, filter, r, join, db, envs[1..]);
      WhereCons(c, filter, envs);
      if yes {
        JoinEachCons(c, join, db, envs[0], Where(c, filter, envs[1..]));
      } else {
        assert [] + Where(c, filter, envs[1..]) == Where(c, filter, envs[1..]);
        assert [] + Where(c, filter, rest) == Where(c, filter, rest);
      }
    }
  }

  lemma {:induction false} FilterThroughJoins(
    c: Ctx, filter: Option<I.BoundExpr>, r: ResourceId, joins: seq<I.BoundJoin>, db: Database, envs: seq<Env>)
    requires Local(c, filter, r) && Avoids(joins, r)
    ensures Where(c, filter, JoinAll(c, joins, db, envs)) == JoinAll(c, joins, db, Where(c, filter, envs))
    decreases |joins|
  {
    if joins != [] {
      assert forall i | 0 <= i < |joins[1..]| :: joins[1..][i] == joins[i + 1];
      FilterThroughJoins(c, filter, r, joins[1..], db, JoinEach(c, joins[0], db, envs));
      FilterThroughJoin(c, filter, r, joins[0], db, envs);
    }
  }

  lemma MergeTrue(c: Ctx, inherited: Option<I.BoundExpr>, outer: Option<I.BoundExpr>, env: Env)
    ensures Satisfies(c, Merge(inherited, outer), env) <==> Satisfies(c, inherited, env) && Satisfies(c, outer, env)
  {
    if inherited.Some? && outer.Some? {
      var x, y := Eval(c, inherited.value, env), Eval(c, outer.value, env);
      assert Eval(c, I.Binary(I.And, inherited.value, outer.value), env) ==
             OfTruth(TruthOf(c.engine, x).And(TruthOf(c.engine, y)));
    }
  }

  lemma {:induction false} MergeWhere(
      c: Ctx, inherited: Option<I.BoundExpr>, outer: Option<I.BoundExpr>, envs: seq<Env>)
    ensures Where(c, Merge(inherited, outer), envs) == Where(c, outer, Where(c, inherited, envs))
    decreases |envs|
  {
    if envs == [] {
      WhereAll(c, inherited, [], true);
      WhereAll(c, outer, [], true);
      WhereAll(c, Merge(inherited, outer), [], true);
    } else {
      var rest := Where(c, inherited, envs[1..]);
      MergeTrue(c, inherited, outer, envs[0]);
      MergeWhere(c, inherited, outer, envs[1..]);
      WhereCons(c, inherited, envs);
      WhereCons(c, Merge(inherited, outer), envs);
      if Satisfies(c, inherited, envs[0]) {
        WhereCons(c, outer, [envs[0]] + rest);
        assert ([envs[0]] + rest)[1..] == rest;
      } else {
        assert [] + rest == rest;
        assert [] + Where(c, outer, rest) == Where(c, outer, rest);
      }
    }
  }

  // ----- Conditions bound over one source are local to it -----

  ghost predicate OwnColumns(b: BindScope) {
    forall k | k in b.columns :: b.columns[k].column.id.resource == b.resource
  }

  ghost function ScopeIn(b: BindScope, env: Env): Scope {
    Scope(b.qualifier, map k | k in b.columns :: Cell(env, b.columns[k].column.id))
  }

  lemma ScopeInAgrees(b: BindScope, env: Env, env': Env)
    requires OwnColumns(b) && RowOf(env, b.resource) == RowOf(env', b.resource)
    ensures Agree([b], [ScopeIn(b, env)], env')
  {
  }

  lemma BoundIsLocal(cat: Catalog, c: Ctx, b: BindScope, filter: Option<Expr>)
    requires ValidCatalog(cat) && OwnColumns(b) && OptionUnshadowed(cat, [b], filter)
    requires BindOption(cat, [b], filter).Ok?
    ensures Local(c, BindOption(cat, [b], filter).value, b.resource)
  {
    var bound := BindOption(cat, [b], filter).value;
    forall env: Env, env': Env | RowOf(env, b.resource) == RowOf(env', b.resource)
      ensures Satisfies(c, bound, env) == Satisfies(c, bound, env')
    {
      if filter.Some? {
        ScopeInAgrees(b, env, env);
        ScopeInAgrees(b, env, env');
        ExprAgrees(cat, c, [b], filter.value, [ScopeIn(b, env)], env);
        ExprAgrees(cat, c, [b], filter.value, [ScopeIn(b, env)], env');
      }
    }
  }

  lemma MergeIsLocal(c: Ctx, inherited: Option<I.BoundExpr>, outer: Option<I.BoundExpr>, r: ResourceId)
    requires Local(c, inherited, r) && Local(c, outer, r)
    ensures Local(c, Merge(inherited, outer), r)
  {
    forall env: Env, env': Env | RowOf(env, r) == RowOf(env', r)
      ensures Satisfies(c, Merge(inherited, outer), env) == Satisfies(c, Merge(inherited, outer), env')
    {
      MergeTrue(c, inherited, outer, env);
      MergeTrue(c, inherited, outer, env');
      assert Satisfies(c, inherited, env) == Satisfies(c, inherited, env');
      assert Satisfies(c, outer, env) == Satisfies(c, outer, env');
    }
  }

  // ----- Derived sources -----

  /** Without an alias, the column is written under the name the catalog gives it. */
  predicate NameKept(cat: Catalog, bs: seq<BindScope>, column: Column) {
    column.alias.None? && column.expression.Name? &&
        Resolve(bs, column.expression.qualifier, column.expression.name).Ok? ==>
      var id := Resolve(bs, column.expression.qualifier, column.expression.name).value.column.id;
      id in cat.names ==> LowerText(cat.names[id]) == LowerText(column.expression.name)
  }

  predicate NamesKept(cat: Catalog, bs: seq<BindScope>, columns: seq<Column>) {
    forall i | 0 <= i < |columns| :: NameKept(cat, bs, columns[i])
  }

  /** Every derived query shows its columns under the names they are written with. */
  predicate SourceKept(cat: Catalog, source: Source)
    decreases source
  {
    source.Derived? ==>
      SourceKept(cat, source.query.source) &&
      (SelectScope(cat, source.query).Ok? ==>
          NamesKept(cat, SelectScope(cat, source.query).value, source.query.columns))
  }

  predicate ColumnsUnshadowed(cat: Catalog, bs: seq<BindScope>, columns: seq<Column>) {
    forall i | 0 <= i < |columns| :: NoShadow(cat, bs, columns[i].expression)
  }

  predicate SourceUnshadowed(cat: Catalog, source: Source)
    decreases source, 0
  {
    source.Derived? ==> SelectUnshadowed(cat, source.query)
  }

  /** Every qualified name in the query, at any depth, means one column only. */
  predicate SelectUnshadowed(cat: Catalog, s: Select)
    decreases s, 1
  {
    && SourceUnshadowed(cat, s.source)
    && (BindSource(cat, s.source).Ok? ==> JoinsUnshadowed(cat, [BindSource(cat, s.source).value.0], s.joins))
    && (SelectScope(cat, s).Ok? ==>
          var all := SelectScope(cat, s).value;
          OptionUnshadowed(cat, all, s.filter) && ColumnsUnshadowed(cat, all, s.columns))
  }

  /** A projected row under its output names is the derived source's row. */
  lemma {:induction false} ProjectAgrees(cat: Catalog, c: Ctx, b: BindScope, columns: seq<Column>, s: Scope, env: Env)
    requires ValidCatalog(cat) && Agree([b], [s], env) && NamesKept(cat, [b], columns)
    requires ColumnsUnshadowed(cat, [b], columns)
    requires BindColumns(cat, [b], columns).Ok? && Shown(cat, BindColumns(cat, [b], columns).value).Ok?
    ensures var shown, row := Shown(cat, BindColumns(cat, [b], columns).value).value, ProjectRow(cat, c, columns, [s]);
            shown.Keys == row.Keys &&
            forall k | k in shown ::
                shown[k].column.id.resource == b.resource && row[k] == Cell(env, shown[k].column.id)
    decreases |columns|
  {
    if columns != [] {
      var ps := BindColumns(cat, [b], columns).value;
      assert ps[1..] == BindColumns(cat, [b], columns[1..]).value;
      assert forall i | 0 <= i < |columns[1..]| :: columns[1..][i] == columns[i + 1];
      ProjectAgrees(cat, c, b, columns[1..], s, env);
      ColumnAgrees(cat, c, b, columns[0], s, env);
    }
  }

  lemma ColumnAgrees(cat: Catalog, c: Ctx, b: BindScope, column: Column, s: Scope, env: Env)
    requires ValidCatalog(cat) && Agree([b], [s], env) && NameKept(cat, [b], column)
    requires NoShadow(cat, [b], column.expression)
    requires BindColumn(cat, [b], column).Ok? && BindColumn(cat, [b], column).value.expression.Column?
    ensures var p := BindColumn(cat, [b], column).value;
            LowerText(p.outputName) == LowerText(OutputName(column)) &&
            p.expression.column.id.resource == b.resource &&
            SEval(cat, c, column.expression, [s]) == Cell(env, p.expression.column.id)
  {
    var e := column.expression;
    assert e.Name?;
    ExprAgrees(cat, c, [b], e, [s], env);
    ResolveChosen([b], e.qualifier, e.name);
    assert ScopeAgrees(b, s, env);
  }

  lemma {:induction false} DerivedRows(
    cat: Catalog, c: Ctx, b: BindScope, columns: seq<Column>, derived: BindScope,
    scopes: seq<seq<Scope>>, envs: seq<Env>)
    requires ValidCatalog(cat) && AllAgree([b], scopes, envs) && NamesKept(cat, [b], columns)
    requires ColumnsUnshadowed(cat, [b], columns)
    requires BindColumns(cat, [b], columns).Ok?
    requires Shown(cat, BindColumns(cat, [b], columns).value) == Ok(derived.columns)
    requires derived.resource == b.resource
    ensures AllAgree([derived], SExtend([], derived.qualifier, ProjectRows(cat, c, columns, scopes)), envs)
    decreases |envs|
  {
    if envs != [] {
      assert Agree([b], scopes[0], envs[0]);
      var s := scopes[0][0];
      assert scopes[0] == [s];
      ProjectAgrees(cat, c, b, columns, s, envs[0]);
      var row, rest := ProjectRow(cat, c, columns, [s]), ProjectRows(cat, c, columns, scopes[1..]);
      assert forall i | 0 <= i < |envs[1..]| :: Agree([b], scopes[1..][i], envs[1..][i]);
      DerivedRows(cat, c, b, columns, derived, scopes[1..], envs[1..]);
      assert Agree([derived], [Scope(derived.qualifier, row)], envs[0]);
      AllAgreeCons([derived], [Scope(derived.qualifier, row)], SExtend([], derived.qualifier, rest), envs[0],
          envs[1..]);
      ExtendOne(derived.qualifier, row, rest);
      assert envs == [envs[0]] + envs[1..];
    }
  }

  lemma ExtendOne(qualifier: string, row: Surface.Row, rest: seq<Surface.Row>)
    ensures SExtend([], qualifier, [row] + rest) == [[Scope(qualifier, row)]] + SExtend([], qualifier, rest)
  {
    assert ([row] + rest)[1..] == rest && [] + [Scope(qualifier, row)] == [Scope(qualifier, row)];
  }

  /** The rows of a table under its name. */
  lemma TableRoot(cat: Catalog, c: Ctx, name: string, alias: Option<string>)
    requires ValidCatalog(cat) && BindTable(cat, name, alias).Ok?
    ensures var b := BindTable(cat, name, alias).value;
            OwnColumns(b) &&
            AllAgree([b], SExtend([], Qualifier(name, alias), TableRows(cat, c.nested, name)),
                     Extend(map[], b.resource, Rows(c.nested, b.resource)))
  {
    var b := BindTable(cat, name, alias).value;
    assert Agree([], [], map[]);
    ExtendAgrees(cat, name, alias, [], [], map[], Rows(c.nested, b.resource));
    assert [] + [b] == [b];
    assert ValidTable(cat, cat.tables[LowerText(name)]);
  }

  /** What a bound root brings: a local condition, and the source's rows among those that satisfy it. */
  ghost predicate RootMeans(cat: Catalog, c: Ctx, source: Source, root: BindScope, inherited: Option<I.BoundExpr>) {
    OwnColumns(root) && root.qualifier == SourceQualifier(source) && Local(c, inherited, root.resource) &&
    AllAgree([root], SExtend([], SourceQualifier(source), SourceRows(cat, c, source)),
             Where(c, inherited, Extend(map[], root.resource, Rows(c.nested, root.resource))))
  }

  lemma {:induction false} RootAgrees(cat: Catalog, c: Ctx, source: Source)
    requires ValidCatalog(cat) && SourceUnshadowed(cat, source) && SourceKept(cat, source)
    requires BindSource(cat, source).Ok?
    ensures RootMeans(cat, c, source, BindSource(cat, source).value.0, BindSource(cat, source).value.1)
    decreases source, 0
  {
    match source
    case Table(name, alias) => TableRoot(cat, c, name, alias);
    case Derived(query, alias) =>
      SelectAgrees(cat, c, query);
      DerivedRoot(cat, c, query, alias);
  }

  /** The scopes of a bound query, and that its bound rows are its named rows. */
  ghost predicate SelectMeans(cat: Catalog, c: Ctx, s: Select, b: I.BoundSelect, all: seq<BindScope>) {
    SelectScope(cat, s) == Ok(all) &&
    AllAgree(all, SelectScopes(cat, c, s), SelectEnvs(c, b, c.nested, map[])) &&
    (b.joins == [] ==>
        |all| == 1 && all[0].resource == b.resource && OwnColumns(all[0]) && Local(c, b.filter, b.resource))
  }

  lemma DerivedRoot(cat: Catalog, c: Ctx, query: Select, alias: string)
    requires ValidCatalog(cat) && SelectUnshadowed(cat, query) && SourceKept(cat, Derived(query, alias))
    requires BindSource(cat, Derived(query, alias)).Ok? && SelectScope(cat, query).Ok?
    requires SelectMeans(cat, c, query, BindSelect(cat, query).value, SelectScope(cat, query).value)
    ensures var (root, inherited) := BindSource(cat, Derived(query, alias)).value;
            RootMeans(cat, c, Derived(query, alias), root, inherited)
  {
    var inner, all := BindSelect(cat, query).value, SelectScope(cat, query).value;
    var (root, inherited) := BindSource(cat, Derived(query, alias)).value;
    var b := all[0];
    assert all == [b];
    var extended := Extend(map[], inner.resource, Rows(c.nested, inner.resource));
    assert JoinAll(c, [], c.nested, extended) == extended;
    assert SelectEnvs(c, inner, c.nested, map[]) == Where(c, inherited, extended);
    DerivedRows(cat, c, b, query.columns, root, SelectScopes(cat, c, query), Where(c, inherited, extended));
    ShownOwn(cat, c, b, query.columns);
  }

  lemma ShownOwn(cat: Catalog, c: Ctx, b: BindScope, columns: seq<Column>)
    requires ValidCatalog(cat) && OwnColumns(b) && NamesKept(cat, [b], columns)
    requires ColumnsUnshadowed(cat, [b], columns)
    requires BindColumns(cat, [b], columns).Ok? && Shown(cat, BindColumns(cat, [b], columns).value).Ok?
    ensures var shown := Shown(cat, BindColumns(cat, [b], columns).value).value;
            forall k | k in shown :: shown[k].column.id.resource == b.resource
  {
    ScopeInAgrees(b, map[], map[]);
    ProjectAgrees(cat, c, b, columns, ScopeIn(b, map[]), map[]);
  }

  lemma {:induction false} SelectAgrees(cat: Catalog, c: Ctx, s: Select)
    requires ValidCatalog(cat) && SelectUnshadowed(cat, s) && SourceKept(cat, s.source) && BindSelect(cat, s).Ok?
    ensures SelectScope(cat, s).Ok? && SelectMeans(cat, c, s, BindSelect(cat, s).value, SelectScope(cat, s).value)
    decreases s, 1
  {
    RootAgrees(cat, c, s.source);
    var (root, inherited) := BindSource(cat, s.source).value;
    FromRoot(cat, c, s, root, inherited);
  }

  /** A query over a root whose rows are known. */
  lemma FromRoot(cat: Catalog, c: Ctx, s: Select, root: BindScope, inherited: Option<I.BoundExpr>)
    requires ValidCatalog(cat) && SelectUnshadowed(cat, s) && BindSelect(cat, s).Ok?
    requires BindSource(cat, s.source) == Ok((root, inherited)) && RootMeans(cat, c, s.source, root, inherited)
    ensures SelectScope(cat, s).Ok? && SelectMeans(cat, c, s, BindSelect(cat, s).value, SelectScope(cat, s).value)
  {
    var (joins, all) := BindJoins(cat, [root], s.joins).value;
    var filter := BindOption(cat, all, s.filter).value;
    var r := root.resource;
    var base := Extend(map[], r, Rows(c.nested, r));
    var roots := SExtend([], root.qualifier, SourceRows(cat, c, s.source));
    JoinAllAgrees(cat, c, [root], s.joins, roots, Where(c, inherited, base));
    WhereAgrees(cat, c, all, s.filter, SJoinAll(cat, c, s.joins, roots),
        JoinAll(c, joins, c.nested, Where(c, inherited, base)));
    assert [root][0].resource == r;
    JoinsAvoid(cat, [root], s.joins, r);
    FilterThroughJoins(c, inherited, r, joins, c.nested, base);
    MergeWhere(c, inherited, filter, JoinAll(c, joins, c.nested, base));
    if joins == [] {
      JoinsEmpty(cat, [root], s.joins);
      BoundIsLocal(cat, c, root, s.filter);
      MergeIsLocal(c, inherited, filter, r);
    }
  }

  lemma JoinsEmpty(cat: Catalog, bs: seq<BindScope>, joins: seq<Join>)
    requires BindJoins(cat, bs, joins).Ok? && BindJoins(cat, bs, joins).value.0 == []
    ensures joins == [] && BindJoins(cat, bs, joins).value.1 == bs
  {
  }

  // ----- The theorem -----

  function Values(c: Ctx, ps: seq<I.BoundProjection>, env: Env): seq<LogicalValue> {
    if ps == [] then [] else [Eval(c, ps[0].expression, env)] + Values(c, ps[1..], env)
  }

  function Answer(c: Ctx, ps: seq<I.BoundProjection>, envs: seq<Env>): seq<seq<LogicalValue>> {
    if envs == [] then [] else [Values(c, ps, envs[0])] + Answer(c, ps, envs[1..])
  }

  lemma DirectAgrees(cat: Catalog, c: Ctx, bs: seq<BindScope>, e: Expr, ss: seq<Scope>, env: Env)
    requires Agree(bs, ss, env) && NoShadow(cat, bs, e) && BindDirect(bs, e).Ok?
    ensures SEval(cat, c, e, ss) == Cell(env, BindDirect(bs, e).value.column.id)
  {
    ResolveAgrees(bs, ss, env, e.qualifier, e.name);
  }

  lemma {:induction false} DirectsAgree(
      cat: Catalog, c: Ctx, bs: seq<BindScope>, es: seq<Expr>, ss: seq<Scope>, env: Env)
    requires Agree(bs, ss, env) && AllUnshadowed(cat, bs, es) && BindDirects(bs, es).Ok?
    ensures SEvalAll(cat, c, es, ss) == Cells(env, BindDirects(bs, es).value)
    decreases |es|
  {
    if es != [] {
      DirectAgrees(cat, c, bs, es[0], ss, env);
      DirectsAgree(cat, c, bs, es[1..], ss, env);
      CellsFirst(env, BindDirect(bs, es[0]).value.column, BindDirects(bs, es[1..]).value);
    }
  }

  lemma CellsFirst(env: Env, column: I.BoundColumn, rest: seq<I.BoundColumn>)
    ensures Cells(env, [column] + rest) == [Cell(env, column.id)] + Cells(env, rest)
  {
  }

  lemma {:induction false} WindowOrdersAgree(
      cat: Catalog, c: Ctx, bs: seq<BindScope>, orders: seq<Order>, ss: seq<Scope>, env: Env)
    requires Agree(bs, ss, env) && OrdersUnshadowed(cat, bs, orders) && BindWindowOrders(bs, orders).Ok?
    ensures SEvalOrders(cat, c, orders, ss) == EvalOrders(c, BindWindowOrders(bs, orders).value, env)
    decreases |orders|
  {
    if orders != [] {
      DirectAgrees(cat, c, bs, orders[0].expression, ss, env);
      WindowOrdersAgree(cat, c, bs, orders[1..], ss, env);
      var first := I.BoundOrder(I.Column(BindDirect(bs, orders[0].expression).value.column), Direction(orders[0]));
      OrdersFirst(c, first, BindWindowOrders(bs, orders[1..]).value, env);
    }
  }

  lemma OrdersFirst(c: Ctx, first: I.BoundOrder, rest: seq<I.BoundOrder>, env: Env)
    ensures EvalOrders(c, [first] + rest, env)
         == [SortKey(Eval(c, first.expression, env), first.direction == I.Descending)] + EvalOrders(c, rest, env)
  {
    assert ([first] + rest)[1..] == rest;
  }

  lemma RankedAgrees(cat: Catalog, c: Ctx, bs: seq<BindScope>, e: Expr, ss: seq<Scope>, env: Env)
    requires Agree(bs, ss, env) && NoShadow(cat, bs, e) && e.Ranked? && BindProjected(cat, bs, e).Ok?
    ensures Eval(c, BindProjected(cat, bs, e).value, env) == SEval(cat, c, e, ss)
  {
    var partition, orders := BindDirects(bs, e.partitionBy).value, BindWindowOrders(bs, e.orderBy).value;
    DirectsAgree(cat, c, bs, e.partitionBy, ss, env);
    WindowOrdersAgree(cat, c, bs, e.orderBy, ss, env);
    RankedValue(c, BindProjected(cat, bs, e).value.resource, partition, orders, env);
  }

  lemma RankedValue(c: Ctx, r: ResourceId, partition: seq<I.BoundColumn>, orders: seq<I.BoundOrder>, env: Env)
    ensures Eval(c, I.RowNumber(r, partition, orders), env)
         == c.engine.rowNumber(Cells(env, partition), EvalOrders(c, orders, env))
  {
  }

  /** A projected expression: ROW_NUMBER over the same columns, or any other expression. */
  lemma ProjectedAgrees(cat: Catalog, c: Ctx, bs: seq<BindScope>, e: Expr, ss: seq<Scope>, env: Env)
    requires ValidCatalog(cat) && Agree(bs, ss, env) && NoShadow(cat, bs, e) && BindProjected(cat, bs, e).Ok?
    ensures Eval(c, BindProjected(cat, bs, e).value, env) == SEval(cat, c, e, ss)
  {
    if e.Ranked? {
      RankedAgrees(cat, c, bs, e, ss, env);
    } else {
      ExprAgrees(cat, c, bs, e, ss, env);
    }
  }

  lemma BoundExpression(cat: Catalog, bs: seq<BindScope>, column: Column)
    requires BindColumn(cat, bs, column).Ok?
    ensures BindProjected(cat, bs, column.expression) == Ok(BindColumn(cat, bs, column).value.expression)
  {
  }

  lemma {:induction false} ValuesAgree(
      cat: Catalog, c: Ctx, bs: seq<BindScope>, columns: seq<Column>, ss: seq<Scope>, env: Env)
    requires ValidCatalog(cat) && Agree(bs, ss, env) && ColumnsUnshadowed(cat, bs, columns)
    requires BindColumns(cat, bs, columns).Ok?
    ensures Values(c, BindColumns(cat, bs, columns).value, env) == SValues(cat, c, columns, ss)
    decreases |columns|
  {
    if columns != [] {
      BoundExpression(cat, bs, columns[0]);
      ProjectedAgrees(cat, c, bs, columns[0].expression, ss, env);
      assert forall i | 0 <= i < |columns[1..]| :: columns[1..][i] == columns[i + 1];
      ValuesAgree(cat, c, bs, columns[1..], ss, env);
      assert BindColumns(cat, bs, columns).value[1..] == BindColumns(cat, bs, columns[1..]).value;
    }
  }

  lemma {:induction false} AnswersAgree(
    cat: Catalog, c: Ctx, bs: seq<BindScope>, columns: seq<Column>, scopes: seq<seq<Scope>>, envs: seq<Env>)
    requires ValidCatalog(cat) && AllAgree(bs, scopes, envs) && ColumnsUnshadowed(cat, bs, columns)
    requires BindColumns(cat, bs, columns).Ok?
    ensures Answer(c, BindColumns(cat, bs, columns).value, envs) == SAnswer(cat, c, columns, scopes)
    decreases |envs|
  {
    if envs != [] {
      assert Agree(bs, scopes[0], envs[0]);
      ValuesAgree(cat, c, bs, columns, scopes[0], envs[0]);
      assert forall i | 0 <= i < |envs[1..]| :: Agree(bs, scopes[1..][i], envs[1..][i]);
      AnswersAgree(cat, c, bs, columns, scopes[1..], envs[1..]);
    }
  }

  /**
    * Flattening preserves meaning: whatever the nesting of derived tables and CTEs, the joins to
    * other resources and the correlated EXISTS, the bound select over the base table has the rows
    * of the written query, one for one, and projects the same values from them.
    */
  lemma FlatteningPreservesMeaning(cat: Catalog, c: Ctx, s: Select)
    requires ValidCatalog(cat) && SelectUnshadowed(cat, s) && SourceKept(cat, s.source) && BindSelect(cat, s).Ok?
    ensures var b := BindSelect(cat, s).value;
            Answer(c, b.projections, SelectEnvs(c, b, c.nested, map[]))
                == SAnswer(cat, c, s.columns, SelectScopes(cat, c, s))
  {
    SelectAgrees(cat, c, s);
    var b, all := BindSelect(cat, s).value, SelectScope(cat, s).value;
    assert BindColumns(cat, all, s.columns).Ok? && b.projections == BindColumns(cat, all, s.columns).value;
    AnswersAgree(cat, c, all, s.columns, SelectScopes(cat, c, s), SelectEnvs(c, b, c.nested, map[]));
  }
}
