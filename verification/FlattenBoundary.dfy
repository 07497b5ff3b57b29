/**
  * Where the binder departs from the written names: an unaliased column of a derived table takes the
  * catalog's name, and a qualifier reused inside EXISTS means the outer source.
  */
module FlattenBoundary {
  import opened Core
  import opened Text
  import I = Ir
  import opened Semantics
  import opened Surface
  import opened Binder
  import opened Flatten
  import opened FlattenTheorem

  // ----- Reused qualifiers -----

  predicate DistinctResources(bs: seq<BindScope>) {
    forall i, j | 0 <= i < j < |bs| :: bs[i].resource != bs[j].resource
  }

  ghost predicate AllOwn(bs: seq<BindScope>) {
    forall i | 0 <= i < |bs| :: OwnColumns(bs[i])
  }

  lemma {:induction false} LookupLast(ss: seq<Scope>, qualifier: Option<string>, name: string, last: nat)
    requires last < |ss| && Means(ss[last], qualifier, LowerText(name))
    requires forall k | last < k < |ss| :: !Means(ss[k], qualifier, LowerText(name))
    ensures Lookup(ss, qualifier, name) == ss[last].row[LowerText(name)]
    decreases |ss|
  {
    if last < |ss| - 1 {
      LookupLast(ss[..|ss| - 1], qualifier, name, last);
    }
  }

  /** The innermost source that has the column, given one that has it. */
  function Innermost(bs: seq<BindScope>, qualifier: Option<string>, key: string, i: nat): (last: nat)
    requires i < |bs| && Holds(bs[i], qualifier, key)
    ensures i <= last < |bs| && Holds(bs[last], qualifier, key)
    ensures forall k | last < k < |bs| :: !Holds(bs[k], qualifier, key)
    decreases |bs|
  {
    if Holds(bs[|bs| - 1], qualifier, key) then |bs| - 1 else Innermost(bs[..|bs| - 1], qualifier, key, i)
  }

  ghost function ScopesIn(bs: seq<BindScope>, env: Env): (ss: seq<Scope>)
    ensures |ss| == |bs| && forall i | 0 <= i < |bs| :: ss[i] == ScopeIn(bs[i], env)
  {
    seq(|bs|, i requires 0 <= i < |bs| => ScopeIn(bs[i], env))
  }

  lemma ScopesAgree(bs: seq<BindScope>, env: Env)
    requires AllOwn(bs)
    ensures Agree(bs, ScopesIn(bs, env), env)
  {
    forall i | 0 <= i < |bs| ensures ScopeAgrees(bs[i], ScopesIn(bs, env)[i], env) {
      assert OwnColumns(bs[i]);
    }
  }

  /** The binder's choice under a qualifier: the first source that has the qualifier, which has the column. */
  predicate First(bs: seq<BindScope>, q: string, key: string, d: Descriptor, i: nat) {
    && i < |bs| && bs[i].qualifier == q && key in bs[i].columns && bs[i].columns[key] == d
    && forall j | 0 <= j < i :: bs[j].qualifier != q
  }

  lemma {:induction false} ResolvedFirst(bs: seq<BindScope>, q: string, key: string)
    requires FirstScope(bs, q).Some? && key in FirstScope(bs, q).value.columns
    ensures exists i: nat :: First(bs, q, key, FirstScope(bs, q).value.columns[key], i)
  {
    var d := FirstScope(bs, q).value.columns[key];
    if bs[0].qualifier == q {
      assert First(bs, q, key, d, 0);
    } else {
      ResolvedFirst(bs[1..], q, key);
      var i: nat :| First(bs[1..], q, key, d, i);
      assert forall j | 0 < j < i + 1 :: bs[j] == bs[1..][j - 1];
      assert First(bs, q, key, d, i + 1);
    }
  }

  /** A row that only the chosen source has; the innermost source with the column shows NULL. */
  lemma HiddenDiffers(bs: seq<BindScope>, q: string, name: string, d: Descriptor, i: nat)
    requires DistinctResources(bs) && AllOwn(bs) && First(bs, LowerText(q), LowerText(name), d, i)
    requires !AtMostOnce(bs, Some(q), LowerText(name))
    ensures exists env: Env :: Lookup(ScopesIn(bs, env), Some(q), name) != Cell(env, d.column.id)
  {
    var key := LowerText(name);
    assert Holds(bs[i], Some(q), key);
    var last := Innermost(bs, Some(q), key, i);
    LastDiffers(bs, q, key, d, i, last);
    var row: Semantics.Row := map[d.column.id.ordinal := Int64(1)];
    var env: Env := map[d.column.id.resource := row];
    var ss := ScopesIn(bs, env);
    forall k | last < k < |ss| ensures !Means(ss[k], Some(q), key) {
      assert ss[k] == ScopeIn(bs[k], env);
    }
    LookupLast(ss, Some(q), name, last);
    assert Cell(env, d.column.id) == Int64(1);
    assert Cell(env, bs[last].columns[key].column.id) == Null;
  }

  /** A second source with the column lies further in. */
  lemma LastDiffers(bs: seq<BindScope>, q: string, key: string, d: Descriptor, i: nat, last: nat)
    requires DistinctResources(bs) && AllOwn(bs) && First(bs, LowerText(q), key, d, i) && i <= last < |bs|
    requires !AtMostOnce(bs, Some(q), key) && Holds(bs[last], Some(q), key)
    requires forall k | last < k < |bs| :: !Holds(bs[k], Some(q), key)
    ensures i < last && bs[last].columns[key].column.id.resource != d.column.id.resource
  {
    var m, n :| 0 <= m < |bs| && 0 <= n < |bs| && Holds(bs[m], Some(q), key) && Holds(bs[n], Some(q), key) && m != n;
    assert i <= m <= last && i <= n <= last;
    assert OwnColumns(bs[i]) && OwnColumns(bs[last]);
  }

  /**
    * A qualified name is bound to what it means, whatever the rows, exactly when only one source
    * among all those around it has a column of that name under that qualifier.
    */
  lemma NameExact(bs: seq<BindScope>, q: string, name: string)
    requires DistinctResources(bs) && AllOwn(bs) && Resolve(bs, Some(q), name).Ok?
    ensures (forall env: Env ::
               Lookup(ScopesIn(bs, env), Some(q), name) == Cell(env, Resolve(bs, Some(q), name).value.column.id))
       <==> AtMostOnce(bs, Some(q), LowerText(name))
  {
    if AtMostOnce(bs, Some(q), LowerText(name)) {
      forall env: Env
        ensures Lookup(ScopesIn(bs, env), Some(q), name) == Cell(env, Resolve(bs, Some(q), name).value.column.id)
      {
        ScopesAgree(bs, env);
        ResolveAgrees(bs, ScopesIn(bs, env), env, Some(q), name);
      }
    } else {
      ResolvedFirst(bs, LowerText(q), LowerText(name));
      var d := Resolve(bs, Some(q), name).value;
      var i: nat :| First(bs, LowerText(q), LowerText(name), d, i);
      HiddenDiffers(bs, q, name, d, i);
    }
  }

  /**
    * A qualified name in an EXISTS that reuses the qualifier: the binder reads the outer row, the
    * text means the inner one.
    */
  lemma ReusedQualifierReadsOuter(
      outer: BindScope, inner: BindScope, ss: seq<Scope>, env: Env, qualifier: string, name: string)
    requires outer.qualifier == LowerText(qualifier) && inner.qualifier == LowerText(qualifier) && !IsRowId(name)
    requires LowerText(name) in outer.columns && LowerText(name) in inner.columns && Agree([outer, inner], ss, env)
    ensures Resolve([outer, inner], Some(qualifier), name) == Ok(outer.columns[LowerText(name)])
    ensures Lookup(ss, Some(qualifier), name) == Cell(env, inner.columns[LowerText(name)].column.id)
  {
    assert ScopeAgrees([outer, inner][1], ss[1], env);
  }

  // ----- Names of derived columns -----

  /** In this environment the derived source shows what the query is written to show. */
  ghost predicate ShowsWritten(
      cat: Catalog, c: Ctx, b: BindScope, columns: seq<Column>, shown: map<string, Descriptor>, env: Env) {
    var row := ProjectRow(cat, c, columns, [ScopeIn(b, env)]);
    shown.Keys == row.Keys && forall k | k in shown :: row[k] == Cell(env, shown[k].column.id)
  }

  lemma {:induction false} ProjectedFrom(cat: Catalog, c: Ctx, columns: seq<Column>, ss: seq<Scope>, key: string)
    requires key in ProjectRow(cat, c, columns, ss)
    ensures exists j | 0 <= j < |columns| ::
              LowerText(OutputName(columns[j])) == key &&
              ProjectRow(cat, c, columns, ss)[key] == SEval(cat, c, columns[j].expression, ss)
    decreases |columns|
  {
    if LowerText(OutputName(columns[0])) != key {
      ProjectedFrom(cat, c, columns[1..], ss, key);
      var j :| 0 <= j < |columns[1..]| && LowerText(OutputName(columns[1..][j])) == key &&
               ProjectRow(cat, c, columns[1..], ss)[key] == SEval(cat, c, columns[1..][j].expression, ss);
      assert columns[1..][j] == columns[j + 1];
    }
  }

  lemma {:induction false} BindColumnsAt(cat: Catalog, bs: seq<BindScope>, columns: seq<Column>, i: nat)
    requires BindColumns(cat, bs, columns).Ok? && i < |columns|
    ensures |BindColumns(cat, bs, columns).value| == |columns|
    ensures BindColumn(cat, bs, columns[i]) == Ok(BindColumns(cat, bs, columns).value[i])
  {
    if i > 0 {
      BindColumnsAt(cat, bs, columns[1..], i - 1);
    } else if |columns| > 1 {
      BindColumnsAt(cat, bs, columns[1..], 0);
    }
  }

  lemma {:induction false} ShownAt(cat: Catalog, ps: seq<I.BoundProjection>, i: nat)
    requires Shown(cat, ps).Ok? && i < |ps|
    ensures ps[i].expression.Column? && LowerText(ps[i].outputName) in Shown(cat, ps).value
    ensures Shown(cat, ps).value[LowerText(ps[i].outputName)].column == ps[i].expression.column
  {
    if i > 0 {
      ShownAt(cat, ps[1..], i - 1);
      assert ps[1..][i - 1] == ps[i];
    }
  }

  /** Cells that tell the columns of a resource apart. */
  function Telling(columns: map<string, Descriptor>): Semantics.Row {
    var ordinals := set k | k in columns :: columns[k].column.id.ordinal;
    map o | o in ordinals :: Number(Finite(o as real))
  }

  lemma BoundName(cat: Catalog, b: BindScope, columns: seq<Column>, i: nat)
    requires OwnColumns(b) && BindColumns(cat, [b], columns).Ok?
    requires Shown(cat, BindColumns(cat, [b], columns).value).Ok? && i < |columns|
    ensures |BindColumns(cat, [b], columns).value| == |columns|
    ensures columns[i].expression.Name?
    ensures var e, p := columns[i].expression, BindColumns(cat, [b], columns).value[i];
            p.expression.Column? && Resolve([b], e.qualifier, e.name).Ok? &&
            LowerText(e.name) in b.columns && b.columns[LowerText(e.name)] == Resolve([b], e.qualifier, e.name).value &&
            b.columns[LowerText(e.name)].column == p.expression.column && p.expression.column.id in cat.names &&
            p.outputName == if columns[i].alias.Some? then columns[i].alias.value else cat.names[p.expression.column.id]
  {
    var ps := BindColumns(cat, [b], columns).value;
    BindColumnsAt(cat, [b], columns, i);
    ShownAt(cat, ps, i);
    ShownNamed(cat, ps, i);
    BoundOne(cat, b, columns[i], ps[i]);
  }

  /** One column that is bound to a column. */
  lemma BoundOne(cat: Catalog, b: BindScope, column: Column, p: I.BoundProjection)
    requires OwnColumns(b) && BindColumn(cat, [b], column) == Ok(p) && p.expression.Column?
    requires p.expression.column.id in cat.names
    ensures column.expression.Name?
    ensures var e := column.expression;
            Resolve([b], e.qualifier, e.name).Ok? &&
            LowerText(e.name) in b.columns && b.columns[LowerText(e.name)] == Resolve([b], e.qualifier, e.name).value &&
            b.columns[LowerText(e.name)].column == p.expression.column &&
            p.outputName == if column.alias.Some? then column.alias.value else cat.names[p.expression.column.id]
  {
    var e := column.expression;
    assert e.Name?;
    ResolveChosen([b], e.qualifier, e.name);
  }

  lemma {:induction false} ShownNamed(cat: Catalog, ps: seq<I.BoundProjection>, i: nat)
    requires Shown(cat, ps).Ok? && i < |ps|
    ensures ps[i].expression.Column? && ps[i].expression.column.id in cat.names
  {
    if i > 0 {
      ShownNamed(cat, ps[1..], i - 1);
      assert ps[1..][i - 1] == ps[i];
    }
  }

  /**
    * A derived source shows, on every row, the values its query is written to show under their
    * written names, exactly when every column without an alias is written under its catalog name.
    */
  lemma NamesExact(cat: Catalog, c: Ctx, b: BindScope, columns: seq<Column>)
    requires ValidCatalog(cat) && OwnColumns(b) && ColumnsUnshadowed(cat, [b], columns)
    requires BindColumns(cat, [b], columns).Ok? && UniqueNames(BindColumns(cat, [b], columns).value)
    requires Shown(cat, BindColumns(cat, [b], columns).value).Ok?
    ensures NamesKept(cat, [b], columns) <==>
            forall env: Env :: ShowsWritten(cat, c, b, columns,
                Shown(cat, BindColumns(cat, [b], columns).value).value, env)
  {
    var shown := Shown(cat, BindColumns(cat, [b], columns).value).value;
    if NamesKept(cat, [b], columns) {
      forall env: Env ensures ShowsWritten(cat, c, b, columns, shown, env) {
        ScopeInAgrees(b, env, env);
        ProjectAgrees(cat, c, b, columns, ScopeIn(b, env), env);
      }
    } else {
      var i :| 0 <= i < |columns| && !NameKept(cat, [b], columns[i]);
      RenamedDiffers(cat, c, b, columns, i);
    }
  }

  lemma RenamedDiffers(cat: Catalog, c: Ctx, b: BindScope, columns: seq<Column>, i: nat)
    requires ValidCatalog(cat) && OwnColumns(b) && ColumnsUnshadowed(cat, [b], columns)
    requires BindColumns(cat, [b], columns).Ok? && UniqueNames(BindColumns(cat, [b], columns).value)
    requires Shown(cat, BindColumns(cat, [b], columns).value).Ok? && i < |columns| && !NameKept(cat, [b], columns[i])
    ensures !ShowsWritten(cat, c, b, columns, Shown(cat, BindColumns(cat, [b], columns).value).value,
            map[b.resource := Telling(b.columns)])
  {
    var ps := BindColumns(cat, [b], columns).value;
    var shown, env := Shown(cat, ps).value, map[b.resource := Telling(b.columns)];
    var s := ScopeIn(b, env);
    BoundName(cat, b, columns, i);
    ShownAt(cat, ps, i);
    var id, key := ps[i].expression.column.id, LowerText(ps[i].outputName);
    assert shown[key].column.id == id;
    TellsApart(cat, c, b, columns[i], env, ps[i]);
    var row := ProjectRow(cat, c, columns, [s]);
    if key in row {
      ProjectedFrom(cat, c, columns, [s], key);
      var j :| 0 <= j < |columns| && LowerText(OutputName(columns[j])) == key &&
               row[key] == SEval(cat, c, columns[j].expression, [s]);
      BoundName(cat, b, columns, j);
      TellsApart(cat, c, b, columns[j], env, ps[j]);
      OtherColumn(cat, columns, ps, i, j);
      assert row[key] != Cell(env, shown[key].column.id);
    }
  }

  /** A column written under the bound name of an unaliased, renamed column is another column. */
  lemma OtherColumn(cat: Catalog, columns: seq<Column>, ps: seq<I.BoundProjection>, i: nat, j: nat)
    requires i < |columns| && j < |columns| && |ps| == |columns| && UniqueNames(ps)
    requires ps[i].expression.Column? && ps[j].expression.Column?
    requires ps[i].expression.column.id in cat.names && ps[j].expression.column.id in cat.names
    requires columns[i].alias.None? && ps[i].outputName == cat.names[ps[i].expression.column.id]
    requires ps[j].outputName
             == if columns[j].alias.Some? then columns[j].alias.value else cat.names[ps[j].expression.column.id]
    requires LowerText(ps[i].outputName) != LowerText(OutputName(columns[i]))
    requires LowerText(OutputName(columns[j])) == LowerText(ps[i].outputName)
    ensures ps[j].expression.column.id != ps[i].expression.column.id
  {
    assert i != j;
    var lo, hi := if i < j then i else j, if i < j then j else i;
    assert LowerText(ps[lo].outputName) != LowerText(ps[hi].outputName);
  }

  /** A plain column evaluates to the number of its ordinal there. */
  lemma TellsApart(cat: Catalog, c: Ctx, b: BindScope, column: Column, env: Env, p: I.BoundProjection)
    requires ValidCatalog(cat) && OwnColumns(b) && env == map[b.resource := Telling(b.columns)]
    requires column.expression.Name? && Resolve([b], column.expression.qualifier, column.expression.name).Ok?
    requires p.expression.Column? && LowerText(column.expression.name) in b.columns
    requires b.columns[LowerText(column.expression.name)]
             == Resolve([b], column.expression.qualifier, column.expression.name).value
    requires b.columns[LowerText(column.expression.name)].column == p.expression.column
    ensures p.expression.column.id.resource == b.resource
    ensures SEval(cat, c, column.expression, [ScopeIn(b, env)])
         == Number(Finite(p.expression.column.id.ordinal as real))
    ensures Cell(env, p.expression.column.id) == Number(Finite(p.expression.column.id.ordinal as real))
  {
    var e := column.expression;
    ScopeInAgrees(b, env, env);
    ResolveAgrees([b], [ScopeIn(b, env)], env, e.qualifier, e.name);
  }

  // ----- Renamed columns without an alias -----

  const FIRST := I.BoundColumn(ColumnId(0, 0), StringType)
  const SECOND := I.BoundColumn(ColumnId(0, 1), StringType)

  const SAMPLE := Catalog(
    map["t" := TableInfo(0, map["a" := Descriptor(FIRST, "a"), "b" := Descriptor(SECOND, "b")])],
    map[ColumnId(0, 0) := "a", ColumnId(0, 1) := "b"])

  function Plain(name: string): Column {
    Column(Name(None, name), None)
  }

  /** SELECT a AS b, b AS a FROM t */
  const SWAPPED := Select(Table("t", None), [],
      [Column(Name(None, "a"), Some("b")), Column(Name(None, "b"), Some("a"))], None, PLAIN)

  /** SELECT a, b FROM (SELECT a AS b, b AS a FROM t) AS d */
  const MIDDLE := Select(Derived(SWAPPED, "d"), [], [Plain("a"), Plain("b")], None, PLAIN)

  /** SELECT a FROM (SELECT a, b FROM (SELECT a AS b, b AS a FROM t) AS d) AS e */
  const QUERY := Select(Derived(MIDDLE, "e"), [], [Plain("a")], None, PLAIN)

  const TABLE := BindScope(0, "t", SAMPLE.tables["t"].columns)
  const OUTER_D := BindScope(0, "d", map["a" := Descriptor(SECOND, "b"), "b" := Descriptor(FIRST, "a")])
  const OUTER_E := BindScope(0, "e", map["a" := Descriptor(FIRST, "a"), "b" := Descriptor(SECOND, "b")])

  lemma Letters()
    ensures LowerText("a") == "a" && LowerText("b") == "b" && LowerText("t") == "t" && LowerText("d") == "d"
    ensures LowerText("e") == "e"
    ensures !IsRowId("a") && !IsRowId("b") && "a" != "b"
  {
    assert "a"[1..] == [] && "b"[1..] == [] && "t"[1..] == [] && "d"[1..] == [] && "e"[1..] == [];
    assert "a"[0] != "b"[0];
  }

  /** An unqualified name over a single source. */
  lemma ResolveOne(b: BindScope, name: string)
    requires LowerText(name) == name && !IsRowId(name) && name in b.columns
    ensures Resolve([b], None, name) == Ok(b.columns[name])
  {
    assert [b][1..] == [] && Holders([b], name) == [b.columns[name]];
  }

  lemma BindOne(b: BindScope, name: string, alias: Option<string>)
    requires LowerText(name) == name && !IsRowId(name) && name in b.columns && b.columns[name].column.id in SAMPLE.names
    ensures BindColumn(SAMPLE, [b], Column(Name(None, name), alias)) ==
            Ok(I.BoundProjection(I.Column(b.columns[name].column),
                                 if alias.Some? then alias.value else SAMPLE.names[b.columns[name].column.id]))
  {
    ResolveOne(b, name);
  }

  lemma BindTwo(b: BindScope, x: Column, y: Column)
    requires BindColumn(SAMPLE, [b], x).Ok? && BindColumn(SAMPLE, [b], y).Ok?
    ensures BindColumns(SAMPLE, [b], [x, y]) ==
            Ok([BindColumn(SAMPLE, [b], x).value, BindColumn(SAMPLE, [b], y).value])
    ensures BindColumns(SAMPLE, [b], [x]) == Ok([BindColumn(SAMPLE, [b], x).value])
  {
    assert [x, y][1..] == [y] && [y][1..] == [] && [x][1..] == [];
    var p, q := BindColumn(SAMPLE, [b], x).value, BindColumn(SAMPLE, [b], y).value;
    assert [p] + [] == [p] && [q] + [] == [q] && [p] + [q] == [p, q];
    assert BindColumns(SAMPLE, [b], []) == Ok([]);
    assert BindColumns(SAMPLE, [b], [y]) == Ok([q]);
  }

  /** The column a projected name stands for, at each level of the sample. */
  lemma SampleColumns()
    ensures BindColumns(SAMPLE, [TABLE], SWAPPED.columns) ==
            Ok([I.BoundProjection(I.Column(FIRST), "b"), I.BoundProjection(I.Column(SECOND), "a")])
    ensures BindColumns(SAMPLE, [OUTER_D], MIDDLE.columns) ==
            Ok([I.BoundProjection(I.Column(SECOND), "b"), I.BoundProjection(I.Column(FIRST), "a")])
    ensures BindColumns(SAMPLE, [OUTER_E], QUERY.columns) == Ok([I.BoundProjection(I.Column(FIRST), "a")])
  {
    Letters();
    BindOne(TABLE, "a", Some("b"));
    BindOne(TABLE, "b", Some("a"));
    BindTwo(TABLE, SWAPPED.columns[0], SWAPPED.columns[1]);
    BindOne(OUTER_D, "a", None);
    BindOne(OUTER_D, "b", None);
    BindTwo(OUTER_D, Plain("a"), Plain("b"));
    BindOne(OUTER_E, "a", None);
    BindTwo(OUTER_E, Plain("a"), Plain("a"));
  }

  lemma ShownTwo(x: I.BoundColumn, m: string, y: I.BoundColumn, n: string)
    requires LowerText(m) == m && LowerText(n) == n && m != n && x.id in SAMPLE.names && y.id in SAMPLE.names
    ensures Shown(SAMPLE, [I.BoundProjection(I.Column(x), m), I.BoundProjection(I.Column(y), n)]) ==
            Ok(map[n := Descriptor(y, SAMPLE.names[y.id]), m := Descriptor(x, SAMPLE.names[x.id])])
  {
    var p, q := I.BoundProjection(I.Column(x), m), I.BoundProjection(I.Column(y), n);
    assert [p, q][1..] == [q] && [q][1..] == [];
    assert Shown(SAMPLE, []) == Ok(map[]);
    assert Shown(SAMPLE, [q]) == Ok(map[n := Descriptor(y, SAMPLE.names[y.id])]);
  }

  /** A query with only columns over a known root. */
  lemma BindPlain(source: Source, root: BindScope, columns: seq<Column>, ps: seq<I.BoundProjection>)
    requires BindSource(SAMPLE, source) == Ok((root, None)) && columns != []
    requires BindColumns(SAMPLE, [root], columns) == Ok(ps)
    requires UniqueNames(ps) && forall i | 0 <= i < |ps| ::
             LowerText(ps[i].outputName) == "a" || LowerText(ps[i].outputName) == "b"
    ensures BindSelect(SAMPLE, Select(source, [], columns, None, PLAIN)) ==
            Ok(I.BoundSelect(root.resource, [], ps, None, [], None, [], None, None))
  {
    assert BindJoins(SAMPLE, [root], []) == Ok(([], [root]));
    assert SERVER_PARAMETER_PREFIX[0] == '_' && "a"[0] != '_' && "b"[0] != '_';
    assert BindOption(SAMPLE, [root], None) == Ok(None) && Merge(None, None) == None;
  }

  lemma SwappedBinds()
    ensures BindSource(SAMPLE, Derived(SWAPPED, "d")) == Ok((OUTER_D, None))
  {
    Letters();
    SampleColumns();
    var ps := [I.BoundProjection(I.Column(FIRST), "b"), I.BoundProjection(I.Column(SECOND), "a")];
    assert BindSource(SAMPLE, Table("t", None)) == Ok((TABLE, None));
    BindPlain(Table("t", None), TABLE, SWAPPED.columns, ps);
    ShownTwo(FIRST, "b", SECOND, "a");
    assert Shown(SAMPLE, ps).value == OUTER_D.columns;
  }

  lemma MiddleBinds()
    ensures BindSource(SAMPLE, Derived(MIDDLE, "e")) == Ok((OUTER_E, None))
  {
    Letters();
    SampleColumns();
    SwappedBinds();
    var ps := [I.BoundProjection(I.Column(SECOND), "b"), I.BoundProjection(I.Column(FIRST), "a")];
    BindPlain(Derived(SWAPPED, "d"), OUTER_D, MIDDLE.columns, ps);
    ShownTwo(SECOND, "b", FIRST, "a");
    assert Shown(SAMPLE, ps).value == OUTER_E.columns;
  }

  lemma SampleBinds()
    ensures BindSelect(SAMPLE, QUERY) ==
            Ok(I.BoundSelect(0, [], [I.BoundProjection(I.Column(FIRST), "a")], None, [], None, [], None, None))
  {
    Letters();
    SampleColumns();
    MiddleBinds();
    BindPlain(Derived(MIDDLE, "e"), OUTER_E, QUERY.columns, [I.BoundProjection(I.Column(FIRST), "a")]);
  }

  /** One source, no join, no condition: one scope per row. */
  lemma PlainScopes(c: Ctx, source: Source, columns: seq<Column>, row: Surface.Row)
    requires SourceRows(SAMPLE, c, source) == [row]
    ensures SelectScopes(SAMPLE, c, Select(source, [], columns, None, PLAIN)) == [[Scope(SourceQualifier(source), row)]]
  {
    assert [row][1..] == [];
    var s := Scope(SourceQualifier(source), row);
    assert [] + [s] == [s];
    assert SExtend([], SourceQualifier(source), []) == [];
    assert SExtend([], SourceQualifier(source), [row]) == [[s]];
    assert SJoinAll(SAMPLE, c, [], [[s]]) == [[s]];
  }

  lemma LookupOne(s: Scope, name: string)
    requires LowerText(name) == name && name in s.row
    ensures Lookup([s], None, name) == s.row[name]
  {
  }

  lemma ProjectTwo(c: Ctx, s: Scope, m: Option<string>, n: Option<string>)
    requires "a" in s.row && "b" in s.row
    requires m in {None, Some("b")} && n == if m.None? then None else Some("a")
    ensures ProjectRows(SAMPLE, c, [Column(Name(None, "a"), m), Column(Name(None, "b"), n)], [[s]]) ==
            [if m.None? then map["a" := s.row["a"], "b" := s.row["b"]] else map["b" := s.row["a"], "a" := s.row["b"]]]
  {
    Letters();
    LookupOne(s, "a");
    LookupOne(s, "b");
    var x, y := Column(Name(None, "a"), m), Column(Name(None, "b"), n);
    assert [x, y][1..] == [y] && [y][1..] == [] && [[s]][1..] == [];
    assert ProjectRow(SAMPLE, c, [], [s]) == map[];
    assert ProjectRow(SAMPLE, c, [y], [s]) == map[LowerText(OutputName(y)) := s.row["b"]];
    assert ProjectRow(SAMPLE, c, [x, y], [s])
           == map[LowerText(OutputName(y)) := s.row["b"]][LowerText(OutputName(x)) := s.row["a"]];
    var row := ProjectRow(SAMPLE, c, [x, y], [s]);
    if m.None? {
      assert OutputName(x) == "a" && OutputName(y) == "b";
      assert row == map["a" := s.row["a"], "b" := s.row["b"]];
    } else {
      assert OutputName(x) == "b" && OutputName(y) == "a";
      assert row == map["b" := s.row["a"], "a" := s.row["b"]];
    }
    assert ProjectRows(SAMPLE, c, [x, y], []) == [];
    assert ProjectRows(SAMPLE, c, [x, y], [[s]]) == [row] + [];
  }

  /** On a table of one row the sample query is written to show column b, and is bound to show column a. */
  lemma RenamedColumnsAreSwapped(c: Ctx, row: Semantics.Row)
    requires 0 in c.nested && c.nested[0] == [row] && 0 in row && 1 in row
    ensures BindSelect(SAMPLE, QUERY).Ok? && !SourceKept(SAMPLE, QUERY.source)
    ensures SAnswer(SAMPLE, c, QUERY.columns, SelectScopes(SAMPLE, c, QUERY)) == [[row[1]]]
    ensures var b := BindSelect(SAMPLE, QUERY).value;
            Answer(c, b.projections, SelectEnvs(c, b, c.nested, map[])) == [[row[0]]]
  {
    SampleBinds();
    WrittenMeaning(c, row);
    BoundMeaning(c, row);
    NotKept();
  }

  lemma WrittenMeaning(c: Ctx, row: Semantics.Row)
    requires 0 in c.nested && c.nested[0] == [row] && 0 in row && 1 in row
    ensures SAnswer(SAMPLE, c, QUERY.columns, SelectScopes(SAMPLE, c, QUERY)) == [[row[1]]]
  {
    Letters();
    var base := map["a" := row[0], "b" := row[1]];
    var info := SAMPLE.tables["t"];
    assert [row][1..] == [] && NameRows(info, []) == [];
    assert NameRow(info, row) == base;
    assert SourceRows(SAMPLE, c, Table("t", None)) == [base];
    PlainScopes(c, Table("t", None), SWAPPED.columns, base);
    ProjectTwo(c, Scope("t", base), Some("b"), Some("a"));
    var swapped := map["b" := row[0], "a" := row[1]];
    assert SourceRows(SAMPLE, c, Derived(SWAPPED, "d")) == [swapped];
    PlainScopes(c, Derived(SWAPPED, "d"), MIDDLE.columns, swapped);
    ProjectTwo(c, Scope("d", swapped), None, None);
    assert SourceRows(SAMPLE, c, Derived(MIDDLE, "e")) == [map["a" := row[1], "b" := row[0]]];
    var shown := map["a" := row[1], "b" := row[0]];
    PlainScopes(c, Derived(MIDDLE, "e"), QUERY.columns, shown);
    LookupOne(Scope("e", shown), "a");
    var column := Plain("a");
    assert [column][1..] == [] && SValues(SAMPLE, c, [], [Scope("e", shown)]) == [];
    assert SValues(SAMPLE, c, [column], [Scope("e", shown)]) == [row[1]];
    assert [[Scope("e", shown)]][1..] == [] && SAnswer(SAMPLE, c, [column], []) == [];
  }

  lemma BoundMeaning(c: Ctx, row: Semantics.Row)
    requires 0 in c.nested && c.nested[0] == [row] && 0 in row
    ensures var b := I.BoundSelect(0, [], [I.BoundProjection(I.Column(FIRST), "a")], None, [], None, [], None, None);
            Answer(c, b.projections, SelectEnvs(c, b, c.nested, map[])) == [[row[0]]]
  {
    var b := I.BoundSelect(0, [], [I.BoundProjection(I.Column(FIRST), "a")], None, [], None, [], None, None);
    var env: Env := map[0 := row];
    assert [row][1..] == [] && Extend(map[], 0, []) == [];
    assert Extend(map[], 0, [row]) == [env];
    assert JoinAll(c, [], c.nested, [env]) == [env];
    assert SelectEnvs(c, b, c.nested, map[]) == [env];
    assert b.projections[1..] == [] && Values(c, [], env) == [] && Values(c, b.projections, env) == [row[0]];
    assert [env][1..] == [] && Answer(c, b.projections, []) == [];
  }

  /** The sample breaks the condition under which flattening preserves meaning. */
  lemma NotKept()
    ensures !SourceKept(SAMPLE, QUERY.source)
  {
    Letters();
    SwappedBinds();
    assert BindJoins(SAMPLE, [OUTER_D], []) == Ok(([], [OUTER_D]));
    assert SelectScope(SAMPLE, MIDDLE) == Ok([OUTER_D]);
    ResolveOne(OUTER_D, "a");
    assert !NameKept(SAMPLE, [OUTER_D], MIDDLE.columns[0]);
  }
}
