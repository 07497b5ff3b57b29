/**
  * Flattening preserves meaning: a query over a derived table or CTE and the bound select over the
  * base table, with the inner and the outer condition conjoined, see the same rows and project
  * the same values, for any inner and left joins to other resources.
  */
module Flatten {
  import opened Core
  import opened Text
  import I = Ir
  import opened Semantics
  import opened Surface
  import opened Binder

  // ----- Scopes with names and scopes with identities -----

  /** The named row of a source holds the cells of its bound columns. */
  ghost predicate ScopeAgrees(b: BindScope, s: Scope, env: Env) {
    && b.qualifier == s.qualifier
    && b.columns.Keys == s.row.Keys
    && forall k | k in b.columns ::
        b.columns[k].column.id.resource == b.resource && s.row[k] == Cell(env, b.columns[k].column.id)
  }

  ghost predicate Agree(bs: seq<BindScope>, ss: seq<Scope>, env: Env) {
    |bs| == |ss| && forall i | 0 <= i < |bs| :: ScopeAgrees(bs[i], ss[i], env)
  }

  ghost predicate AllAgree(bs: seq<BindScope>, scopes: seq<seq<Scope>>, envs: seq<Env>) {
    |scopes| == |envs| && forall i | 0 <= i < |envs| :: Agree(bs, scopes[i], envs[i])
  }

  // ----- Resolution -----

  lemma {:induction false} FirstScopeAt(bs: seq<BindScope>, q: string)
    ensures FirstScope(bs, q).Some? ==> exists i | 0 <= i < |bs| ::
            bs[i].qualifier == q && FirstScope(bs, q) == Some(bs[i])
  {
    if bs != [] && bs[0].qualifier != q {
      FirstScopeAt(bs[1..], q);
      if FirstScope(bs, q).Some? {
        var i :| 0 <= i < |bs[1..]| && bs[1..][i].qualifier == q && FirstScope(bs[1..], q) == Some(bs[1..][i]);
        assert bs[i + 1] == bs[1..][i];
      }
    }
  }

  lemma {:induction false} HoldersNone(bs: seq<BindScope>, key: string)
    requires Holders(bs, key) == []
    ensures forall i | 0 <= i < |bs| :: key !in bs[i].columns
  {
    if bs != [] {
      HoldersNone(bs[1..], key);
      forall i | 0 <= i < |bs| ensures key !in bs[i].columns { if i > 0 { assert bs[i] == bs[1..][i - 1]; } }
    }
  }

  lemma {:induction false} HoldersOne(bs: seq<BindScope>, key: string)
    requires |Holders(bs, key)| == 1
    ensures exists i | 0 <= i < |bs| ::
              key in bs[i].columns && Holders(bs, key)[0] == bs[i].columns[key] &&
              forall j | 0 <= j < |bs| && j != i :: key !in bs[j].columns
  {
    if key in bs[0].columns {
      HoldersNone(bs[1..], key);
      forall j | 0 < j < |bs| ensures key !in bs[j].columns { assert bs[j] == bs[1..][j - 1]; }
      assert Holders(bs, key)[0] == bs[0].columns[key];
    } else {
      HoldersOne(bs[1..], key);
      var i :| 0 <= i < |bs[1..]| && key in bs[1..][i].columns && Holders(bs[1..], key)[0] == bs[1..][i].columns[key] &&
               forall j | 0 <= j < |bs[1..]| && j != i :: key !in bs[1..][j].columns;
      forall j | 0 <= j < |bs| &&
          j != i + 1 ensures key !in bs[j].columns { if j > 0 { assert bs[j] == bs[1..][j - 1]; } }
      assert bs[i + 1] == bs[1..][i];
    }
  }

  /** Some source means the name. */
  predicate Means(s: Scope, qualifier: Option<string>, key: string) {
    (qualifier.Some? ==> LowerText(qualifier.value) == s.qualifier) && key in s.row
  }

  lemma {:induction false} LookupAt(ss: seq<Scope>, qualifier: Option<string>, name: string, i: nat)
    requires i < |ss| && Means(ss[i], qualifier, LowerText(name))
    requires forall j | 0 <= j < |ss| && j != i :: !Means(ss[j], qualifier, LowerText(name))
    ensures Lookup(ss, qualifier, name) == ss[i].row[LowerText(name)]
    decreases |ss|
  {
    if i < |ss| - 1 {
      var front := ss[..|ss| - 1];
      assert !Means(ss[|ss| - 1], qualifier, LowerText(name));
      LookupAt(front, qualifier, name, i);
    }
  }

  /** The source that the binder chose. */
  ghost predicate Chosen(bs: seq<BindScope>, qualifier: Option<string>, key: string, d: Descriptor, i: nat) {
    i < |bs| && key in bs[i].columns && bs[i].columns[key] == d &&
    if qualifier.Some? then bs[i].qualifier == LowerText(qualifier.value)
    else forall j | 0 <= j < |bs| && j != i :: key !in bs[j].columns
  }

  lemma ResolveChosen(bs: seq<BindScope>, qualifier: Option<string>, name: string)
    requires Resolve(bs, qualifier, name).Ok?
    ensures exists i: nat :: Chosen(bs, qualifier, LowerText(name), Resolve(bs, qualifier, name).value, i)
  {
    var key, d := LowerText(name), Resolve(bs, qualifier, name).value;
    if qualifier.Some? {
      FirstScopeAt(bs, LowerText(qualifier.value));
      var i :| 0 <= i < |bs| && bs[i].qualifier == LowerText(qualifier.value) &&
               FirstScope(bs, LowerText(qualifier.value)) == Some(bs[i]);
      assert Chosen(bs, qualifier, key, d, i);
    } else {
      HoldersOne(bs, key);
      var i :| 0 <= i < |bs| && key in bs[i].columns && Holders(bs, key)[0] == bs[i].columns[key] &&
               forall j | 0 <= j < |bs| && j != i :: key !in bs[j].columns;
      assert Chosen(bs, qualifier, key, d, i);
    }
  }

  lemma OtherHolder(bs: seq<BindScope>, qualifier: Option<string>, key: string, i: nat, j: nat)
    requires AtMostOnce(bs, qualifier, key) && qualifier.Some? && i < |bs| && j < |bs| && i != j
    requires Holds(bs[i], qualifier, key)
    ensures !Holds(bs[j], qualifier, key)
  {
  }

  /** Where a written qualifier stands for one source, the binder's column and the named lookup are the same cell. */
  lemma ResolveAgrees(bs: seq<BindScope>, ss: seq<Scope>, env: Env, qualifier: Option<string>, name: string)
    requires Agree(bs, ss, env) && AtMostOnce(bs, qualifier, LowerText(name)) && Resolve(bs, qualifier, name).Ok?
    ensures Lookup(ss, qualifier, name) == Cell(env, Resolve(bs, qualifier, name).value.column.id)
  {
    var key, d := LowerText(name), Resolve(bs, qualifier, name).value;
    ResolveChosen(bs, qualifier, name);
    var i: nat :| Chosen(bs, qualifier, key, d, i);
    assert ScopeAgrees(bs[i], ss[i], env);
    forall j | 0 <= j < |ss| && j != i ensures !Means(ss[j], qualifier, key) {
      assert ScopeAgrees(bs[j], ss[j], env);
      if qualifier.Some? { OtherHolder(bs, qualifier, key, i, j); }
    }
    LookupAt(ss, qualifier, name, i);
  }

  // ----- Extending scopes -----

  /** A table row enters the scopes on both sides. */
  lemma AgreeExtend(bs: seq<BindScope>, ss: seq<Scope>, env: Env, b: BindScope, s: Scope, row: Semantics.Row)
    requires Agree(bs, ss, env) && !InScope(bs, b.resource) && ScopeAgrees(b, s, env[b.resource := row])
    ensures Agree(bs + [b], ss + [s], env[b.resource := row])
  {
    var env' := env[b.resource := row];
    forall i | 0 <= i < |bs + [b]| ensures ScopeAgrees((bs + [b])[i], (ss + [s])[i], env') {
      if i < |bs| { OtherScope(bs[i], ss[i], env, b.resource, row); }
    }
  }

  lemma OtherScope(b: BindScope, s: Scope, env: Env, r: ResourceId, row: Semantics.Row)
    requires ScopeAgrees(b, s, env) && b.resource != r
    ensures ScopeAgrees(b, s, env[r := row])
  {
    forall k | k in b.columns ensures s.row[k] == Cell(env[r := row], b.columns[k].column.id) {
      assert RowOf(env[r := row], b.resource) == RowOf(env, b.resource);
    }
  }

  lemma TableScope(cat: Catalog, table: string, alias: Option<string>, env: Env, row: Semantics.Row)
    requires ValidCatalog(cat) && BindTable(cat, table, alias).Ok?
    ensures var b := BindTable(cat, table, alias).value;
            ScopeAgrees(b, Scope(Qualifier(table, alias), NameRow(cat.tables[LowerText(table)], row)),
                env[b.resource := row])
  {
    var info := cat.tables[LowerText(table)];
    assert ValidTable(cat, info);
  }

  lemma {:induction false} ExtendAgrees(
    cat: Catalog, table: string, alias: Option<string>, bs: seq<BindScope>, ss: seq<Scope>, env: Env,
    rows: seq<Semantics.Row>)
    requires ValidCatalog(cat) && BindTable(cat, table, alias).Ok? && Agree(bs, ss, env)
    requires !InScope(bs, BindTable(cat, table, alias).value.resource)
    ensures var b := BindTable(cat, table, alias).value;
            AllAgree(bs + [b], SExtend(ss, Qualifier(table, alias), NameRows(cat.tables[LowerText(table)], rows)),
                     Extend(env, b.resource, rows))
    decreases |rows|
  {
    if rows != [] {
      var b, info := BindTable(cat, table, alias).value, cat.tables[LowerText(table)];
      TableScope(cat, table, alias, env, rows[0]);
      AgreeExtend(bs, ss, env, b, Scope(Qualifier(table, alias), NameRow(info, rows[0])), rows[0]);
      ExtendAgrees(cat, table, alias, bs, ss, env, rows[1..]);
      var named := NameRows(info, rows);
      assert named[0] == NameRow(info, rows[0]) && named[1..] == NameRows(info, rows[1..]);
      AllAgreeCons(bs + [b], ss + [Scope(Qualifier(table, alias), named[0])],
          SExtend(ss, Qualifier(table, alias), named[1..]),
                   env[b.resource := rows[0]], Extend(env, b.resource, rows[1..]));
    }
  }

  lemma AllAgreeCons(bs: seq<BindScope>, s: seq<Scope>, rest: seq<seq<Scope>>, env: Env, envs: seq<Env>)
    requires Agree(bs, s, env) && AllAgree(bs, rest, envs)
    ensures AllAgree(bs, [s] + rest, [env] + envs)
  {
  }

  lemma AllAgreeConcat(bs: seq<BindScope>, xs: seq<seq<Scope>>, ys: seq<seq<Scope>>, ex: seq<Env>, ey: seq<Env>)
    requires AllAgree(bs, xs, ex) && AllAgree(bs, ys, ey)
    ensures AllAgree(bs, xs + ys, ex + ey)
  {
    forall i | 0 <= i < |ex + ey| ensures Agree(bs, (xs + ys)[i], (ex + ey)[i]) {
      if i >= |ex| { assert (xs + ys)[i] == ys[i - |ex|] && (ex + ey)[i] == ey[i - |ex|]; }
    }
  }

  // ----- Expressions -----

  /** The source has the column, under the qualifier if one is written. */
  predicate Holds(b: BindScope, qualifier: Option<string>, key: string) {
    (qualifier.Some? ==> b.qualifier == LowerText(qualifier.value)) && key in b.columns
  }

  /** At most one source has the column under the qualifier; without a qualifier the binder sees to that. */
  predicate AtMostOnce(bs: seq<BindScope>, qualifier: Option<string>, key: string) {
    qualifier.Some? ==>
        forall i, j | 0 <= i < |bs| && 0 <= j < |bs| && Holds(bs[i], qualifier, key) && Holds(bs[j], qualifier, key) ::
            i == j
  }

  /** Every qualified name means one column only among the sources around it, those of enclosing queries included. */
  predicate NoShadow(cat: Catalog, bs: seq<BindScope>, e: Expr)
    decreases e
  {
    match e
    case Name(qualifier, name) => AtMostOnce(bs, qualifier, LowerText(name))
    case Infix(_, left, right) => NoShadow(cat, bs, left) && NoShadow(cat, bs, right)
    case Prefix(_, inner) => NoShadow(cat, bs, inner)
    case Among(x, values, _) => NoShadow(cat, bs, x) && AllUnshadowed(cat, bs, values)
    case Call(_, arguments, _) => AllUnshadowed(cat, bs, arguments)
    case Choice(arms, otherwise, _) => ArmsUnshadowed(cat, bs, arms) && OptionUnshadowed(cat, bs, otherwise)
    case Ranked(partitionBy, orderBy) => AllUnshadowed(cat, bs, partitionBy) && OrdersUnshadowed(cat, bs, orderBy)
    case ExistsIn(table, alias, filter) =>
      BindTable(cat, table, alias).Ok? ==> OptionUnshadowed(cat, bs + [BindTable(cat, table, alias).value], filter)
    case _ => true
  }

  predicate AllUnshadowed(cat: Catalog, bs: seq<BindScope>, es: seq<Expr>)
    decreases es
  {
    es == [] || (assert es decreases to es[0]; NoShadow(cat, bs, es[0]) && AllUnshadowed(cat, bs, es[1..]))
  }

  predicate OrdersUnshadowed(cat: Catalog, bs: seq<BindScope>, orders: seq<Order>)
    decreases orders
  {
    orders == [] ||
    (assert orders decreases to orders[0];
     NoShadow(cat, bs, orders[0].expression) && OrdersUnshadowed(cat, bs, orders[1..]))
  }

  predicate ArmsUnshadowed(cat: Catalog, bs: seq<BindScope>, arms: seq<Arm>)
    decreases arms
  {
    arms == [] ||
    (assert arms decreases to arms[0];
     NoShadow(cat, bs, arms[0].condition) && NoShadow(cat, bs, arms[0].value) && ArmsUnshadowed(cat, bs, arms[1..]))
  }

  predicate OptionUnshadowed(cat: Catalog, bs: seq<BindScope>, e: Option<Expr>)
    decreases e
  {
    e.None? || (assert e decreases to e.value; NoShadow(cat, bs, e.value))
  }

  /** Every bound expression has the named expression's value. */
  lemma {:induction false} ExprAgrees(cat: Catalog, c: Ctx, bs: seq<BindScope>, e: Expr, ss: seq<Scope>, env: Env)
    requires ValidCatalog(cat) && Agree(bs, ss, env) && NoShadow(cat, bs, e)
    requires BindExpr(cat, bs, e).Ok?
    ensures Eval(c, BindExpr(cat, bs, e).value, env) == SEval(cat, c, e, ss)
    decreases e, 1
  {
    match e
    case Name(qualifier, name) => ResolveAgrees(bs, ss, env, qualifier, name);
    case Infix(_, _, _) => InfixAgrees(cat, c, bs, e, ss, env);
    case Prefix(_, inner) => ExprAgrees(cat, c, bs, inner, ss, env);
    case Among(_, _, _) => AmongAgrees(cat, c, bs, e, ss, env);
    case Call(_, _, _) => CallAgrees(cat, c, bs, e, ss, env);
    case Choice(_, _, _) => ChoiceAgrees(cat, c, bs, e, ss, env);
    case ExistsIn(_, _, _) => ExistsAgrees(cat, c, bs, e, ss, env);
    case _ =>
  }

  lemma {:induction false} InfixAgrees(cat: Catalog, c: Ctx, bs: seq<BindScope>, e: Expr, ss: seq<Scope>, env: Env)
    requires ValidCatalog(cat) && Agree(bs, ss, env) && NoShadow(cat, bs, e)
    requires e.Infix? && BindExpr(cat, bs, e).Ok?
    ensures Eval(c, BindExpr(cat, bs, e).value, env) == SEval(cat, c, e, ss)
    decreases e, 0
  {
    ExprAgrees(cat, c, bs, e.left, ss, env);
    ExprAgrees(cat, c, bs, e.right, ss, env);
  }

  lemma {:induction false} AmongAgrees(cat: Catalog, c: Ctx, bs: seq<BindScope>, e: Expr, ss: seq<Scope>, env: Env)
    requires ValidCatalog(cat) && Agree(bs, ss, env) && NoShadow(cat, bs, e)
    requires e.Among? && BindExpr(cat, bs, e).Ok?
    ensures Eval(c, BindExpr(cat, bs, e).value, env) == SEval(cat, c, e, ss)
    decreases e, 0
  {
    ExprAgrees(cat, c, bs, e.expression, ss, env);
    ExprsAgree(cat, c, bs, e.values, ss, env);
  }

  lemma {:induction false} CallAgrees(cat: Catalog, c: Ctx, bs: seq<BindScope>, e: Expr, ss: seq<Scope>, env: Env)
    requires ValidCatalog(cat) && Agree(bs, ss, env) && NoShadow(cat, bs, e)
    requires e.Call? && BindExpr(cat, bs, e).Ok?
    ensures Eval(c, BindExpr(cat, bs, e).value, env) == SEval(cat, c, e, ss)
    decreases e, 0
  {
    ExprsAgree(cat, c, bs, e.arguments, ss, env);
  }

  lemma {:induction false} ExprsAgree(cat: Catalog, c: Ctx, bs: seq<BindScope>, es: seq<Expr>, ss: seq<Scope>, env: Env)
    requires ValidCatalog(cat) && Agree(bs, ss, env) && AllUnshadowed(cat, bs, es)
    requires BindAll(cat, bs, es).Ok?
    ensures EvalAll(c, BindAll(cat, bs, es).value, env) == SEvalAll(cat, c, es, ss)
    decreases es, 0
  {
    if es != [] {
      assert es decreases to es[0];
      ExprAgrees(cat, c, bs, es[0], ss, env);
      ExprsAgree(cat, c, bs, es[1..], ss, env);
      assert BindAll(cat, bs, es).value[1..] == BindAll(cat, bs, es[1..]).value;
    }
  }

  lemma {:induction false} ChoiceAgrees(cat: Catalog, c: Ctx, bs: seq<BindScope>, e: Expr, ss: seq<Scope>, env: Env)
    requires ValidCatalog(cat) && Agree(bs, ss, env) && NoShadow(cat, bs, e)
    requires e.Choice? && BindExpr(cat, bs, e).Ok?
    ensures Eval(c, BindExpr(cat, bs, e).value, env) == SEval(cat, c, e, ss)
    decreases e, 0
  {
    ArmsAgree(cat, c, bs, e.arms, ss, env);
    if e.otherwise.Some? { ExprAgrees(cat, c, bs, e.otherwise.value, ss, env); }
  }

  lemma {:induction false} ArmsAgree(cat: Catalog, c: Ctx, bs: seq<BindScope>, arms: seq<Arm>, ss: seq<Scope>, env: Env)
    requires ValidCatalog(cat) && Agree(bs, ss, env) && ArmsUnshadowed(cat, bs, arms)
    requires BindArms(cat, bs, arms).Ok?
    ensures EvalBranches(c, BindArms(cat, bs, arms).value, env) == SEvalArms(cat, c, arms, ss)
    decreases arms, 0
  {
    if arms != [] {
      assert arms decreases to arms[0];
      ExprAgrees(cat, c, bs, arms[0].condition, ss, env);
      ExprAgrees(cat, c, bs, arms[0].value, ss, env);
      ArmsAgree(cat, c, bs, arms[1..], ss, env);
      assert BindArms(cat, bs, arms).value[1..] == BindArms(cat, bs, arms[1..]).value;
    }
  }

  lemma {:induction false} ExistsAgrees(cat: Catalog, c: Ctx, bs: seq<BindScope>, e: Expr, ss: seq<Scope>, env: Env)
    requires ValidCatalog(cat) && Agree(bs, ss, env) && NoShadow(cat, bs, e)
    requires e.ExistsIn? && BindExpr(cat, bs, e).Ok?
    ensures Eval(c, BindExpr(cat, bs, e).value, env) == SEval(cat, c, e, ss)
    decreases e, 0
  {
    var b := BindTable(cat, e.table, e.alias).value;
    var filter := BindOption(cat, bs + [b], e.filter).value;
    var rows := Rows(c.nested, b.resource);
    var s := BindExpr(cat, bs, e).value.select;
    ExtendAgrees(cat, e.table, e.alias, bs, ss, env, rows);
    var named, envs := SExtend(ss, Qualifier(e.table, e.alias), TableRows(cat, c.nested, e.table)),
        Extend(env, b.resource, rows);
    WhereAgrees(cat, c, bs + [b], e.filter, named, envs);
    assert JoinAll(c, [], c.nested, envs) == envs;
    assert SelectEnvs(c, s, c.nested, env) == Where(c, filter, envs);
    assert EvalOption(c, None, env) == None;
  }

  lemma {:induction false} WhereAgrees(
    cat: Catalog, c: Ctx, bs: seq<BindScope>, filter: Option<Expr>, scopes: seq<seq<Scope>>, envs: seq<Env>)
    requires ValidCatalog(cat) && AllAgree(bs, scopes, envs)
    requires OptionUnshadowed(cat, bs, filter) && BindOption(cat, bs, filter).Ok?
    ensures AllAgree(bs, SWhere(cat, c, filter, scopes), Where(c, BindOption(cat, bs, filter).value, envs))
    decreases filter, 1
  {
    if filter.Some? {
      assert filter decreases to filter.value;
      KeepAgrees(cat, c, bs, filter.value, scopes, envs);
    }
  }

  lemma {:induction false} KeepAgrees(
      cat: Catalog, c: Ctx, bs: seq<BindScope>, e: Expr, scopes: seq<seq<Scope>>, envs: seq<Env>)
    requires ValidCatalog(cat) && AllAgree(bs, scopes, envs) && NoShadow(cat, bs, e)
    requires BindExpr(cat, bs, e).Ok?
    ensures AllAgree(bs, SKeep(cat, c, e, scopes), Keep(c, BindExpr(cat, bs, e).value, envs))
    decreases e, 2, |envs|
  {
    if envs != [] {
      var x := BindExpr(cat, bs, e).value;
      assert Agree(bs, scopes[0], envs[0]);
      ExprAgrees(cat, c, bs, e, scopes[0], envs[0]);
      assert forall i | 0 <= i < |envs[1..]| :: Agree(bs, scopes[1..][i], envs[1..][i]);
      KeepAgrees(cat, c, bs, e, scopes[1..], envs[1..]);
      AllAgreeCons(bs, scopes[0], SKeep(cat, c, e, scopes[1..]), envs[0], Keep(c, x, envs[1..]));
      assert [] + SKeep(cat, c, e, scopes[1..]) == SKeep(cat, c, e, scopes[1..]);
      assert [] + Keep(c, x, envs[1..]) == Keep(c, x, envs[1..]);
    }
  }
}
