/** The visitor object of the client parameter pass: it updates one analysis as it walks the statement. */
module ParameterVisitor {
  import opened Core
  import opened Ir
  import opened Parameters

  class Visitor {
    const catalog: Catalog
    var analysis: Analysis

    constructor (catalog: Catalog)
      ensures this.catalog == catalog && analysis == NOTHING
    {
      this.catalog := catalog;
      analysis := NOTHING;
    }

    /** What the analysis becomes when these occurrences are met. */
    ghost predicate Met(before: Analysis, os: seq<Occurrence>)
      reads this
    {
      analysis == NoteAll(catalog, before, os)
    }

    method Parameter(name: string, logicalType: LogicalType, position: Position)
      modifies this
      ensures analysis == Note(catalog, old(analysis), Occurrence(name, logicalType, position))
    {
      var nullable := position.Assignment? && position.column.id in catalog && catalog[position.column.id].nullable;
      var contract := if name in analysis.parameters then analysis.parameters[name]
                      else Contract(logicalType, nullable, []);
      var conflict := analysis.typeConflict;
      if contract.logicalType != logicalType { conflict := true; }
      contract := contract.(nullable := contract.nullable && nullable);
      if !position.Other? {
        var known := HasColumn(contract.columns, position.column.id);
        if !known { contract := contract.(columns := contract.columns + [position.column]); }
      }
      analysis := Analysis(analysis.parameters[name := contract], conflict);
    }

    method Expr(e: BoundExpr, position: Position)
      modifies this
      ensures Met(old(analysis), InExpr(e, position))
      decreases e
    {
      match e
      case ClientParameter(name, logicalType) =>
        Parameter(name, logicalType, position);
      case Binary(op, left, right) =>
        var first := if op.And? || op.Or? then Other else Beside(right);
        var second := if op.And? || op.Or? then Other else Beside(left);
        NoteAppend(catalog, analysis, InExpr(left, first), InExpr(right, second));
        Expr(left, first);
        Expr(right, second);
      case Unary(_, inner) => Expr(inner, Other);
      case In(expression, values, _) =>
        NoteAppend(catalog, analysis, InExpr(expression, Other), InEach(values, Beside(expression)));
        Expr(expression, Other);
        Each(values, Beside(expression));
      case Case(branches, otherwise, _) =>
        NoteAppend(catalog, analysis, InBranches(branches), InOptional(otherwise));
        Branches(branches);
        Optional(otherwise);
      case ConditionalOutput(value, visibleIf) =>
        NoteAppend(catalog, analysis, InExpr(value, Other), InExpr(visibleIf, Other));
        Expr(value, Other);
        Expr(visibleIf, Other);
      case Exists(select) => Select(select);
      case Scalar(_, arguments, _) => Each(arguments, Other);
      case RowNumber(_, _, orderBy) => Orders(orderBy);
      case _ =>
    }

    method Optional(e: Option<BoundExpr>)
      modifies this
      ensures Met(old(analysis), InOptional(e))
      decreases e
    {
      if e.Some? {
        assert e decreases to e.value;
        Expr(e.value, Other);
      }
    }

    method Each(es: seq<BoundExpr>, position: Position)
      modifies this
      ensures Met(old(analysis), InEach(es, position))
      decreases es
    {
      ghost var before := analysis;
      assert es[0..] == es;
      for i := 0 to |es|
        invariant NoteAll(catalog, before, InEach(es, position))
                  == NoteAll(catalog, analysis, InEach(es[i..], position))
      {
        assert es decreases to es[i];
        assert es[i..][0] == es[i] && es[i..][1..] == es[i + 1..];
        NoteAppend(catalog, analysis, InExpr(es[i], position), InEach(es[i + 1..], position));
        Expr(es[i], position);
      }
    }

    method Branches(bs: seq<Branch>)
      modifies this
      ensures Met(old(analysis), InBranches(bs))
      decreases bs
    {
      ghost var before := analysis;
      assert bs[0..] == bs;
      for i := 0 to |bs|
        invariant NoteAll(catalog, before, InBranches(bs)) == NoteAll(catalog, analysis, InBranches(bs[i..]))
      {
        assert bs decreases to bs[i];
        assert bs[i..][0] == bs[i] && bs[i..][1..] == bs[i + 1..];
        ghost var condition, value := InExpr(bs[i].condition, Other), InExpr(bs[i].value, Other);
        NoteAppend(catalog, analysis, condition + value, InBranches(bs[i + 1..]));
        NoteAppend(catalog, analysis, condition, value);
        Expr(bs[i].condition, Other);
        Expr(bs[i].value, Other);
      }
    }

    method Orders(os: seq<BoundOrder>)
      modifies this
      ensures Met(old(analysis), InOrders(os))
      decreases os
    {
      ghost var before := analysis;
      assert os[0..] == os;
      for i := 0 to |os|
        invariant NoteAll(catalog, before, InOrders(os)) == NoteAll(catalog, analysis, InOrders(os[i..]))
      {
        assert os decreases to os[i];
        assert os[i..][0] == os[i] && os[i..][1..] == os[i + 1..];
        NoteAppend(catalog, analysis, InExpr(os[i].expression, Other), InOrders(os[i + 1..]));
        Expr(os[i].expression, Other);
      }
    }

    method Projections(ps: seq<BoundProjection>)
      modifies this
      ensures Met(old(analysis), InProjections(ps))
      decreases ps
    {
      ghost var before := analysis;
      assert ps[0..] == ps;
      for i := 0 to |ps|
        invariant NoteAll(catalog, before, InProjections(ps)) == NoteAll(catalog, analysis, InProjections(ps[i..]))
      {
        assert ps decreases to ps[i];
        assert ps[i..][0] == ps[i] && ps[i..][1..] == ps[i + 1..];
        NoteAppend(catalog, analysis, InExpr(ps[i].expression, Other), InProjections(ps[i + 1..]));
        Expr(ps[i].expression, Other);
      }
    }

    method Joins(js: seq<BoundJoin>)
      modifies this
      ensures Met(old(analysis), InJoins(js))
      decreases js
    {
      ghost var before := analysis;
      assert js[0..] == js;
      for i := 0 to |js|
        invariant NoteAll(catalog, before, InJoins(js)) == NoteAll(catalog, analysis, InJoins(js[i..]))
      {
        assert js decreases to js[i];
        assert js[i..][0] == js[i] && js[i..][1..] == js[i + 1..];
        NoteAppend(catalog, analysis, InExpr(js[i].on, Other), InJoins(js[i + 1..]));
        Expr(js[i].on, Other);
      }
    }

    method Select(s: BoundSelect)
      modifies this
      ensures Met(old(analysis), InSelect(s))
      decreases s
    {
      ghost var a, b, c, d := InProjections(s.projections), InJoins(s.joins), InOptional(s.filter),
          InOptional(s.having);
      ghost var e, f, g := InOrders(s.orderBy), InOptional(s.limit), InOptional(s.offset);
      SevenParts(catalog, analysis, a, b, c, d, e, f, g);
      Projections(s.projections);
      Joins(s.joins);
      Optional(s.filter);
      Optional(s.having);
      Orders(s.orderBy);
      Optional(s.limit);
      Optional(s.offset);
    }

    method Assignments(assignments: seq<BoundAssignment>)
      modifies this
      ensures Met(old(analysis), InAssignments(assignments))
    {
      ghost var before := analysis;
      assert assignments[0..] == assignments;
      for i := 0 to |assignments|
        invariant NoteAll(catalog, before, InAssignments(assignments)) ==
                  NoteAll(catalog, analysis, InAssignments(assignments[i..]))
      {
        var a := assignments[i];
        assert assignments[i..][0] == a && assignments[i..][1..] == assignments[i + 1..];
        NoteAppend(catalog, analysis, InExpr(a.value, Assignment(a.column)), InAssignments(assignments[i + 1..]));
        Expr(a.value, Assignment(a.column));
      }
    }

    method Rows(rows: seq<seq<BoundAssignment>>)
      modifies this
      ensures Met(old(analysis), InRows(rows))
    {
      ghost var before := analysis;
      assert rows[0..] == rows;
      for i := 0 to |rows|
        invariant NoteAll(catalog, before, InRows(rows)) == NoteAll(catalog, analysis, InRows(rows[i..]))
      {
        assert rows[i..][0] == rows[i] && rows[i..][1..] == rows[i + 1..];
        NoteAppend(catalog, analysis, InAssignments(rows[i]), InRows(rows[i + 1..]));
        Assignments(rows[i]);
      }
    }

    method Statement(statement: BoundStatement)
      modifies this
      ensures Met(old(analysis), Occurrences(statement))
    {
      match statement
      case SelectStatement(select) => Select(select);
      case InsertStatement(insert) =>
        NoteAppend(catalog, analysis, InRows(insert.rows), InProjections(insert.returning));
        Rows(insert.rows);
        Projections(insert.returning);
      case UpdateStatement(update) =>
        ghost var a, b, c := InAssignments(update.assignments), InOptional(update.filter),
            InProjections(update.returning);
        NoteAppend(catalog, analysis, a + b, c);
        NoteAppend(catalog, analysis, a, b);
        Assignments(update.assignments);
        Optional(update.filter);
        Projections(update.returning);
      case DeleteStatement(delete) =>
        NoteAppend(catalog, analysis, InOptional(delete.filter), InProjections(delete.returning));
        Optional(delete.filter);
        Projections(delete.returning);
    }
  }

  method HasColumn(columns: seq<BoundColumn>, id: ColumnId) returns (found: bool)
    ensures found <==> Knows(columns, id)
  {
    for i := 0 to |columns|
      invariant forall k | 0 <= k < i :: columns[k].id != id
    {
      if columns[i].id == id { return true; }
    }
    return false;
  }

  lemma SevenParts(catalog: Catalog, start: Analysis, a: seq<Occurrence>, b: seq<Occurrence>, c: seq<Occurrence>,
                   d: seq<Occurrence>, e: seq<Occurrence>, f: seq<Occurrence>, g: seq<Occurrence>)
    ensures NoteAll(catalog, start, a + b + c + d + e + f + g) ==
            var x3 := NoteAll(catalog, NoteAll(catalog, NoteAll(catalog, start, a), b), c);
            NoteAll(catalog, NoteAll(catalog, NoteAll(catalog, NoteAll(catalog, x3, d), e), f), g)
  {
    NoteAppend(catalog, start, a, b);
    NoteAppend(catalog, start, a + b, c);
    NoteAppend(catalog, start, a + b + c, d);
    NoteAppend(catalog, start, a + b + c + d, e);
    NoteAppend(catalog, start, a + b + c + d + e, f);
    NoteAppend(catalog, start, a + b + c + d + e + f, g);
  }

  /** The pass over a whole statement. */
  method AnalyzeClientParameters(statement: BoundStatement, catalog: Catalog) returns (a: Analysis)
    ensures a == Analyze(catalog, statement)
  {
    var visitor := new Visitor(catalog);
    visitor.Statement(statement);
    a := visitor.analysis;
  }
}
