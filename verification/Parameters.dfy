/**
  * The single pass over client parameters of crates/policysql-sqlite/src/parameter_contracts.rs:
  * its type, its nullability proof and the columns that constrain it, and the
  * acceptance of supplied values.
  */
module Parameters {
  import opened Core
  import opened Ir

  // ---- The catalog, as far as the pass looks at it.

  datatype Descriptor = Descriptor(nullable: bool, accepts: LogicalValue -> bool)

  type Catalog = map<ColumnId, Descriptor>

  predicate NullableColumn(catalog: Catalog, column: BoundColumn) {
    column.id in catalog && catalog[column.id].nullable
  }

  /** NULL is accepted exactly by nullable columns; other values by format and constraints. */
  predicate SatisfiesContract(value: LogicalValue, descriptor: Descriptor, maxBytes: nat) {
    if value.Bytes? && |value.bytes| > maxBytes then false
    else if value.Null? then descriptor.nullable
    else descriptor.accepts(value)
  }

  // ---- Occurrences, in the order the pass meets them.

  datatype Position = Assignment(column: BoundColumn) | Compared(column: BoundColumn) | Other

  datatype Occurrence = Occurrence(name: string, logicalType: LogicalType, position: Position)

  /** The position of an operand beside another one. */
  function Beside(e: BoundExpr): Position {
    if e.Column? then Compared(e.column) else Other
  }

  function InExpr(e: BoundExpr, position: Position): seq<Occurrence>
    decreases e
  {
    match e
    case ClientParameter(name, logicalType) => [Occurrence(name, logicalType, position)]
    case Binary(op, left, right) =>
      if op.And? || op.Or? then InExpr(left, Other) + InExpr(right, Other)
      else InExpr(left, Beside(right)) + InExpr(right, Beside(left))
    case Unary(_, inner) => InExpr(inner, Other)
    case In(expression, values, _) => InExpr(expression, Other) + InEach(values, Beside(expression))
    case Case(branches, otherwise, _) => InBranches(branches) + InOptional(otherwise)
    case ConditionalOutput(value, visibleIf) => InExpr(value, Other) + InExpr(visibleIf, Other)
    case Exists(select) => InSelect(select)
    case Scalar(_, arguments, _) => InEach(arguments, Other)
    case RowNumber(_, _, orderBy) => InOrders(orderBy)
    case _ => []
  }

  function InOptional(e: Option<BoundExpr>): seq<Occurrence> {
    if e.None? then [] else assert e decreases to e.value; InExpr(e.value, Other)
  }

  function InEach(es: seq<BoundExpr>, position: Position): seq<Occurrence>
    decreases es
  {
    if es == [] then [] else assert es decreases to es[0]; InExpr(es[0], position) + InEach(es[1..], position)
  }

  function InBranches(bs: seq<Branch>): seq<Occurrence> {
    if bs == [] then []
    else
      assert bs decreases to bs[0];
      InExpr(bs[0].condition, Other) + InExpr(bs[0].value, Other) + InBranches(bs[1..])
  }

  function InOrders(os: seq<BoundOrder>): seq<Occurrence> {
    if os == [] then [] else assert os decreases to os[0]; InExpr(os[0].expression, Other) + InOrders(os[1..])
  }

  function InProjections(ps: seq<BoundProjection>): seq<Occurrence> {
    if ps == [] then [] else assert ps decreases to ps[0]; InExpr(ps[0].expression, Other) + InProjections(ps[1..])
  }

  function InJoins(js: seq<BoundJoin>): seq<Occurrence> {
    if js == [] then [] else assert js decreases to js[0]; InExpr(js[0].on, Other) + InJoins(js[1..])
  }

  function InSelect(s: BoundSelect): seq<Occurrence> {
    InProjections(s.projections) + InJoins(s.joins) + InOptional(s.filter) + InOptional(s.having) +
    InOrders(s.orderBy) + InOptional(s.limit) + InOptional(s.offset)
  }

  function InAssignments(assignments: seq<BoundAssignment>): seq<Occurrence> {
    if assignments == [] then []
    else InExpr(assignments[0].value, Assignment(assignments[0].column)) + InAssignments(assignments[1..])
  }

  function InRows(rows: seq<seq<BoundAssignment>>): seq<Occurrence> {
    if rows == [] then [] else InAssignments(rows[0]) + InRows(rows[1..])
  }

  function Occurrences(statement: BoundStatement): seq<Occurrence> {
    match statement
    case SelectStatement(select) => InSelect(select)
    case InsertStatement(insert) => InRows(insert.rows) + InProjections(insert.returning)
    case UpdateStatement(update) =>
      InAssignments(update.assignments) + InOptional(update.filter) + InProjections(update.returning)
    case DeleteStatement(delete) => InOptional(delete.filter) + InProjections(delete.returning)
  }

  // ---- The contract map, one occurrence at a time.

  datatype Contract = Contract(logicalType: LogicalType, nullable: bool, columns: seq<BoundColumn>)

  datatype Analysis = Analysis(parameters: map<string, Contract>, typeConflict: bool)

  const NOTHING := Analysis(map[], false)

  predicate NullablePosition(catalog: Catalog, position: Position) {
    position.Assignment? && NullableColumn(catalog, position.column)
  }

  predicate Knows(columns: seq<BoundColumn>, id: ColumnId) {
    exists c <- columns :: c.id == id
  }

  function AddColumn(columns: seq<BoundColumn>, position: Position): seq<BoundColumn> {
    if position.Other? || Knows(columns, position.column.id) then columns else columns + [position.column]
  }

  function Note(catalog: Catalog, a: Analysis, o: Occurrence): Analysis {
    var nullable := NullablePosition(catalog, o.position);
    var known := if o.name in a.parameters then a.parameters[o.name] else Contract(o.logicalType, nullable, []);
    Analysis(a.parameters[o.name := known.(nullable := known.nullable && nullable,
                                            columns := AddColumn(known.columns, o.position))],
             a.typeConflict || known.logicalType != o.logicalType)
  }

  function NoteAll(catalog: Catalog, a: Analysis, os: seq<Occurrence>): Analysis
    decreases |os|
  {
    if os == [] then a else NoteAll(catalog, Note(catalog, a, os[0]), os[1..])
  }

  function Analyze(catalog: Catalog, statement: BoundStatement): Analysis {
    NoteAll(catalog, NOTHING, Occurrences(statement))
  }

  lemma {:induction false} NoteAppend(catalog: Catalog, a: Analysis, xs: seq<Occurrence>, ys: seq<Occurrence>)
    ensures NoteAll(catalog, a, xs + ys) == NoteAll(catalog, NoteAll(catalog, a, xs), ys)
    decreases |xs|
  {
    if xs == [] {
      assert xs + ys == ys;
    } else {
      assert (xs + ys)[1..] == xs[1..] + ys;
      NoteAppend(catalog, Note(catalog, a, xs[0]), xs[1..], ys);
    }
  }

  // ---- What the map says about any list of occurrences.

  predicate Occurs(os: seq<Occurrence>, name: string) {
    exists o <- os :: o.name == name
  }

  /** Every occurrence of the name is a nullable assignment. */
  predicate OnlyNullable(catalog: Catalog, os: seq<Occurrence>, name: string) {
    forall o <- os :: o.name == name ==> NullablePosition(catalog, o.position)
  }

  /** Some occurrence of the name is constrained by the column. */
  predicate Constrained(os: seq<Occurrence>, name: string, id: ColumnId) {
    exists o <- os :: o.name == name && !o.position.Other? && o.position.column.id == id
  }

  predicate Conflicting(os: seq<Occurrence>) {
    exists o <- os, o' <- os :: o.name == o'.name && o.logicalType != o'.logicalType
  }

  predicate HasType(os: seq<Occurrence>, name: string, logicalType: LogicalType) {
    exists o <- os :: o.name == name && o.logicalType == logicalType
  }

  ghost predicate DescribesOne(catalog: Catalog, contract: Contract, os: seq<Occurrence>, name: string) {
    (contract.nullable <==> OnlyNullable(catalog, os, name)) &&
    (forall id :: Knows(contract.columns, id) <==> Constrained(os, name, id)) &&
    HasType(os, name, contract.logicalType)
  }

  ghost predicate Describes(catalog: Catalog, a: Analysis, os: seq<Occurrence>) {
    (forall name :: name in a.parameters <==> Occurs(os, name)) &&
    (forall name <- a.parameters :: DescribesOne(catalog, a.parameters[name], os, name)) &&
    (!a.typeConflict ==> forall o <- os :: o.name in a.parameters ==>
        a.parameters[o.name].logicalType == o.logicalType) &&
    (a.typeConflict ==> Conflicting(os))
  }

  lemma OccursAppend(os: seq<Occurrence>, o: Occurrence, name: string)
    ensures Occurs(os + [o], name) <==> Occurs(os, name) || o.name == name
  {
    assert forall x :: x in os + [o] <==> x in os || x == o;
  }

  lemma OnlyNullableAppend(catalog: Catalog, os: seq<Occurrence>, o: Occurrence, name: string)
    ensures OnlyNullable(catalog, os + [o], name) <==>
            OnlyNullable(catalog, os, name) && (o.name == name ==> NullablePosition(catalog, o.position))
  {
    assert forall x :: x in os + [o] <==> x in os || x == o;
  }

  lemma ConstrainedAppend(os: seq<Occurrence>, o: Occurrence, name: string, id: ColumnId)
    ensures Constrained(os + [o], name, id) <==>
            Constrained(os, name, id) || (o.name == name && !o.position.Other? && o.position.column.id == id)
  {
    assert forall x :: x in os + [o] <==> x in os || x == o;
  }

  lemma KnowsAdded(columns: seq<BoundColumn>, position: Position, id: ColumnId)
    ensures Knows(AddColumn(columns, position), id) <==>
            Knows(columns, id) || (!position.Other? && position.column.id == id)
  {
    if !position.Other? {
      assert forall c :: c in columns + [position.column] <==> c in columns || c == position.column;
    }
  }

  lemma HasTypeAppend(os: seq<Occurrence>, o: Occurrence, name: string, logicalType: LogicalType)
    ensures HasType(os, name, logicalType) ==> HasType(os + [o], name, logicalType)
    ensures o.name == name && o.logicalType == logicalType ==> HasType(os + [o], name, logicalType)
  {
    assert forall x :: x in os + [o] <==> x in os || x == o;
  }

  lemma DescribesOther(catalog: Catalog, contract: Contract, os: seq<Occurrence>, o: Occurrence, name: string)
    requires o.name != name && DescribesOne(catalog, contract, os, name)
    ensures DescribesOne(catalog, contract, os + [o], name)
  {
    OnlyNullableAppend(catalog, os, o, name);
    HasTypeAppend(os, o, name, contract.logicalType);
    forall id
      ensures Constrained(os + [o], name, id) <==> Constrained(os, name, id)
    {
      ConstrainedAppend(os, o, name, id);
    }
  }

  /** The contract of the occurrence's own name. */
  lemma DescribesNoted(catalog: Catalog, a: Analysis, os: seq<Occurrence>, o: Occurrence)
    requires Describes(catalog, a, os)
    ensures DescribesOne(catalog, Note(catalog, a, o).parameters[o.name], os + [o], o.name)
  {
    var before, after := a.parameters, Note(catalog, a, o).parameters[o.name];
    OnlyNullableAppend(catalog, os, o, o.name);
    HasTypeAppend(os, o, o.name, after.logicalType);
    var columns := if o.name in before then before[o.name].columns else [];
    if o.name in before {
      assert DescribesOne(catalog, before[o.name], os, o.name);
    } else {
      assert !Occurs(os, o.name);
    }
    forall id ensures Knows(after.columns, id) <==> Constrained(os + [o], o.name, id) {
      ConstrainedAppend(os, o, o.name, id);
      KnowsAdded(columns, o.position, id);
    }
  }

  lemma NoteDescribes(catalog: Catalog, a: Analysis, os: seq<Occurrence>, o: Occurrence)
    requires Describes(catalog, a, os)
    ensures Describes(catalog, Note(catalog, a, o), os + [o])
  {
    var b := Note(catalog, a, o);
    forall name ensures name in b.parameters <==> Occurs(os + [o], name) { OccursAppend(os, o, name); }
    forall name | name in b.parameters ensures DescribesOne(catalog, b.parameters[name], os + [o], name) {
      if name == o.name {
        DescribesNoted(catalog, a, os, o);
      } else {
        DescribesOther(catalog, a.parameters[name], os, o, name);
      }
    }
    NoteTypes(catalog, a, os, o);
  }

  lemma NoteTypes(catalog: Catalog, a: Analysis, os: seq<Occurrence>, o: Occurrence)
    requires Describes(catalog, a, os)
    ensures var b := Note(catalog, a, o);
            (!b.typeConflict ==>
               forall x <- os + [o] :: x.name in b.parameters ==> b.parameters[x.name].logicalType == x.logicalType) &&
            (b.typeConflict ==> Conflicting(os + [o]))
  {
    var b := Note(catalog, a, o);
    assert forall x :: x in os + [o] <==> x in os || x == o;
    forall x | x in os && !b.typeConflict ensures b.parameters[x.name].logicalType == x.logicalType {
      assert Occurs(os, x.name);
    }
    if b.typeConflict && !a.typeConflict {
      assert DescribesOne(catalog, a.parameters[o.name], os, o.name);
      var x :| x in os && x.name == o.name && x.logicalType == a.parameters[o.name].logicalType;
    }
  }

  lemma {:induction false} AnalysisDescribes(catalog: Catalog, os: seq<Occurrence>)
    ensures Describes(catalog, NoteAll(catalog, NOTHING, os), os)
    decreases |os|
  {
    if os != [] {
      var front, last := os[..|os| - 1], os[|os| - 1];
      AnalysisDescribes(catalog, front);
      assert os == front + [last];
      NoteAppend(catalog, NOTHING, front, [last]);
      NoteDescribes(catalog, NoteAll(catalog, NOTHING, front), front, last);
      assert NoteAll(catalog, NoteAll(catalog, NOTHING, front), [last]) ==
             Note(catalog, NoteAll(catalog, NOTHING, front), last);
    }
  }

  /** The pass reports a conflict exactly when some name occurs with two types. */
  lemma ConflictExact(catalog: Catalog, os: seq<Occurrence>)
    ensures NoteAll(catalog, NOTHING, os).typeConflict <==> Conflicting(os)
  {
    AnalysisDescribes(catalog, os);
    var a := NoteAll(catalog, NOTHING, os);
    forall o | o in os ensures o.name in a.parameters { assert Occurs(os, o.name); }
  }

  /** Whatever order the occurrences are met in, the pass decides the same. */
  lemma OrderDoesNotMatter(catalog: Catalog, xs: seq<Occurrence>, ys: seq<Occurrence>)
    requires forall o :: o in xs <==> o in ys
    ensures var a, b := NoteAll(catalog, NOTHING, xs), NoteAll(catalog, NOTHING, ys);
            a.parameters.Keys == b.parameters.Keys && a.typeConflict == b.typeConflict &&
            forall name <- a.parameters ::
              a.parameters[name].nullable == b.parameters[name].nullable &&
              (!a.typeConflict ==> a.parameters[name].logicalType == b.parameters[name].logicalType) &&
              forall id :: Knows(a.parameters[name].columns, id) <==> Knows(b.parameters[name].columns, id)
  {
    var a, b := NoteAll(catalog, NOTHING, xs), NoteAll(catalog, NOTHING, ys);
    AnalysisDescribes(catalog, xs);
    AnalysisDescribes(catalog, ys);
    ConflictExact(catalog, xs);
    ConflictExact(catalog, ys);
    forall name
      ensures name in a.parameters <==> name in b.parameters
    {
      assert Occurs(xs, name) <==> Occurs(ys, name);
    }
    forall name | name in a.parameters
      ensures a.parameters[name].nullable == b.parameters[name].nullable
      ensures !a.typeConflict ==> a.parameters[name].logicalType == b.parameters[name].logicalType
      ensures forall id :: Knows(a.parameters[name].columns, id) <==> Knows(b.parameters[name].columns, id)
    {
      assert DescribesOne(catalog, a.parameters[name], xs, name) && DescribesOne(catalog, b.parameters[name], ys, name);
      assert OnlyNullable(catalog, xs, name) <==> OnlyNullable(catalog, ys, name);
      forall id ensures Constrained(xs, name, id) <==> Constrained(ys, name, id) {}
    }
  }
}
