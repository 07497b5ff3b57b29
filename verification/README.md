# PolicySQL, modelled and proved in Dafny

PolicySQL takes an untrusted SQL statement, binds it against a catalog, rewrites it so that
only what the caller's role may see can influence the answer, emits a second syntax tree
with every value bound as a parameter, and checks what the database returns. Around that
compiler stand a client for interactive transactions over an unreliable transport, and
canonical text, hash preimages and binary codecs. This project models those parts and
proves what they are for.

`dafny verify dfyconfig.toml` checks the whole project.

## How the model is built

| modules | what they model |
|---|---|
| `Core`, `Ir`, `Text`, `Sql` | values, bound statements, text encodings, the emitted syntax tree |
| `Semantics`, `SqlSemantics`, `Surface` | meaning of bound statements over rows, of emitted trees over named tables, of written queries over named rows: three-valued logic, inner and left joins, correlated EXISTS |
| `Policy`, `Compile`, `Compiler` | the policy rewrite as functions, and the object whose methods perform it step by step |
| `View`, `Instantiation`, `Protection`, `JoinView`, `ViewTheorem`, `LimitTheorem`, `Boundary`, `ZeroLimit` | the view a role is entitled to, that the rewrite computes the client's query on it within the policies' limit, and where it does not |
| `Acceptance` | exactly which statements the compiler accepts |
| `Oracle`, `Like`, `LikeText` | the independent evaluator of predicates, its LIKE table over bytes, and LIKE over characters |
| `Mutation`, `MutationView`, `MutationReports`, `Results`, `PublicResults` | what accepted writes do, what their reports reveal, how physical results become public ones, and exactly which are accepted |
| `Alias`, `Emit`, `EmitMutation`, `EmitInvariants`, `EmitMeaning`, `Doubles`, `EndToEnd`, `EmittedExists`, `AstEmitter` | alias allocation and emission, its invariants and meaning, what written doubles are read as, which EXISTS are refused, and the emission object |
| `Complexity`, `ComplexityLaws`, `ComplexityCounter`, `EmitComplexity` | heights and nesting by plain recursion, what they mean as paths through any tree, the counter that uses a loop over the left spine, and what it finds on emitted trees |
| `Parameters`, `Nullability`, `ParameterContracts`, `ParameterVisitor` | the client parameter pass, its nullability proof, and acceptance of values, read off the statement |
| `Binder`, `BoundFit`, `Flatten`, `FlattenTheorem`, `FlattenBoundary`, `WrittenView`, `Tokens` | name resolution, derived tables and CTEs flattened into base tables, whole written queries on the role's view, what is refused, string tokens |
| `Protocol`, `Transaction`, `TransactionClient`, `ExactlyOnce`, `Provenance`, `Admission` | reading a reply, the transaction object, the client against an adversarial network, the calls that its requests come from, and when it takes further calls |
| `Json`, `JsonText`, `Canonical`, `CanonicalWriter`, `KeyOrder`, `Identity`, `Base64` | canonical JSON, the texts that are hashed, and the two base64 classifiers |

What the compiler never looks inside is a parameter of every theorem: the engine's comparisons,
LIKE, functions, aggregates and window values (`Semantics.Engine`), the spelling of doubles, and
the decimal-to-double conversion. What the database reads where a double was written out is a field
of the engine too, so that the theorems speak of the value it compares with, not of the one that
was meant (`Doubles`). What follows WHERE (GROUP BY, HAVING, ORDER BY, LIMIT) is
an arbitrary function of the observations `ViewTheorem.Observe` collects from each row
environment, each order key with its direction, so equal observations give equal answers. SHA-256 is not modelled: the theorems
are about its inputs.

A name in the code and a name here may differ in shape: operators that every pass treats alike
share one constructor (`Binary(op, ..)`, `Unary(op, ..)`), column usage marks are dropped, and
the predicate of a statement is its `filter`.

## Where the code falls short of a stated promise

Each of these has a lemma with the failing input and a condition under which the code keeps the promise.

- The effective limit is promised to be the stricter of caller and policy limit
  (docs/policy-semantics.md:45). The code takes `MIN`; it keeps the promise exactly when the caller's
  limit is not negative (`ViewTheorem.RewrittenLimit`, and `LimitTheorem.PlanCutsExactly` for whole plans), since a negative LIMIT is no limit.
- Inside EXISTS a policy limit of zero hides a resource that FROM would show: `SELECT .. FROM q WHERE EXISTS (SELECT 1
  FROM r)` finds no row, while the client's own query on the view finds every visible row of `q`
  (`ZeroLimit.ZeroLimitHidesRows`). Every query that binds and is accepted is answered on the role's view throughout,
  nested selects included, exactly when there are no two queryable resources of which one has a limit of zero and both
  have a row the role sees (`ZeroLimit.ZeroLimitWritten`, and `ZeroLimit.ZeroLimitExact` over bound selects). The same
  limit of zero also cuts the whole result, except under a client parameter that makes the limit negative.
- EXISTS is rewritten only in WHERE. Outside WHERE it is emitted unchanged if its resource has an alias, which
  an EXISTS in WHERE over the same resource gives it, and then sees hidden rows (`Boundary.ExistsOutsideWhereLeaks`).
  Over a resource without an alias it is refused (`EmittedExists.ExprCovered`), so noninterference
  has to exclude, outside WHERE, only EXISTS over resources that have one (`EmittedExists.AliasedNoninterference`).
- A double written in a statement is printed as its shortest decimal text, so that `10.0` becomes `10` and the
  database reads an integer (`Doubles.TenPointZero`, `Doubles.IntegralDouble`). Emission keeps a literal's value exactly
  when it is not a double, or its numeral is not a 64-bit integer in digits alone and is read back as that double
  (`Doubles.LiteralExact`); with shortest numerals that is every double but the integers that 64 bits hold
  (`Doubles.DoubleExact`).
- UPDATE and DELETE check the columns they write and return, but not those WHERE reads: the report of an accepted
  DELETE can tell whether an unreadable column is NULL (`MutationView.DeleteReportReadsHidden`). A report depends only on
  a view if WHERE and the assigned values read only its columns, and RETURNING and the check only those and the written
  ones (`MutationView.UpdateReportIsViewed`, `MutationView.DeleteReportIsViewed`; for INSERT `MutationView.InsertReportIsViewed`).
- The reference LIKE matches bytes where the database matches characters. On a value they agree for every pattern
  exactly when it is ASCII (`LikeText.BytesAreTextExactly`), and for a pattern without `_` on every value (`LikeText.BytesAreText`).
- A column of a derived table without an alias takes the catalog's name of the base column, not the
  name it is written with. Two levels of renaming swap columns (`FlattenBoundary.RenamedColumnsAreSwapped`). A derived table
  shows what its query is written to show exactly when every unaliased column is written under its
  catalog name (`FlattenBoundary.NamesExact`).
- A qualified name inside EXISTS means the outermost source with that qualifier
  (`FlattenBoundary.ReusedQualifierReadsOuter`). It is bound to what it means, whatever the rows, exactly when only one
  source around it has a column of that name under that qualifier (`FlattenBoundary.NameExact`).
- An ORDER BY name that is both a column in scope and the alias of an output column is bound to the column, while SQL
  takes the output (`WrittenView.ColumnBeforeAlias`); docs/sql-subset.md:12 promises both. Where the output is a column,
  they order alike, whatever the rows, exactly when it is that very column (`WrittenView.OrderExact`).
- A literal whose generated name is already bound replaces that value (`EmitInvariants.TakenNameIsReplaced`). Earlier
  values survive exactly when every name of the unbroken run of taken literal names, from the next one on, already
  holds the literal's value (`EmitInvariants.LiteralKeepsValues`). A compiled select never gets there: its server values
  hold no literal name (`EndToEnd.PlanStartIsGood`).

## Model

| member | source | states |
|---|---|---|
| `ViewTheorem.ViewEnvironments` | crates/policysql-policy/src/lib.rs:442-605 | after FROM, JOIN and WHERE the protected select on the real rows, seen through the role's view, has exactly the row environments of the client's select on the view, for inner and left joins and nested correlated EXISTS |
| `ViewTheorem.ViewValues` | crates/policysql-policy/src/lib.rs:1358-1391 | at every row environment all that is projected, grouped, filtered by HAVING or ordered equals what the client's select computes on the view, hidden conditional columns read as NULL |
| `ViewTheorem.ViewAnswer` | crates/policysql-policy/src/lib.rs:442-605 | the answer of the compiled select on the database is the answer of the client's select on the filtered and redacted view |
| `ViewTheorem.Noninterference` | crates/policysql-policy/src/lib.rs:442-605 | two databases with the same view give the same answer |
| `ViewTheorem.WholeViewAnswer` | crates/policysql-policy/src/lib.rs:1560-1637 | if no resource with a policy limit of zero has a row the role sees, the compiled select's answer is the client's on the view, with EXISTS reading that same view |
| `ZeroLimit.ZeroLimitExact` | crates/policysql-policy/src/lib.rs:1560-1637 | every accepted select whose EXISTS keep off its root is answered on the view throughout, exactly when no two queryable resources both have a visible row and one of them a limit of zero |
| `ZeroLimit.ZeroLimitWritten` | crates/policysql-parser/src/lib.rs:1224-1230 | the same over every written query that binds, the binder refusing an EXISTS over a resource in scope |
| `ZeroLimit.BoundAvoidsRoot` | crates/policysql-parser/src/lib.rs:1224-1230 | in whatever binds, derived conditions included, no EXISTS at any depth reads the root resource |
| `ZeroLimit.WitnessBinds` | crates/policysql-parser/src/lib.rs:1196-1240 | the failing query, as it is written over any two tables, binds to the failing select |
| `ZeroLimit.ZeroLimitHidesRows` | crates/policysql-policy/src/lib.rs:1560-1637 | under a limit of zero on r, the compiled `SELECT .. FROM q WHERE EXISTS (SELECT 1 FROM r)` has no rows, while the client's on the view has every visible row of q if one of r is visible |
| `ViewTheorem.MinLimitIsLeast` | crates/policysql-policy/src/lib.rs:578-579 | the policy limit is the smallest limit of the resources read, and none exactly when none of them has one |
| `ViewTheorem.RewrittenLimit` | crates/policysql-policy/src/lib.rs:1741-1754 | the rewritten LIMIT cuts the client's window to the policy limit on every result exactly when the client's limit is not negative |
| `ViewTheorem.NegativeLimitIsUnbounded` | crates/policysql-policy/src/lib.rs:1741-1754 | for every negative limit and every policy limit some result exceeds the policy limit |
| `LimitTheorem.PlanLimitIsLeast` | crates/policysql-policy/src/lib.rs:578-579 | for every accepted select the plan's policy limit is the least limit among the role's policies for root, joins and nested resources, and none exactly when none of them has one |
| `LimitTheorem.QueriedExactly` | crates/policysql-policy/src/lib.rs:828-858 | the resources whose policies are asked for are exactly the root, those joined, and those that WHERE mentions at any depth |
| `LimitTheorem.PlanCutsWindow` | crates/policysql-policy/src/lib.rs:1741-1754 | if the client's limit is absent or not negative, the compiled statement's LIMIT and OFFSET leave, of every list of items, the client's window cut to the policy limit |
| `LimitTheorem.PlanCutsExactly` | crates/policysql-policy/src/lib.rs:1741-1754 | they do so on every list exactly when the client's limit is not negative, or no policy sets a limit |
| `Acceptance.SelectAcceptedExactly` | crates/policysql-policy/src/lib.rs:442-605 | a SELECT is accepted exactly when the role has a policy for every resource read, projections are regular or instantiable conditional columns off left joins, COUNT and ROW_NUMBER have their resource's permission, computed outputs and all clauses read regular columns only, and the filters needed can be instantiated |
| `Acceptance.ProjectionExact` | crates/policysql-policy/src/lib.rs:473-551 | one projection is permitted exactly under those conditions |
| `Acceptance.InstantiateExact` | crates/policysql-policy/src/lib.rs:1639-1739 | a predicate can be instantiated exactly when no connective in it is empty and every session operand stands beside a text column, has a usable key and a value in the session |
| `Acceptance.ReadsExact` | crates/policysql-policy/src/lib.rs:1400-1487 | a client expression passes exactly when every column it mentions, nested selects included, is permitted |
| `Boundary.ExistsOutsideWhereLeaks` | crates/policysql-policy/src/lib.rs:555-557 | a select with one EXISTS in WHERE and one in a projection over the same resource compiles and is emitted, and the emitted query answers differently on two databases with the same view |
| `Boundary.WrittenBinds` | crates/policysql-parser/src/lib.rs:1402-1413 | that select is what `SELECT CASE WHEN EXISTS (SELECT 1 FROM two) THEN 1 END AS seen FROM one WHERE NOT EXISTS (SELECT 1 FROM two)` binds to |
| `Protection.ProtectAgrees` | crates/policysql-policy/src/lib.rs:1560-1637 | a rewritten client expression on a real environment has the value of the client's expression on the view of it |
| `Protection.ProtectNestedAgrees` | crates/policysql-policy/src/lib.rs:1560-1637 | a rewritten EXISTS is true on real rows exactly when the client's EXISTS is true on the view's rows |
| `Protection.ProtectIdentity` | crates/policysql-policy/src/lib.rs:1560-1637 | an expression without EXISTS is left exactly as it was and binds nothing |
| `Protection.ProtectKeeps` | crates/policysql-policy/src/lib.rs:1560-1637 | rewriting only adds server values, all of them taken from the session |
| `JoinView.JoinAllView` | crates/policysql-policy/src/lib.rs:559-577 | joining real rows and keeping the admitted environments, then viewing them, is joining the view's rows, whatever the mix of inner and left joins |
| `JoinView.ProtectJoinsMeaning` | crates/policysql-policy/src/lib.rs:559-577 | a left join's row filter goes into its ON, an inner join's into WHERE, and together they admit exactly the visible rows |
| `Instantiation.InstantiateMeaning` | crates/policysql-policy/src/lib.rs:1639-1693 | an instantiated predicate has the policy's own three-valued truth at the row, with server values accumulated before and after |
| `Instantiation.FoldMeaning` | crates/policysql-policy/src/lib.rs:1695-1713 | the left fold over the parts has the truth of their right-nested conjunction or disjunction |
| `Instantiation.InstantiateKeeps` | crates/policysql-policy/src/lib.rs:1715-1739 | instantiation keeps every earlier server value and binds session values only |
| `Compiler.PolicyCompiler.CompileSelect` | crates/policysql-policy/src/lib.rs:442-605 | the method that clones and changes the statement yields the specified plan or the specified error |
| `Compiler.PolicyCompiler.CompileInsert` | crates/policysql-policy/src/lib.rs:655-723 | same for INSERT, presets added to every row in order |
| `Compiler.PolicyCompiler.CompileUpdate` | crates/policysql-policy/src/lib.rs:725-786 | same for UPDATE, filter, presets and check |
| `Compiler.PolicyCompiler.CompileDelete` | crates/policysql-policy/src/lib.rs:788-826 | same for DELETE |
| `Compiler.PolicyCompiler.ProtectNestedSelects` | crates/policysql-policy/src/lib.rs:1560-1637 | the in-place rewrite yields the specified expression and server values |
| `Compiler.PolicyCompiler.ApplyProjectionPermissions` | crates/policysql-policy/src/lib.rs:1358-1391 | the projection loop yields the specified projections and server values |
| `Compiler.PolicyCompiler.InstantiatePredicate` | crates/policysql-policy/src/lib.rs:1639-1693 | the recursion threading the map yields the specified expression and server values |
| `Compiler.PolicyCompiler.FoldLogical` | crates/policysql-policy/src/lib.rs:1695-1713 | the fold loop yields the specified left-nested expression |
| `Oracle.InstantiationAgreesWithOracle` | crates/policysql-testkit/src/lib.rs:365-439 | on every well-typed predicate, row and session the oracle succeeds and its truth is that of the compiled predicate on a database whose LIKE works on characters |
| `Oracle.OracleAgrees` | crates/policysql-testkit/src/lib.rs:365-399 | the oracle's answer is the three-valued meaning, including AND and OR of many parts and IN and NOT IN on NULL |
| `Oracle.FindMember` | crates/policysql-testkit/src/lib.rs:401-439 | the accumulating membership loop yields the specified flag or error |
| `Like.SqliteLike` | crates/policysql-testkit/src/lib.rs:531-555 | the two-dimensional table's corner is the recursive wildcard match, for all byte strings |
| `Like.FrontIsBack` | crates/policysql-testkit/src/lib.rs:531-555 | consuming pattern and value from the front or from the back decides the same |
| `LikeText.BytesAreText` | crates/policysql-testkit/src/lib.rs:531-555 | on an ASCII value, or for a pattern without `_`, matching UTF-8 bytes is matching characters |
| `LikeText.BytesAreTextExactly` | crates/policysql-testkit/src/lib.rs:531-555 | matching bytes is matching characters on a value, for every pattern, exactly when the value is ASCII |
| `Mutation.UpdateSafety` | crates/policysql-policy/src/lib.rs:725-781 | for a compiled UPDATE with an accepted report a row changes only if condition and row filter are True before; then the check is True after, only policy columns and presets changed, presets and client values are in place, no column is assigned twice, and every other row is unchanged |
| `Mutation.InsertSafety` | crates/policysql-policy/src/lib.rs:655-723 | for a compiled INSERT with an accepted report exactly one row per VALUES row is added, each passes the check, writes only policy columns and presets, and holds the preset and client values |
| `Mutation.DeleteSafety` | crates/policysql-policy/src/lib.rs:788-826 | a compiled DELETE removes a row exactly when the client's condition and the row filter are True of it |
| `Mutation.AcceptedChecks` | crates/policysql-turso/src/lib.rs:233-281 | an accepted mutation report has a True check for every affected row and the expected number of rows |
| `MutationReports.InsertAcceptedWhen` | crates/policysql-turso/src/lib.rs:233-281 | what the database reports for a compiled INSERT is accepted exactly when the policy's check is True of every inserted row and the public result fits the plan; the expected number of rows is met |
| `MutationReports.UpdateAcceptedWhen` | crates/policysql-turso/src/lib.rs:233-281 | the same for UPDATE over any table, whatever the number of changed rows |
| `MutationReports.DeleteAcceptedWhen` | crates/policysql-turso/src/lib.rs:233-281 | the report of a compiled DELETE is accepted exactly when its public result fits the plan |
| `Mutation.PolicyWrite` | crates/policysql-policy/src/lib.rs:1013-1029 | caller assignments and presets together write each column once, presets win their columns, nothing else changes |
| `Acceptance.InsertAcceptedExactly` | crates/policysql-policy/src/lib.rs:655-723 | an INSERT is accepted exactly when the role has a policy, RETURNING gives direct columns of the returnable ones only, every row assigns only writable columns without a preset, and presets and check can be instantiated |
| `Acceptance.UpdateAcceptedExactly` | crates/policysql-policy/src/lib.rs:725-786 | the same for UPDATE, whose row filter must be instantiable too |
| `Acceptance.DeleteAcceptedExactly` | crates/policysql-policy/src/lib.rs:788-826 | the same for DELETE: RETURNING and the row filter |
| `Acceptance.ReturningExact` | crates/policysql-policy/src/lib.rs:1072-1085 | RETURNING passes exactly when each of its projections is a direct column of the returnable ones |
| `MutationView.InsertReportIsViewed` | crates/policysql-policy/src/lib.rs:655-723 | the whole report of an INSERT, check column included, is the same over any two rows of defaults that agree on some columns, if what the policy returns and checks lies within those and the written ones |
| `MutationView.UpdateReportIsViewed` | crates/policysql-policy/src/lib.rs:725-786 | the whole report of an UPDATE, check column included, is the same on any two tables that look alike through a view, if WHERE and the assigned values read only its columns, and RETURNING and the check those or written ones |
| `MutationView.EmittedMutationHasNoExists` | crates/policysql-sqlite/src/lib.rs:880-912 | a mutation's WHERE that holds an EXISTS off its own resource is never emitted |
| `MutationView.UpdateCountIsViewed` | crates/policysql-policy/src/lib.rs:725-786 | an UPDATE whose WHERE reads only columns of a view affects as many rows on any two tables that look alike through it |
| `MutationView.DeleteReportIsViewed` | crates/policysql-policy/src/lib.rs:788-826 | a DELETE whose WHERE and RETURNING read only columns of a view reports the same on any two tables that look alike through it |
| `MutationView.DeleteReportReadsHidden` | crates/policysql-policy/src/lib.rs:788-826 | an accepted DELETE reports one row or none depending on a column that its role can neither read nor return |
| `Results.EmittedColumnsArePhysical` | crates/policysql-turso/src/lib.rs:168-180 | the select list the emitter writes is the column list the adapter expects, for every projection list |
| `Results.ResultRoundTrip` | crates/policysql-turso/src/lib.rs:182-231 | stripping the physical row gives the projected values, flagged redacted exactly where a conditional output is not visible, and a redacted cell is NULL |
| `Results.StripIsInverse` | crates/policysql-turso/src/lib.rs:182-231 | a row is stripped to values and flags exactly when it is their layout and the flags fit |
| `PublicResults.PublicResultExact` | crates/policysql-turso/src/lib.rs:104-166 | a physical result becomes this public one exactly when it is its layout under the plan's columns, and the public one has the plan's names, at most its number of rows and bytes, cells of their column's type, range and contract, redactions only where allowed, and the expected number of rows |
| `PublicResults.MutationResultExact` | crates/policysql-turso/src/lib.rs:233-281 | a mutation with a check becomes this public result exactly when the expected rows were affected, each comes back with a TRUE check as its last cell, and what stands before it is such a layout |
| `PublicResults.ValueExact` | crates/policysql-turso/src/lib.rs:283-324 | a value passes exactly when it is NULL in a nullable column, or has one of the possible types and meets range, size and contract |
| `PublicResults.DescribedRedactions` | crates/policysql-turso/src/lib.rs:150-158 | where a described result can be redacted at all, the redaction is allowed |
| `Results.ExecuteResult.StripVisibilityColumns` | crates/policysql-turso/src/lib.rs:182-231 | the in-place loop with a position counter leaves the stripped rows, names and redactions, or refuses |
| `Results.ExecuteResult.ValidatePublicResult` | crates/policysql-turso/src/lib.rs:104-166 | the in-place validation with its byte total leaves the specified public result or the specified error |
| `Results.ExecuteResult.ValidateMutationResult` | crates/policysql-turso/src/lib.rs:233-281 | the in-place check of the check column and row counts leaves the specified result or the specified error |
| `Alias.AliasesInjectiveAndTotal` | crates/policysql-sqlite/src/lib.rs:880-912 | with root and joins distinct, root, joins and every resource of an EXISTS nested in WHERE have an alias, and no two resources share one |
| `Alias.AliasAllocator.AllocateNested` | crates/policysql-sqlite/src/lib.rs:914-986 | the recursion over the shared map and counter allocates the specified aliases |
| `Alias.AliasAllocator.AliasesForSelect` | crates/policysql-sqlite/src/lib.rs:880-912 | the join loop and the nested allocation leave the specified alias map |
| `EmitInvariants.ExprGrows` | crates/policysql-sqlite/src/lib.rs:629-824 | emitting any expression keeps the parameter indices a bijection onto 1..n, keeps literal names fresh, and changes no bound value and no index |
| `EmitInvariants.SelectGrows` | crates/policysql-sqlite/src/lib.rs:399-504 | the same for a whole select |
| `EmitInvariants.FreshLiteralGrows` | crates/policysql-sqlite/src/lib.rs:842-877 | from a clean state a text, bytes or JSON literal gets a new name and replaces nothing |
| `EmitInvariants.LiteralKeepsValues` | crates/policysql-sqlite/src/lib.rs:860-875 | in any state a literal leaves all earlier values in place exactly when every name of the run of taken literal names from the next number on holds that very value |
| `EmitInvariants.TakenNameIsReplaced` | crates/policysql-sqlite/src/lib.rs:860-875 | a server value bound under the first literal name is overwritten by the first literal |
| `EmitInvariants.ParameterGrows` | crates/policysql-sqlite/src/lib.rs:826-840 | a placeholder reuses its index or takes the next one, and the bijection is kept |
| `EmitMeaning.ExprMeaning` | crates/policysql-sqlite/src/lib.rs:629-824 | the emitted expression over named rows, under client and server bindings, has the bound expression's value in every environment, for every literal |
| `Doubles.LiteralExact` | crates/policysql-sqlite/src/lib.rs:842-859 | an emitted literal is read as its own value exactly when it is not a double, or its numeral is not a 64-bit integer in digits alone and is read back as that double |
| `Doubles.DoubleExact` | crates/policysql-sqlite/src/lib.rs:852-858 | with shortest numerals and a correct conversion, a double is kept exactly when it is not an integer from -2^63 to 2^63 - 1 |
| `Doubles.IntegralDouble` | crates/policysql-sqlite/src/lib.rs:856-858 | a double printed as digits that 64 bits hold, its sign included, is read as that integer |
| `Doubles.TenPointZero` | crates/policysql-sqlite/src/lib.rs:856-858 | the literal 10.0, printed as 10, is read as the integer 10 |
| `Doubles.ReadingReads` | crates/policysql-sqlite/src/lib.rs:852-858 | every database and every spelling of doubles has the engine the emission theorems ask for |
| `EmitMeaning.EnvsMeaning` | crates/policysql-sqlite/src/lib.rs:399-504 | the emitted query's rows after FROM, JOIN and WHERE are the bound select's rows under their aliases |
| `EndToEnd.EmittedLayout` | crates/policysql-sqlite/src/lib.rs:183-238 | the emitted select list carries the output names and visibility names in the order the adapter expects |
| `EndToEnd.EmissionPreservesAnswer` | crates/policysql-sqlite/src/lib.rs:399-504 | the emitted query computes, row by row, the bound select's physical values, groups, HAVING and order keys with their directions |
| `EmitMeaning.WindowValues` | crates/policysql-sqlite/src/lib.rs:451-470 | LIMIT and OFFSET of the emitted query have the bound select's values |
| `EndToEnd.EmittedNoninterference` | crates/policysql-sqlite/src/lib.rs:399-504 | rewrite, alias allocation and emission together: two databases with the same view give the same result, visibility flags included, when the emitted tree is evaluated with the bound parameters |
| `EmittedExists.ExprCovered` | crates/policysql-sqlite/src/lib.rs:399-504 | whatever is emitted reads, in every EXISTS at any depth, only resources that have an alias |
| `EmittedExists.EmittedIsWellBound` | crates/policysql-sqlite/src/lib.rs:399-504 | a compiled select whose EXISTS outside WHERE read only resources without an alias is emitted only if it has none |
| `EmittedExists.AliasedNoninterference` | crates/policysql-sqlite/src/lib.rs:399-504 | end-to-end noninterference, excluding outside WHERE only EXISTS over resources that have an alias |
| `EndToEnd.FlagIsViewed` | crates/policysql-sqlite/src/lib.rs:207-225 | a visibility flag is determined by the view |
| `EmitMutation.UpdateEmission` | crates/policysql-sqlite/src/lib.rs:324-369 | on every row the emitted WHERE selects as the bound filter, the emitted SET writes the bound row, and RETURNING reports the new row's projections with the check last, all under the report's names; the statement names the right table and has no FROM, ORDER BY or LIMIT |
| `EmitMutation.InsertEmission` | crates/policysql-sqlite/src/lib.rs:259-322 | every emitted VALUES row, under the first row's column names, is the bound row, and RETURNING ends with the check, all under the report's names; nothing else is inserted |
| `EmitMutation.DeleteEmission` | crates/policysql-sqlite/src/lib.rs:371-389 | the emitted WHERE selects the rows the bound delete removes from the right table, without ORDER BY or LIMIT, and RETURNING reports a removed row's projections under their names |
| `EmitMutation.ReturningMeaning` | crates/policysql-sqlite/src/lib.rs:240-257 | the check column is TRUE exactly when the check is True of the row, FALSE when it is False or Unknown |
| `AstEmitter.AstEmitState.Parameter` | crates/policysql-sqlite/src/lib.rs:826-840 | the field updates give the specified placeholder and state |
| `AstEmitter.AstEmitState.TextLiteral` | crates/policysql-sqlite/src/lib.rs:860-875 | the loop over candidate names ends with the specified placeholder and state |
| `AstEmitter.AstEmitState.Expression` | crates/policysql-sqlite/src/lib.rs:629-824 | the recursive emission gives the specified tree and state, or the specified error |
| `AstEmitter.AstEmitState.Projections` | crates/policysql-sqlite/src/lib.rs:229-238 | the projection loop gives the specified select list |
| `AstEmitter.AstEmitState.SelectNode` | crates/policysql-sqlite/src/lib.rs:399-504 | clauses are emitted in the source's order, which fixes the parameter indices |
| `AstEmitter.AstEmitState.Insert` | crates/policysql-sqlite/src/lib.rs:259-322 | row consistency, missing check and empty INSERT are refused as specified |
| `AstEmitter.AstEmitState.Update` | crates/policysql-sqlite/src/lib.rs:324-369 | empty UPDATE and missing check are refused as specified |
| `AstEmitter.AstEmitState.Delete` | crates/policysql-sqlite/src/lib.rs:371-389 | the specified statement and state |
| `ComplexityCounter.Counter.Expression` | crates/policysql-sqlite/src/complexity.rs:288-343 | the spine loop returns the structural height of every tree and records the measure that plain recursion defines; it fails exactly when that is undefined |
| `ComplexityCounter.Counter.Operand` | crates/policysql-sqlite/src/complexity.rs:354-414 | same for the operand at the end of the spine |
| `ComplexityCounter.Counter.Suffix` | crates/policysql-sqlite/src/complexity.rs:428-447 | same for FILTER and OVER, named and framed windows refused |
| `ComplexityCounter.Counter.Query` | crates/policysql-sqlite/src/complexity.rs:186-239 | same for a query with WITH, compounds, ordering and limit |
| `ComplexityCounter.MeasureStatement` | crates/policysql-sqlite/src/complexity.rs:77-81 | a fresh counter measures the whole statement, or finds it uncountable |
| `ComplexityLaws.HeightIsLongestPath` | crates/policysql-sqlite/src/complexity.rs:288-414 | on every tree the height is the number of nodes on the longest path of operands, where `x IN ()` counts as a leaf |
| `ComplexityLaws.RecursionIsLongestPath` | crates/policysql-sqlite/src/complexity.rs:288-414 | in every expression without a query the recursion is the depth it is entered at and the most operands off the left spines on any path |
| `ComplexityLaws.PatternsExact` | crates/policysql-sqlite/src/complexity.rs:346-352 | its pattern variables are exactly those that stand as a pattern or an escape at some depth |
| `ComplexityLaws.NestingWithinHeight` | crates/policysql-sqlite/src/complexity.rs:288-343 | such an expression nests no deeper than it is high, if no list of an IN is empty |
| `ComplexityLaws.SimplifiedNestsDeeper` | crates/policysql-sqlite/src/complexity.rs:316-323 | with an empty list it can: NOT NOT NULL IN () has height 1 and is two calls deep |
| `EmitComplexity.EmittedIsCountable` | crates/policysql-sqlite/src/complexity.rs:412-412 | no emitted SELECT, INSERT, UPDATE or DELETE is uncountable |
| `EmitComplexity.EmittedNesting` | crates/policysql-sqlite/src/complexity.rs:77-143 | in every emitted SELECT, INSERT, UPDATE and DELETE without EXISTS the recursion measured never exceeds the height measured, and the columns measured are those of its projections, visibility and check columns included |
| `EmitComplexity.EmittedHeight` | crates/policysql-sqlite/src/complexity.rs:288-343 | an emitted expression is at most twice as tall as the bound one, and without EXISTS it nests no deeper than its height, which is also the tallest part measured |
| `Parameters.AnalysisDescribes` | crates/policysql-sqlite/src/parameter_contracts.rs:413-445 | for any list of occurrences: known names, nullability, constraining columns and types are what the whole list says |
| `Parameters.ConflictExact` | crates/policysql-sqlite/src/parameter_contracts.rs:436-438 | a type conflict is reported exactly when some name occurs with two types |
| `Parameters.OrderDoesNotMatter` | crates/policysql-sqlite/src/parameter_contracts.rs:206-445 | the same occurrences in any order give the same names, nullability, columns, conflict and types |
| `Nullability.NullableExact` | crates/policysql-sqlite/src/parameter_contracts.rs:126-156 | a name is known exactly when the statement mentions it, and nullable exactly when every mention is the whole value of an assignment to a nullable column |
| `Nullability.NullAccepted` | crates/policysql-core/src/lib.rs:300-316 | a NULL is accepted, past every constraining column contract, exactly when that proof holds |
| `Nullability.OtherNullsRefused` | crates/policysql-sqlite/src/parameter_contracts.rs:142-146 | any other NULL refuses the request |
| `ParameterContracts.ColumnsExact` | crates/policysql-sqlite/src/parameter_contracts.rs:323-411 | the columns that constrain a name are exactly those beside which it stands in an operation other than AND and OR or in whose IN list it stands, at any depth, and those it is assigned to as a whole value |
| `ParameterContracts.TypesExact` | crates/policysql-sqlite/src/parameter_contracts.rs:413-445 | the type of a name is one it is written with, and the conflict is reported exactly when the statement writes some name with two types |
| `ParameterContracts.RequestAcceptedExactly` | crates/policysql-sqlite/src/parameter_contracts.rs:126-156 | values are accepted exactly when they are given for the names of the statement and no others, no name is written with two types, and each value has its name's type, or is a NULL where every mention allows it, and meets the contract of every constraining column; a mismatch of names is told apart |
| `Nullability.ValidateClientParameters` | crates/policysql-sqlite/src/parameter_contracts.rs:126-156 | the loops over contracts and columns give the specified verdict, in whatever order they run |
| `ParameterVisitor.Visitor.Parameter` | crates/policysql-sqlite/src/parameter_contracts.rs:413-445 | one occurrence changes the contract map as specified |
| `ParameterVisitor.Visitor.Expr` | crates/policysql-sqlite/src/parameter_contracts.rs:338-411 | the recursive walk meets exactly the specified occurrences in order |
| `ParameterVisitor.Visitor.Statement` | crates/policysql-sqlite/src/parameter_contracts.rs:207-256 | same for every kind of statement |
| `ParameterVisitor.AnalyzeClientParameters` | crates/policysql-sqlite/src/parameter_contracts.rs:104-117 | the pass over a statement is the specified analysis |
| `FlattenTheorem.FlatteningPreservesMeaning` | crates/policysql-parser/src/lib.rs:560-620 | the bound select over the base table answers, row by row, what the written query over any nesting of derived tables and CTEs means, for any inner and left joins to other resources |
| `BoundFit.SelectFits` | crates/policysql-parser/src/lib.rs:560-692 | whatever binds has distinct output names outside the compiler's own, HAVING only with GROUP BY, bounds that are parameters or not negative, ROW_NUMBER over columns of one resource, at every depth derived tables without joins, grouping, ordering and limits, and no name of a row identifier anywhere |
| `BoundFit.ScopesFit` | crates/policysql-parser/src/lib.rs:845-895 | whatever binds has sources of distinct written names, aliases included, over distinct resources, and COUNT is charged to the last of them |
| `BoundFit.RowIdRefused` | crates/policysql-parser/src/lib.rs:1556-1564 | an expression that names a row identifier at any depth is refused |
| `FlattenTheorem.FilterThroughJoins` | crates/policysql-parser/src/lib.rs:614-620 | filtering by the inner condition after the joins is filtering before them |
| `FlattenTheorem.RootAgrees` | crates/policysql-parser/src/lib.rs:754-799 | the scope and condition a derived source leaves behind stand for exactly its projected and filtered rows |
| `FlattenTheorem.JoinAllAgrees` | crates/policysql-parser/src/lib.rs:845-895 | bound joins over identities and written joins over names produce the same rows in the same order |
| `Flatten.ExprAgrees` | crates/policysql-parser/src/lib.rs:1069-1162 | a bound expression has the written expression's value, CASE, COUNT and correlated EXISTS included, if every qualified name in it means one column only |
| `Flatten.ResolveAgrees` | crates/policysql-parser/src/lib.rs:1556-1586 | where a written name means one column only the resolved column is the cell it means |
| `FlattenBoundary.NamesExact` | crates/policysql-parser/src/lib.rs:980-987 | a derived source shows the written values under the written names on every row exactly when each unaliased column is written under its catalog name |
| `FlattenBoundary.RenamedColumnsAreSwapped` | crates/policysql-parser/src/lib.rs:980-987 | a query through two derived tables that swap two columns is bound to the other column |
| `FlattenBoundary.NameExact` | crates/policysql-parser/src/lib.rs:1565-1576 | a qualified name is bound to what it means on all rows exactly when only one source around it, enclosing queries included, has a column of that name under its qualifier |
| `FlattenBoundary.ReusedQualifierReadsOuter` | crates/policysql-parser/src/lib.rs:1196-1240 | a qualified name under a reused qualifier is bound to the outer row while the text means the inner one |
| `WrittenView.BoundAnswersAsWritten` | crates/policysql-parser/src/lib.rs:560-692 | what the bound select shows at every row, groups, HAVING, ROW_NUMBER and order keys included, is what the written query means |
| `WrittenView.WrittenOnView` | crates/policysql-policy/src/lib.rs:442-605 | a written query that binds and is accepted answers on the real rows what it means, as written, on the role's view, if no pair of resources as in `ZeroLimit.ZeroLimitExact` stands in the way |
| `WrittenView.BoundLimits` | crates/policysql-parser/src/lib.rs:1540-1554 | LIMIT and OFFSET of the bound select are the written ones |
| `WrittenView.OrderExact` | crates/policysql-parser/src/lib.rs:639-664 | an ORDER BY name that is a column in scope and the alias of an output column orders by what it means on all rows exactly when the output is that column |
| `WrittenView.ColumnBeforeAlias` | crates/policysql-parser/src/lib.rs:639-664 | `SELECT a AS b FROM t ORDER BY b` is bound to order by the table's column b |
| `Binder.BindState.Joins` | crates/policysql-parser/src/lib.rs:845-895 | the loop that extends the scopes in place binds the specified joins, or refuses self joins and reused qualifiers |
| `Tokens.TokenRoundTrip` | crates/policysql-parser/src/lib.rs:1662-1676 | a token decodes to a value exactly when it is that value quoted and the value has no NUL |
| `Tokens.DecodeStringLiteral` | crates/policysql-parser/src/lib.rs:1662-1676 | the character loop yields the specified value or refusal |
| `Tokens.DoubledDecodes` | crates/policysql-sqlite/src/lib.rs:1249-1251 | every NUL-free value with its quotes doubled decodes back |
| `ExactlyOnce.EffectsAreConfirmed` | packages/client/transaction.js:80-127 | in every reachable state the server ran the confirmed commands in order and at most the one pending command besides, which is then in flight or in doubt; an ended, failed or idle active transaction hides nothing |
| `ExactlyOnce.OneRequestPerNumber` | packages/client/transaction.js:80-107 | calls with the same sequence number are the same request, and a number is sent only when all before it are confirmed |
| `ExactlyOnce.EndingIsLast` | packages/client/transaction.js:55-78 | once a commit or rollback was sent every later call is that same request |
| `ExactlyOnce.NothingSentWhenOver` | packages/client/transaction.js:35-38 | after committed, rolled_back, failed or disposed nothing more is sent, on any continuation |
| `ExactlyOnce.DoubtCanBeSettled` | packages/client/transaction.js:129-138 | from every reachable state in doubt a retry that gets through confirms the command, run exactly once, whatever the server had done |
| `ExactlyOnce.StepInv` | packages/client/transaction.js:35-153 | every step of client, server and network keeps the invariant behind these |
| `ExactlyOnce.RefusalInv` | packages/client/transaction.js:116-124 | a documented refusal of a first attempt means that the server did not run the command |
| `ExactlyOnce.DoubtInv` | packages/client/transaction.js:109-118 | a later refusal or cancellation does not settle an earlier doubt |
| `Provenance.RequestsFollowCalls` | packages/client/transaction.js:40-107 | in every reachable state the requests of distinct numbers, in order, come from calls admitted in that order: each statement carries its own call's statement, each ending its kind, disposal a rollback, and all the object's id and role |
| `Provenance.DisposalRollsBack` | packages/client/transaction.js:140-152 | from every reachable idle state disposal, if it gets through, rolls the transaction back |
| `Provenance.TransactionCompletes` | packages/client/transaction.js:40-107 | any list of statements followed by a commit or rollback has a run in which the server runs them all, in order and with those statements, and which ends in that state |
| `Provenance.CallCompletes` | packages/client/transaction.js:80-107 | from every idle active state that keeps the invariant, a statement, ending or disposal that gets through is run once, as called, and leaves its state behind |
| `Admission.AtRestIsOpen` | packages/client/transaction.js:71-76 | in every reachable active state with nothing queued, in flight, in doubt or being disposed, statements, commit and rollback are admitted: an ending that was not sent leaves the transaction open |
| `Protocol.ConfirmedExactly` | packages/client/transaction.js:90-105 | a command is confirmed by status 200 with its honest answer, its own transaction, resulting state and sequence numbers included, and by nothing else |
| `Protocol.AnswerOfAnother` | packages/client/transaction.js:90-105 | the honest answer of one request confirms another exactly if both are the same command of the same transaction, and for statements the same one |
| `Protocol.RejectedExactly` | packages/client/protocol.js:83-144 | a command is refused by a well-formed failure whose code and status can refuse it, and by nothing else |
| `Protocol.RejectionTable` | packages/client/protocol.js:101-144 | exactly which code and status pairs refuse the start of a transaction, an atomic batch, a statement, a commit and a rollback |
| `TransactionClient.PolicySqlTransaction.Execute` | packages/client/transaction.js:40-50 | admission of a statement: refused at once or queued |
| `TransactionClient.PolicySqlTransaction.Terminal` | packages/client/transaction.js:55-61 | admission of commit or rollback, and the closing mark |
| `TransactionClient.PolicySqlTransaction.RetryPending` | packages/client/transaction.js:129-133 | admission of a retry |
| `TransactionClient.PolicySqlTransaction.Dispose` | packages/client/transaction.js:140-152 | disposal is queued once |
| `TransactionClient.PolicySqlTransaction.Start` | packages/client/transaction.js:45-76 | a work item runs up to its transport call or its end, as the state machine says |
| `TransactionClient.PolicySqlTransaction.Deliver` | packages/client/transaction.js:90-127 | a reply moves the object as the state machine says |
| `Json.NormExact` | crates/policysql-transaction/src/canonical.rs:303-317 | values have one normal form exactly when they are equal up to member order and the spelling of safe integers |
| `Json.DuplicateScan` | crates/policysql-transaction/src/canonical.rs:257-264 | after the sort the neighbour scan accepts exactly the duplicate-free objects |
| `Canonical.CanonicalExact` | crates/policysql-transaction/src/canonical.rs:131-135 | two values have the same canonical text exactly when they are equivalent |
| `Canonical.PlainReads` | crates/policysql-transaction/src/canonical.rs:268-350 | the strict parser reads back what the writer prints and stops where it ends |
| `Canonical.CanonicalStable` | crates/policysql-transaction/src/canonical.rs:125-127 | canonical text of any accepted text is its own canonical text |
| `Canonical.CanonicalTexts` | crates/policysql-transaction/src/canonical.rs:125-127 | two accepted texts have the same canonical text exactly when their values are equivalent |
| `Canonical.ReadValueGood` | crates/policysql-transaction/src/canonical.rs:229-265 | what the parser accepts has no duplicate key, numbers in range and at most the allowed nesting |
| `Canonical.EscapeIsShortest` | crates/policysql-transaction/src/canonical.rs:320-350 | no shorter text stands for a character inside a string than the one written, and no other as short but for upper-case digits |
| `CanonicalWriter.Writer.WriteString` | crates/policysql-transaction/src/canonical.rs:320-350 | the index loop that copies runs appends the quoted text |
| `CanonicalWriter.Writer.WriteValue` | crates/policysql-transaction/src/canonical.rs:268-301 | the recursive writer, sorting each object as it goes, appends the canonical text |
| `CanonicalWriter.WriteCanonical` | crates/policysql-transaction/src/canonical.rs:131-135 | a fresh buffer holds the canonical text |
| `KeyOrder.KeysCompareAsBytes` | crates/policysql-transaction/src/canonical.rs:286-288 | comparing keys by UTF-8 bytes is comparing them by code points |
| `Identity.KeyPreimageExact` | crates/policysql-transaction/src/identity.rs:248-248 | equal key texts exactly for the same identity and key |
| `Identity.FingerprintExact` | crates/policysql-transaction/src/identity.rs:249-260 | equal fingerprint texts exactly for the same identity, equivalent bodies and the same scope, database and generation; the snapshot does not matter |
| `Identity.FamiliesDisjoint` | crates/policysql-transaction/src/identity.rs:248-260 | no key text is a fingerprint text |
| `Identity.WithoutSnapshotExact` | crates/policysql-transaction/src/identity.rs:267-278 | bindings without snapshot are equivalent exactly when scope, database and generation agree |
| `Identity.AuthExact` | crates/policysql-transaction/src/identity.rs:166-177 | the auth text is shared exactly by the same caller and the same whole binding, snapshot included |
| `Identity.ReplayExact` | crates/policysql-transaction/src/identity.rs:182-194 | the replay text is shared exactly by the same caller and the same binding up to its snapshot |
| `Identity.RequestIsGood` | crates/policysql-transaction/src/identity.rs:213-264 | whatever the request operation accepts is covered by these theorems |
| `Base64.Classified` | crates/policysql-core/src/bytes.rs:28-54 | decoding is Ok exactly for the unique encoding of a value within the limit, TooLarge exactly for that of a longer one, InvalidEncoding exactly for anything else |
| `Base64.DecodesExactly` | crates/policysql-core/src/bytes.rs:51-59 | the strict decoder gives a value exactly on its one encoding |
| `Base64.DecodeNeverFails` | crates/policysql-core/src/bytes.rs:41-54 | after the early checks the final decode cannot fail |
| `Base64.DecodedBlobLength` | deploy/cloudflare/src/binary.ts:36-55 | the index loop gives the length, or the same verdict as the other classifier on the same units |
| `Base64.SameVerdict` | deploy/cloudflare/src/binary.ts:36-61 | over UTF-8 bytes and over UTF-16 units every string gets the same verdict |
| `Base64.BlobRoundTrip` | deploy/cloudflare/src/binary.ts:27-32 | every value is decoded back from its encoding, or found too large |
| `Base64.EncodeBlob` | deploy/cloudflare/src/binary.ts:27-32 | a bad limit is refused first and a long value next; otherwise the copied bytes become a text that decodes to the value within the limit |

## Left out

- SQL tokenizing, parsing and printing, and the comparison with a second parse: library code. The model ends at the emitted tree.
- Type inference and the separate grammar of conditions in the binder, binding limits and the statement's trace: they only refuse more. A parameter carries the type that was inferred for it.
- Activation of policies and catalogs from YAML and JSON, format and pattern checks of values: library calls; a value rule carries its contract as a predicate.
- Explain output, applied policy identifiers, column metadata and declared type bytes: bookkeeping without influence on the answer.
- Constant selects, selects over JSON collections and the binding of upsert: flat shapes that add only easy members.
- Evaluation of GROUP BY, window functions and ORDER BY: an arbitrary function of what each row environment shows.
- Spelling of doubles: a numeral in a statement is any text (`Emit.Emitter`), a number in canonical JSON any text the parser reads back (`JsonText.Floats`).
- ViewTheorem.ViewAnswer: asks that EXISTS stands only in WHERE and that root and joins are distinct resources, as the binder ensures for accepted joins.
- EndToEnd.EmittedNoninterference: asks besides that conditional columns hold a cell in every row, and that projected columns belong to the statement's own sources, as the binder resolves them.
- FlattenTheorem.FlatteningPreservesMeaning: asks for kept names and for qualified names that mean one column only; the exact conditions, column by column and name by name, are `FlattenBoundary.NamesExact` and `FlattenBoundary.NameExact`.
- ExactlyOnce.EffectsAreConfirmed: assumes that a transport call is processed at most once and that the server runs only the next sequence number, answers an identical earlier command again without running it, and runs nothing it refuses with a documented code. The server's own step machine is not part of this model.
- Opening a transaction, one-shot execution with an idempotency key, and promise scheduling: admitted work runs one item at a time in order.
- Oracle.InstantiationAgreesWithOracle: assumes an engine that compares values of one kind by their order, whose LIKE works on characters, and to which a written double compares as that double; a LIKE must have an ASCII value or a pattern without `_`, as `LikeText.BytesAreTextExactly` shows to be needed.
- WrittenView.WrittenOnView: asks besides that EXISTS stands only in WHERE, and of an ORDER BY name what `WrittenView.OrderKept` says; an output that is named by default only, as `count`, is no order key.
- CanonicalWriter.Writer.WriteString: works on characters where the source walks UTF-8 bytes; every byte that is escaped is a whole character.
- Server-side value limits, cost estimates and the HTTP, Kysely and Workers plumbing: sums, range tables and I/O.
