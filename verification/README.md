# Verification of the framework's hard core

A Dafny 4.11 model of the parts of the framework whose correctness rests on an argument rather than on one
function: relation loading and its two compilers, nested transactions, the migration runner, the stampede-safe cache
fill, dotted data and container resolution, and the address, identifier, collection and worker-pool code of the core
package. `dafny verify dfyconfig.toml` checks all of it.

How the parts are modelled:

- **Nested transactions** (`Transaction`, `TransactionReference`, `TransactionLaws`). Programs are trees of writes,
  reads, callback registrations, nested calls, throws and catches over any number of connections. The session runs them
  against stacks of named, never popped savepoints and in-place callback registries; the reference run copies data on
  entry and restores it on a throw. The session is proved to end in the reference's state, and the laws are about the
  reference.
- **Relations** (`Rows`, `Relations`, `Batching`, `EagerLoading`, `EagerTree`, `Subqueries`, `Agreement`,
  `MorphAgreement`, `RelationMeaning`). Tables are sequences of rows; queries are their meaning on rows, with SQL's
  three truth values and the same left-to-right `and`/`or` the query builder compiles. Instances are objects whose
  relations are set in place. Both compilers are proved against the relation's join, and join and subquery against what
  the declaration's own fields say.
- **Migrations** (`Migrations`, `MigrationRunner`, `MigrationProtocol`). One run is imperative and proved against a
  function of schema and rows; many runs are a step system with a lock row, failures and crashes.
- **Cache fill** (`SingleFlight`). Each caller is a state machine that advances at every await; a lock may lapse
  whenever it is held, and its release is one store operation or two.
- **Core** (`Text`, `DataPaths`, `DataObjects`, `Dotted`, `Container`, `Addresses`, `AddressBlocks`, `Identifiers`,
  `Pool`, `Collections`) and the **eager-load tree** (`EagerLoadTree`). Objects updated in place are classes; the laws
  are about the values they show.

Conditions shared by many statements, each about the key columns of one relation or the rows in its reach:

- `FaithfulKeys`: map lookups by spelled keys tell the keys apart as SQL equality does (true of integers, and of text
  other than the word "null").
- `NoStrays`: no NULL key is looked up in a batch that an `or` let rows with a NULL key into. It is exact but for one
  case, stated with it (`JoinedOnlyWithoutStrays`), and holds for `and` alone or for keys that are there.
- `Agreeable`: the loader, which reads the caller's constraint after its own `in`, and the subquery, which reads it
  before its correlation, give one verdict on the rows in reach. It is exact (`SubqueryFinds`), and `Conjoins` is a
  condition on scopes and constraint alone that gives it.
- `Visible`: nothing inside a subquery goes by the parent table's name; `Hidden` is the case in which a link table does.
- `LinksSuffice`: a through model's scopes leave the parent a connecting row that leads to something, if any does. It is
  exact (`WhereHasIsJoined`), and true of all other relations.
- `NamesAgree`: a discriminant stands for the same listed class by alias and by declaration; `HasMorphAgreesIff` is
  exact without it.

Where the code and its documentation part, the model follows the code:

- A callback of committed work is dropped when a later sibling rolls back at the same level
  (`SiblingRollbackDropsCallback`); which callbacks run is characterised exactly by `RegistryHoldsSurvivors`.
- "Innermost" means deepest, not enclosing; the two coincide exactly under `InnermostIsEnclosing`.
- `whereHas` and eager loading differ when a through model's scopes reject every connecting row that leads somewhere,
  exactly as `ThroughScopesDisagreeIff` says (`ScopedLinkDisagrees` is the shortest case), when a link table is the
  parent's own, exactly as `HiddenAgreesIff` and `HiddenWhereHasIff` say, and where an `or` makes their verdicts differ,
  exactly as `SubqueryFinds` says (`OrConstraintDisagrees` is the shortest case).
- `whereHasMorph` goes by the aliases of the listed classes and `morphTo` by the declaration's own names, which may
  differ (`LocalNameDisagrees`); when that shows is stated by `HasMorphAgreesIff`.
- A parent that looks up a NULL key may be given rows that depend on the rest of its page, exactly as
  `BatchingIsInvisible` and, for relations without links, `NullParentSeesStrays` say.
- `whereHasMorph` over an empty list keeps every row, and `whereDoesntHaveMorph` is not quite its complement.
- `dataFill` replaces a scalar that stands in the way of its path (`FillKeepsLeaves`, `FillCanLose`).
- A path that names the `length` of an array resizes it, so setting and filling can lose elements (`LengthEmptiesList`;
  exactly when is stated by `SetKeepsDiverging`, `SecondSetWins` and `FillKeepsLeaves`) or throw (`ThrowsIff`).
- A singleton's factory runs again when it completed and an extender then throws, or needs what cannot be made
  (`MakeSpoiled`, `SingletonRunsTwice`); it runs at most once otherwise, exactly as `MakeOften` and `MakeAround` say.
  Rebinding inside an open scope leaves the scope's value in place (`RebindInScope`).
- The composite keys of `morphTo` collide where a discriminant continues another past a NUL (`NulMisfiles`,
  `DisplacedContinues`); exactly when a row is then given another's parent is stated by `FindsUnlessDisplaced`.
- The cache fill's bound needs one term more than timeouts and lapses: a completed callback whose `put` fails
  (`LostWriteCompletesTwice`); with it the bound is met (`BoundIsMet`).
- `dot` throws at the hole of a sparse array and leaves out an empty container under the empty key (`Dot`).

## Model

| member | source | states |
|---|---|---|
| TransactionContext.DeferredCallbacks.DiscardFrom | framework/database/src/transaction-context.ts:62-71 | rolling back to a savepoint drops every entry at that level or deeper from both queues and keeps the rest in order |
| TransactionContext.FindScopeByTransaction | framework/database/src/transaction-context.ts:166-192 | finds a scope whose transactional instance is the one given, if there is any |
| TransactionContext.GetInnermostTransactionScope | framework/database/src/transaction-context.ts:195-225 | answers the connection whose frame count is deepest, the one opened first on a tie |
| Savepoints.SavepointNameInjective | framework/database/src/transaction.ts:15-25 | different levels have different savepoint names |
| Savepoints.DeclareStacked | framework/database/src/transaction.ts:39-48 | declaring the next savepoint keeps the frame's stack, whether namesakes are shadowed or (MySQL) dropped |
| Savepoints.LatestIsOwn | framework/database/src/transaction.ts:39-78 | after a body, whatever savepoints of the same name were left behind, the latest of that name is the body's own and holds the data it was entered with |
| Transaction.Session.WithSavepoint | framework/database/src/transaction.ts:39-78 | running a body in a savepoint ends exactly as copying the data on entry and restoring it on a throw: a call that throws leaves what is seen on its connection as it was, one that returns leaves what its body's last statement saw; callbacks of the level are dropped on a throw |
| Transaction.Session.Drain | framework/database/src/transaction.ts:80-105 | every callback runs once, in order; the ones that throw, and no others, are reported in order and do not stop the rest |
| Transaction.Session.Outermost | framework/database/src/transaction.ts:232-258 | a body that throws leaves what is seen on the connection as it was before the call, one that returns leaves what its last statement saw; then exactly the surviving entries of the matching queue are drained |
| Transaction.Session.Transaction | framework/database/src/transaction.ts:204-258 | for a root or a transactional handle alike, a call on a connection with an open scope nests at the level equal to its open frames, and otherwise opens a transaction; the result is the reference run, and, outermost or nested, a call that throws leaves what is seen on its connection as it was |
| Transaction.Session.Defer | framework/database/src/transaction-context.ts:256-318 | registers at the target's own level, or, with no transaction, runs an after-commit callback at once and drops an after-rollback one |
| Transaction.Session.Run | framework/database/src/transaction.ts:39-258 | savepoint refinement: any program of writes, reads, callbacks, nested calls, throws and catches on any number of connections ends in the data, registries and callback log of copy-on-entry and restore-on-throw |
| TransactionReference.SurvivorsRollback | framework/database/src/transaction-context.ts:68-71 | filtering by level leaves exactly the entries that survive one more rollback |
| TransactionLaws.RegistryHoldsSurvivors | framework/database/src/transaction-context.ts:51-88 | after any history a queue holds exactly the entries with no later rollback at their level or an outer one |
| TransactionLaws.SurvivorsAreIndices | framework/database/src/transaction-context.ts:51-88 | survivors are an increasing list of registrations: each once, in order, none missing |
| TransactionLaws.TransactionKeepsPending | framework/database/src/transaction.ts:63-78 | a transaction call leaves pending only after-commit callbacks whose enclosing bodies all returned, and can only remove those registered outside it |
| TransactionLaws.CommitRunsOnlyKeptCallbacks | framework/database/src/transaction.ts:232-257 | no after-commit callback that runs belongs to rolled-back work |
| TransactionLaws.FailureRestores | framework/database/src/transaction.ts:39-258 | outermost or nested, a call that fails leaves its connection as it was; one that returns leaves all data as its body did, and so does one that fails on every other connection |
| TransactionLaws.CaughtFailureIsUnread | framework/database/src/transaction.ts:39-258 | so code that catches the failure reads what it would have read before |
| TransactionLaws.WriteIsRead | framework/database/src/transaction.ts:39-258 | what is written is read, and nothing else |
| TransactionLaws.CommittedWriteIsRead | framework/database/src/transaction.ts:39-258 | and still is once the transaction that wrote it has returned, outermost or nested |
| TransactionLaws.OutermostDrains | framework/database/src/transaction.ts:232-258 | an outermost call runs, after all that its body ran, the entries of one queue that no later rollback dropped, each once and in order: the after-commit ones when it returns, the after-rollback ones when it fails |
| TransactionLaws.DeferOutside | framework/database/src/transaction-context.ts:256-318 | with no transaction on the named connection, or with none at all when none is named, an after-commit callback runs on the spot, its exception being the caller's, and an after-rollback one is dropped |
| TransactionLaws.DeferInside | framework/database/src/transaction-context.ts:256-318 | with one, nothing runs yet: the callback waits behind the others of its queue, on the named connection or, when none is named, the innermost one, at the level of that connection, and on no other |
| TransactionLaws.RunKeepsOwn | framework/database/src/transaction-context.ts:62-71 | no code drops a callback registered at its own level or an outer one, whatever fails inside it, on any connection: they still wait, in the same places |
| TransactionLaws.OwnCallbackRuns | framework/database/src/transaction.ts:232-258 | so a callback the outermost body itself registers is never lost, whatever the body goes on to do: an after-commit one runs if the call returns, an after-rollback one if it fails |
| TransactionLaws.SiblingRollbackDropsCallback | framework/database/src/transaction-context.ts:62-71 | the converse fails: a later sibling that rolls back at the same level also drops the callback of committed work |
| TransactionLaws.InnermostIsEnclosing | framework/database/src/transaction-context.ts:195-225 | a callback that names no connection defers against the one it is written in exactly when its level exceeds all opened before and reaches all opened after |
| TransactionLaws.SecondConnectionIsNeverInnermost | framework/database/src/transaction-context.ts:195-225 | so a transaction just opened on a second connection is never chosen |
| Rows.IntegersAreFaithful | framework/database/src/eager-loading.ts:299-310 | integer keys and NULL are told apart by their spelling |
| Rows.StringsAreFaithful | framework/database/src/eager-loading.ts:299-310 | so are text keys other than the word "null" |
| Rows.FiledIsMatching | framework/database/src/eager-loading.ts:336-357 | fetching a set of keys and filing by spelled key gives each key exactly its own rows, in table order |
| Rows.FiledUnderNull | framework/database/src/eager-loading.ts:336-357 | what is filed under the spelling of NULL are the rows with a NULL key that an `or` let into the query, in table order |
| Rows.NothingStrays | framework/database/src/eager-loading.ts:336-357 | without `or` in the constraint a batched query lets in no row with a NULL key |
| Batching.BatchedIsJoined | framework/database/src/eager-loading.ts:278-575 | for every relation kind, constraint, tables and page, what the batch attaches to a parent is the relation's join for that parent alone, unless it looks up NULL where rows with a NULL key got in |
| Batching.JoinedOnlyWithoutStrays | framework/database/src/eager-loading.ts:278-575 | if and only if, for every relation kind: where it does, the batch attaches something the join does not have, but for a has-one-through whose row is found before |
| Batching.BatchingIsInvisible | framework/database/src/eager-loading.ts:278-575 | loading a parent within a page is loading it alone if and only if it looks up no NULL key or what the page lets in under NULL makes no difference to what it lets in alone |
| Batching.NullParentSeesStrays | framework/database/src/eager-loading.ts:336-357 | a parent with a NULL key sees its page if and only if the page has a key and some related row with a NULL key passes the scopes, the `in` and the constraint read in that order |
| Batching.MorphToBatchedIsJoined | framework/database/src/eager-loading.ts:505-575 | the same for `morphTo`, across the tables of several models |
| Batching.UniqueMatches | framework/database/src/eager-loading.ts:290-334 | with a unique related key at most one row matches |
| Batching.ToOneIsWholeJoin | framework/database/src/eager-loading.ts:290-334 | then keeping the last duplicate, or the first, loses nothing |
| Batching.OrConstraintReachesNullParent | framework/database/src/eager-loading.ts:336-357 | for instance, a parent without a code is given a child without an owner, but only next to another parent |
| EagerLoading.UniqueDefined | framework/database/src/eager-loading.ts:737-751 | the non-null values, each once, in order of first appearance |
| EagerLoading.KeyBy | framework/database/src/eager-loading.ts:299-310 | a key holds the last instance filed under it |
| EagerLoading.GroupBy | framework/database/src/eager-loading.ts:336-357 | a key holds all instances filed under it, in order |
| EagerLoading.FindBelongsTo | framework/database/src/eager-loading.ts:290-310 | one query; each row finds what the batch specification gives it |
| EagerLoading.FindHas | framework/database/src/eager-loading.ts:312-385 | the same for has-one, has-many and their morph forms |
| EagerLoading.FindThrough | framework/database/src/eager-loading.ts:387-452 | the same in two queries for through relations, the through model's scopes applied |
| EagerLoading.LoadPivot | framework/database/src/eager-loading.ts:626-735 | two queries set every parent's attachments in pivot order, with that attachment's own pivot columns, and touch no other relation |
| EagerLoading.CompositeInjective | framework/database/src/eager-loading.ts:505-575 | the key of discriminant, NUL and id stands for one pair only, as soon as one of two discriminants, and the other or its id, holds no NUL |
| EagerLoading.FetchTypes | framework/database/src/eager-loading.ts:505-560 | exactly one query for each distinct discriminant that resolves to a model, on any page; under every composite key stands the last row of the last discriminant that has one under it, and nothing else |
| EagerLoading.LoadRelation | framework/database/src/eager-loading.ts:278-503 | `loadOne` sets the relation of every instance of the page to the batch's answer, in at most one or two queries |
| EagerLoading.LoadMorphTo | framework/database/src/eager-loading.ts:505-575 | the same for `morphTo`, on any page and tables: each row is given what stands under its composite key, and rows that share an instance share the key; without a NUL in discriminants and owner keys that is the batch's answer, and they share the discriminant |
| EagerLoading.FindsUnlessDisplaced | framework/database/src/eager-loading.ts:505-575 | with NULs, too: a row is given the batch's answer as an instance of the class its discriminant names, if and only if no other discriminant holds its key in the end, or one of the same class holds it with an equal row |
| EagerLoading.DisplacedContinues | framework/database/src/eager-loading.ts:505-575 | a discriminant can hold another's key only if one of the two continues the other past a NUL |
| EagerLoading.NulMisfiles | framework/database/src/eager-loading.ts:536-556 | for instance, for any texts a, b and c: a photo of key b NUL c under a, and a clip of key c under a NUL b; on a page that asks for both the photo's row is given the clip |
| EagerLoading.CollectRelated | framework/database/src/eager-loading.ts:236-276 | hands down every attached instance, each once, in order of first appearance |
| EagerTree.LoadTree | framework/database/src/eager-loading.ts:89-145 | on any database and page: disturbs no relation not asked for; if no `morphTo` has a NUL in discriminants or owner keys, costs no more queries than a bound that mentions no rows, and shows at every depth the join of each relation for each row whose keys the loader can tell apart |
| EagerTree.ColumnsTell | framework/database/src/eager-loading.ts:312-357 | a row's keys are told apart as soon as the two key columns of its relation are; no other column matters |
| EagerTree.LoadRelated | framework/database/src/eager-loading.ts:110-145 | one node: the join on each row, at most one query, or two for pivot and through |
| EagerTree.LoadMorphType | framework/database/src/eager-loading.ts:186-234 | one discriminant's parents get their own branch and the shared children |
| EagerTree.LoadMorphChildren | framework/database/src/eager-loading.ts:186-234 | all discriminants of a page, each paid for once |
| EagerTree.LoadBuckets | framework/database/src/eager-loading.ts:186-234 | discriminant by discriminant, without disturbing parents already loaded |
| Subqueries.BuildRelationSubquery | framework/database/src/eloquent-builder.ts:726-838 | compiles scopes, constraint, alias and correlation, in that order, to the relation's query |
| Subqueries.PushHas | framework/database/src/eloquent-builder.ts:398-446 | appends one `exists` or `not exists` with its connector |
| Subqueries.PushCount | framework/database/src/eloquent-builder.ts:376-391 | adds one counting subselect under the relation's count name |
| Subqueries.BuildMorphExistsSubquery | framework/database/src/eloquent-builder.ts:622-651 | the aliased, scoped and correlated subquery of one morph type |
| Subqueries.PushHasMorph | framework/database/src/eloquent-builder.ts:586-620 | appends one group of disjuncts, each guarded by its discriminant |
| Subqueries.PushMorphedTo | framework/database/src/eloquent-builder.ts:496-524 | appends one group on the row's own two columns |
| Agreement.LinkQuerySelects | framework/database/src/eloquent-builder.ts:786-832 | the correlated `in` subquery selects exactly the parent's link rows |
| Agreement.SubqueryKeeps | framework/database/src/eloquent-builder.ts:726-838 | for every kind and constraint the correlated subquery selects, in table order, the rows the relation reaches that pass scopes, constraint and discriminant as it reads them, self-referential tables included |
| Agreement.SubqueryFinds | framework/database/src/eloquent-builder.ts:726-838 | these are the rows loading finds if and only if, on the rows in reach, reading the constraint before or after the loader's own `in` gives one verdict |
| Agreement.ConjoinedVerdicts | framework/database/src/eloquent-builder.ts:726-838 | it does whenever the constraint uses only `and`, or whatever it uses as long as the relation has no discriminant and either scopes come first or the constraint does not open with `or` |
| Agreement.ConjoinsIsAgreeable | framework/database/src/eloquent-builder.ts:726-838 | so that condition on scopes and constraint alone makes the verdicts agree on any database |
| Agreement.WhereHasIsJoined | framework/database/src/eloquent-builder.ts:398-404 | where the verdicts agree, `whereHas` keeps a parent exactly when the relation's join attaches something to it, if and only if the through rows whose keys loading follows lead to something wherever all of them do; without links the rows are the same rows if and only if the verdicts agree |
| Agreement.PassingLinksSuffice | framework/database/src/eager-loading.ts:413-419 | the links loading follows suffice, and find the same rows, when the through model's scopes let all of the parent's through rows pass, and for relations without a through model always |
| Agreement.WhereHasIsEagerLoading | framework/database/src/eloquent-builder.ts:393-446 | and so exactly when eager loading any page it is on does, constraints with `or` included; `whereDoesntHave` is the negation |
| Agreement.WithCountIsAttachedSize | framework/database/src/eloquent-builder.ts:376-391 | `withCount` never exceeds the attached size and equals it if and only if no related row is attached twice |
| Agreement.FlatCount | framework/database/src/eager-loading.ts:387-452 | following links counts a row once a link, the subquery once: equal exactly without repeats |
| RelationMeaning.JoinedIsMeant | framework/database/src/eager-loading.ts:278-503 | for every kind, the join is what the declaration's own fields say: the rows whose named column equals the parent's named column, discriminant included, or, over a link table, the rows led to by the link rows that belong to the parent, in table order and as often |
| RelationMeaning.LoadedIsMeant | framework/database/src/eager-loading.ts:278-503 | and so is what loading any page attaches to a parent, where keys are told apart and no NULL looks up a stray |
| RelationMeaning.ConnectedAreAttached | framework/database/src/eager-loading.ts:387-503 | over a through table, or a pivot table without pivot columns and with a unique related key, a row is attached if and only if it passes and some row of that table has the parent's key in the column declared for the parent, this row's key in the one declared for the related table, no NULL among them, and the declared discriminant |
| RelationMeaning.PivotColumnShows | framework/database/src/eager-loading.ts:700-735 | an attachment shows each requested column of its own pivot row under the pivot prefix |
| RelationMeaning.OtherColumnStays | framework/database/src/eager-loading.ts:700-735 | and every other column as the related row has it |
| RelationMeaning.SubqueryMeans | framework/database/src/eloquent-builder.ts:726-838 | where nothing inside goes by the parent table's name, the correlated subquery selects a row if and only if the declaration's own fields connect it with the parent so, and it passes scopes and constraint |
| RelationMeaning.MorphToIsMeant | framework/database/src/eager-loading.ts:505-575 | what `morphTo` attaches is the last row pointed at in the table of the class its discriminant is declared to name |
| RelationMeaning.HasMorphMeans | framework/database/src/eloquent-builder.ts:586-651 | over a non-empty list `whereHasMorph` keeps a row if and only if its discriminant is the alias of a listed class with a passing row that its id points at |
| MorphAgreement.HasMorphIsEagerLoading | framework/database/src/eloquent-builder.ts:551-651 | over a non-empty list `whereHasMorph` keeps exactly the rows whose `morphTo` loads an instance of a listed class, where alias and declared name of the row's discriminant stand for the same listed class and the verdicts agree for it |
| MorphAgreement.HasMorphAgreesIff | framework/database/src/eloquent-builder.ts:551-676 | whatever the names and constraints: the two agree on a row if and only if the classes listed under its discriminant's alias reach something exactly when the listed class it is declared to name does |
| MorphAgreement.NamesMatter | framework/database/src/model.ts:3606-3617 | for any class that a discriminant stands for by one of the two names only, a database of one row is found and not loaded, or the reverse |
| MorphAgreement.LocalNameDisagrees | framework/database/src/eager-loading.ts:172-183 | for instance rows of type "post" where the class's own alias is "posts": loaded and not found |
| MorphAgreement.PointedIsReached | framework/database/src/eloquent-builder.ts:622-651 | the rows of a type the subquery selects are those loading finds if and only if the verdicts agree on the rows with the parent's id |
| MorphAgreement.MorphAgreeableWhen | framework/database/src/eloquent-builder.ts:622-651 | they do when scopes and constraint of each listed type conjoin |
| MorphAgreement.EmptyTypeListKeepsAll | framework/database/src/eloquent-builder.ts:586-620 | over an empty list it keeps every row, and its negation none |
| MorphAgreement.DoesntHaveMorph | framework/database/src/eloquent-builder.ts:569-620 | the negation is the complement except on rows with a NULL discriminant whose id points at a listed row |
| MorphAgreement.MorphedToKeeps | framework/database/src/eloquent-builder.ts:450-524 | keeps a row exactly when it stores the target's alias and key; the negation drops rows it cannot tell |
| MorphAgreement.ThroughScopesOnlyNarrow | framework/database/src/eager-loading.ts:413-419 | the through model's scopes act on loading only: what loading attaches, the subquery finds |
| MorphAgreement.ThroughScopesDisagreeIff | framework/database/src/eloquent-builder.ts:813-832 | and the subquery finds something where loading attaches nothing if and only if the related rows that pass are reached, all of them through rejected rows |
| MorphAgreement.ScopedLinkDisagrees | framework/database/src/eloquent-builder.ts:813-832 | whenever they reject a connecting through row, a database of just that connection makes the two compilers differ |
| MorphAgreement.ThroughScopesDisagree | framework/database/src/eloquent-builder.ts:813-832 | for instance with a soft-deleted through row |
| MorphAgreement.HiddenParentIsIgnored | framework/database/src/eloquent-builder.ts:726-838 | when the link table is the parent's own, the link query selects the rows that point at themselves, whoever the parent is |
| MorphAgreement.HiddenSubquery | framework/database/src/eloquent-builder.ts:726-838 | and the whole subquery the rows those lead to, for through and pivot relations and any constraint |
| MorphAgreement.HiddenParentsAreAlike | framework/database/src/eloquent-builder.ts:393-446 | so `whereHas` tells no two parents apart |
| MorphAgreement.HiddenAgreesIff | framework/database/src/eloquent-builder.ts:726-838 | for any constraint, the rows are those loading finds for a parent if and only if every row passes the subquery's reading under the keys of self-pointing rows exactly when it passes the loader's under the keys followed from the parent |
| MorphAgreement.HiddenWhereHasIff | framework/database/src/eloquent-builder.ts:393-446 | and `whereHas` agrees with loading on a parent if and only if both sets of keys reach a passing row or neither does, rejected through rows and `or` included |
| MorphAgreement.SelfThroughDisagrees | framework/database/src/eloquent-builder.ts:813-832 | so grandchildren through the parent's own table are loaded and not found |
| MorphAgreement.OrConstraintDisagrees | framework/database/src/eloquent-builder.ts:726-838 | a constraint that starts with `or` widens loading and narrows the subquery |
| Migrations.SortNames | framework/database/src/migrator.ts:190-206 | code-unit order, the same names |
| Migrations.SortDescending | framework/database/src/migrator.ts:550-560 | newest batch first and names downwards: the reverse of the history |
| Migrations.HistoryIsUnique | framework/database/src/migrator.ts:550-560 | the order by batch and name determines the list |
| Migrations.TopIsSuffix | framework/database/src/migrator.ts:525-545 | the rows of the highest batches are the latest stretch of the history |
| Migrations.Plan | framework/database/src/migrator.ts:525-562 | the plan lists, last first, all rows of exactly as many batches as asked for, or of all there are, each above every batch left; it is the reverse of the latest stretch of the history |
| Migrations.UndoTakesBatches | framework/database/src/migrator.ts:525-562 | the same of what any rollback undoes: for step k the rows of min(k, number of batches) batches |
| MigrationRunner.Discover | framework/database/src/migrator.ts:414-431 | every name found and no other, in ascending order, each standing for the first source that registers it |
| MigrationRunner.NextBatch | framework/database/src/migrator.ts:477-487 | one above the highest batch in use |
| MigrationRunner.Database.Apply | framework/database/src/migrator.ts:341-354 | effect and row together, or neither |
| MigrationRunner.Up | framework/database/src/migrator.ts:450-503 | refused while the lock is held; otherwise applies exactly the pending names in order under the next batch, up to one that throws, and releases the lock |
| MigrationRunner.Rollback | framework/database/src/migrator.ts:517-591 | refused while the lock is held; otherwise undoes exactly the highest batches in reverse order, and releases the lock |
| MigrationRunner.UpsExtendHistory | framework/database/src/migrator.ts:468-503 | a run, finished or not, extends the history in application order |
| MigrationRunner.UpsBuild | framework/database/src/migrator.ts:468-503 | and leaves the schema those rows build |
| MigrationRunner.DownsInvert | framework/database/src/migrator.ts:565-591 | undoing the latest rows from the end leads to the schema and rows before them, if every `down` inverts its `up` |
| MigrationRunner.UpThenRollbackRestores | framework/database/src/migrator.ts:450-591 | `up`, finished or stopped by a migration that throws, followed by `rollback` of one batch restores rows and schema if and only if it applied something or the table was empty |
| MigrationRunner.UpsThenRollbackRestores | framework/database/src/migrator.ts:450-591 | any number of runs of `up` that each apply something, followed by `rollback` of as many batches, restore rows and schema |
| MigrationRunner.UpsStop | framework/database/src/migrator.ts:468-503 | `up` stops at the first migration that throws and names it: what came before is applied and recorded, and nothing else |
| MigrationRunner.DownsStop | framework/database/src/migrator.ts:565-591 | a rollback stops at the first name no source knows or whose `down` throws, and names it: all before it is undone and its rows gone, and everything else is as it was |
| MigrationRunner.ResetEmpties | framework/database/src/migrator.ts:595-608 | `reset` empties the table and restores the schema before the first migration |
| MigrationProtocol.AtMostOneInside | framework/database/src/migrator.ts:289-331 | in every interleaving of any number of processes, with failures and crashes at any step, at most one is inside the lock |
| MigrationProtocol.CrashInsideBlocks | framework/database/src/migrator.ts:289-331 | after a crash inside, nothing runs until the lock row is removed by hand |
| MigrationProtocol.RunsAreConsistent | framework/database/src/migrator.ts:334-354 | with transactional DDL the effects present are exactly the rows, each once, in the order by batch and name, in every reachable state |
| MigrationProtocol.UpRunsThrough | framework/database/src/migrator.ts:450-503 | on every dialect a run of `up` that nothing disturbs applies and records exactly what is pending, in order, under one new batch, and lets go of the lock |
| MigrationProtocol.RollbackRunsThrough | framework/database/src/migrator.ts:517-591 | a rollback that nothing disturbs takes exactly the asked number of batches off the end of the history, effects and rows, and lets go of the lock |
| MigrationProtocol.FailureLetsGo | framework/database/src/migrator.ts:289-331 | a failure at any step inside is followed by letting go of the lock and changes nothing recorded |
| MigrationProtocol.HeldLockStays | framework/database/src/migrator.ts:289-331 | a run that finds the lock held ends there and changes nothing; a release that fails, or a crash, leaves the lock row behind |
| MigrationProtocol.SplitStepsApplyTwice | framework/database/src/migrator.ts:334-354 | where effect and row are two steps, one failure makes the next run apply a migration twice |
| SingleFlight.CompletionsAreBounded | framework/cache/src/cache-store-helpers.ts:60-114 | in every interleaving completions of the callback are at most one, plus timeouts, lapses and lost writes |
| SingleFlight.BoundIsMet | framework/cache/src/cache-store-helpers.ts:60-114 | the bound is exact: for any numbers of lost writes, lapsed locks and waiters that gave up after finding the lock taken there is a run with just these in which the callback completes once for each and once more |
| SingleFlight.LostWriteCompletesTwice | framework/cache/src/cache-store-helpers.ts:60-114 | with two callers, no timeout and no lapse, a failed `put` lets the callback complete twice |
| SingleFlight.UndisturbedCallersAgree | framework/cache/src/cache-store-helpers.ts:60-114 | with neither timeouts nor lapses every caller that returns gets the one stored value, however many writes are lost |
| SingleFlight.StoredIsServed | framework/cache/src/cache-store-helpers.ts:60-114 | once a value is stored and nobody is computing, no callback completes in any run, timeouts, lapses and crashes included, and every caller that had not looked for the last time and returns gets that value |
| SingleFlight.ReturnsWereStored | framework/cache/src/cache-store-helpers.ts:60-114 | in every run no caller is ever given a value that was not in the store at some time |
| SingleFlight.AloneReturns | framework/cache/src/cache-store-helpers.ts:60-114 | with nothing stored and the lock free, a caller left alone, refused before or not, computes, stores, lets go of the lock and returns the value |
| SingleFlight.LateReturns | framework/cache/src/cache-store-helpers.ts:60-114 | and one that has given up waiting computes, stores and returns without the lock |
| SingleFlight.LockIsLetGo | framework/cache/src/locking/lock.ts:109-180 | whatever happens inside, a caller gives up the lock before it ends, unless it crashes or the release itself fails |
| SingleFlight.CrashKeepsLock | framework/cache/src/locking/lock.ts:109-180 | a caller that crashes leaves the store and its lock as they are; only a lapse, or the late second half of a release, frees it |
| SingleFlight.LockStepKeepsBalanced | framework/cache/src/locking/lock.ts:109-180 | taking and releasing the lock keeps the balance, even when a late release deletes another's lock |
| DataObjects.Box.SetAt | framework/core/src/data.ts:269-311 | the walk that changes nested objects and arrays in place, an array's `length` included, leaves them showing the path set and all else as it was, and throws exactly where an array is given a length that is none |
| DataObjects.DataSet | framework/core/src/data.ts:172-189 | an object or array is changed in place, anything else makes way for a new root; the value's own tree is left alone |
| DataPaths.DataGet | framework/core/src/data.ts:132-170 | the value the path leads to, else the fallback |
| DataPaths.HasPath | framework/core/src/data.ts:350-362 | whether the path leads somewhere |
| DataPaths.GetAfterSet | framework/core/src/data.ts:269-311 | get after set gives the value if and only if the path has an index wherever it meets an array |
| DataPaths.CreatedByKind | framework/core/src/data.ts:269-311 | what set creates on its way is an array where an index follows and an object where anything else does |
| DataPaths.UnsafeIsNotSet | framework/core/src/data.ts:255-280 | a path through "__proto__", "constructor" or "prototype" leads afterwards where it led before |
| DataPaths.ThrowsIff | framework/core/src/data.ts:65-82 | set and fill throw exactly where they give an array a length that is none, and change nothing then |
| DataPaths.SetKeepsDiverging | framework/core/src/data.ts:269-311 | set and fill leave every diverging path's result unchanged if and only if they leave out no element by giving an array a smaller length |
| DataPaths.LengthEmptiesList | framework/core/src/data.ts:65-82 | the shortest such loss: setting or filling "list.length" with 0 empties the list |
| DataPaths.SecondSetWins | framework/core/src/data.ts:269-311 | of two sets of one path only the second shows, if and only if the first leaves no trace in an array's length |
| DataPaths.FillIsSetOrNothing | framework/core/src/data.ts:269-311 | fill changes nothing that exists and is set otherwise |
| DataPaths.FillKeepsLeaves | framework/core/src/data.ts:269-311 | fill loses no scalar if and only if none stands in the way of the path and none is left out of an array it cuts |
| DataPaths.FillCanLose | framework/core/src/data.ts:292-310 | a scalar in the way is replaced |
| DataPaths.HasByGet | framework/core/src/data.ts:132-362 | `has` and `get` walk alike: with a fallback, `get` tells what `has` tells exactly when the path does not lead to that very fallback |
| Dotted.CollapseKeepsClean | framework/core/src/arr.ts:257-282 | collapsing changes nothing in a tree whose object keys are no indices |
| Dotted.CollapseByPath | framework/core/src/arr.ts:257-282 | under every path through objects collapsing leaves scalars and arrays as they were, makes an array of an object whose keys are the first indices, and keeps any other object with its keys |
| Dotted.ListLikeIff | framework/core/src/arr.ts:257-282 | an object becomes an array if and only if its keys are exactly the first indices, as many as it has |
| Dotted.Dot | framework/core/src/arr.ts:149-180 | on any data without holes: an entry for every scalar and empty container under the spelling of its path, whatever its keys, and no other; it throws exactly when an array has a hole |
| Dotted.CleanSpelling | framework/core/src/arr.ts:149-180 | where keys hold no dot and are not empty, a spelling tells its path |
| Dotted.Undot | framework/core/src/arr.ts:182-195 | sets every entry, in any key order, then collapses; it gives nothing only where setting one of them throws |
| Dotted.Focus | framework/core/src/data.ts:269-311 | what ends up under a key depends on the entries below it alone |
| Dotted.Rebuild | framework/core/src/data.ts:269-311 | the paths of a clean tree, set in any order where nothing was, give back the tree |
| Dotted.UndotOfDot | framework/core/src/arr.ts:149-195 | so does `undot`, lists at the root included |
| Dotted.CleanMeetsNone | framework/core/src/arr.ts:182-195 | whatever paths of a clean tree have been set, in any order, the next one gives no array a length, so setting it does not throw |
| Dotted.RoundTrip | framework/core/src/arr.ts:149-195 | undot after dot is the identity on every clean non-empty tree |
| Containers.NoLassoFrom | framework/core/src/container.ts:118-164 | a token whose needs do not loop does not loop |
| Containers.CachingKeepsVerdict | framework/core/src/container.ts:118-164 | caching along the way changes no later verdict |
| Containers.LoopsFrom | framework/core/src/container.ts:118-164 | every token of a looping path loops |
| Containers.Container.Attempt | framework/core/src/container.ts:118-164 | the resolving stack is restored whatever happens; the verdict is that of the graph |
| Containers.Container.Resolve | framework/core/src/container.ts:118-164 | the value of the factory, as the extenders leave it in their order, is returned, and cached if the token is a singleton, or scoped in an open scope; others are not kept |
| Containers.Container.Make | framework/core/src/container.ts:118-164 | terminates on every finite graph and returns if and only if nothing in reach loops, is unbound or throws, by the graph and caches it started from; an uncached token is answered with what its extenders, in order, make of what its factory gives, which is a value not handed out before unless they say otherwise; a cached one from the cache, and nothing else changes; a cycle is named by what was being resolved, then the token, then one after the other what each of them needs; only tokens in reach have their factories run, and in vain only those whose extenders then refuse |
| Containers.LastExtenderDecides | framework/core/src/container.ts:138-152 | the answer is what the last extender makes of the value it receives, so its own value where it gives one, and the factory's where there is no extender |
| Containers.MakeAround | framework/core/src/container.ts:118-164 | a singleton whose extenders let its value pass has its factory completed at most once in any sequence of resolutions, and not at all once it is cached, wherever in the graph it is asked for |
| Containers.MakeOften | framework/core/src/container.ts:118-164 | asked for repeatedly, the factory completes at most once if and only if it does not complete or the extenders let its value pass: exactly never, once, or every time |
| Containers.IndependentWastes | framework/core/src/container.ts:138-152 | where the extenders need no other token, that is if and only if the factory does not complete or none of them throws |
| Containers.Container.Rebind | framework/core/src/container.ts:109-116 | forgets instance and extenders of the token, though not a value held by an open scope |
| Containers.Container.ForgetInstance | framework/core/src/container.ts:233-241 | the token is cached nowhere afterwards |
| Containers.Container.Extend | framework/core/src/container.ts:204-224 | registered first, then applied to a cached value: the token is cached with what the extender makes of it, or keeps its value if the extender fails |
| Containers.Container.RunScoped | framework/core/src/container.ts:166-175 | each resolution answers by the graph and the caches at the start; within the scope a token that is cached is made once; nothing cached for the scope outlives it |
| Containers.MakeSpoiled | framework/core/src/container.ts:118-164 | a singleton whose extender throws is never cached, and its factory completes as often as it is asked for |
| Containers.SingletonRunsTwice | framework/core/src/container.ts:118-164 | from an empty container, two completions of one singleton's factory |
| Containers.RebindInScope | framework/core/src/container.ts:109-132 | a value cached in an open scope survives a rebinding and is what `make` still answers |
| Containers.MakeReturnsIffAcyclic | framework/core/src/container.ts:118-164 | with everything in reach bound and nothing throwing, `make` returns if and only if no cycle of uncached tokens is reachable, and otherwise reports a cycle |
| Addresses.ParseIpv6 | framework/core/src/url-safety.ts:387-446 | the parser computes its specification, and gives any spelling of an address the bytes of the address |
| Addresses.SpellingsParse | framework/core/src/url-safety.ts:387-446 | every spelling of section 2.2 of RFC 4291 parses to the bytes it stands for |
| Addresses.FullFormParses | framework/core/src/url-safety.ts:387-446 | every sixteen bytes are reached, in either letter case |
| AddressBlocks.PrivateIpv4IsBlocks | framework/core/src/url-safety.ts:472-495 | the octet tests are membership in the stated CIDR blocks |
| AddressBlocks.PrivateIpv6IsBlocks | framework/core/src/url-safety.ts:497-517 | the byte tests are membership in ::/128, ::1/128, fc00::/7, fe80::/10 and ff00::/8 |
| AddressBlocks.MappedIsBlocks | framework/core/src/url-safety.ts:449-470 | what unwraps to IPv4 is ::ffff:0:0/96 and 64:ff9b::/96 as coded |
| AddressBlocks.VerdictIsOnBytes | framework/core/src/url-safety.ts:237-259 | the private verdict depends on the bytes alone |
| AddressBlocks.SpellingsAgree | framework/core/src/url-safety.ts:237-259 | two spellings of one address get one verdict |
| AddressBlocks.DottedVerdict | framework/core/src/url-safety.ts:237-259 | a dotted IPv4 address is private exactly in the ten blocks, and what is no address at all always is |
| AddressBlocks.MetadataIsOnBytes | framework/core/src/url-safety.ts:211-235 | the metadata verdict, too, depends on the bytes alone |
| AddressBlocks.DottedMetadataVerdict | framework/core/src/url-safety.ts:211-225 | of the dotted IPv4 addresses exactly 169.254.169.254 is a metadata endpoint |
| Identifiers.EncodeBase32 | framework/core/src/str.ts:17-45 | the loop writes the lowest digits, highest first |
| Identifiers.MakeUlid | framework/core/src/str.ts:314-317 | the ULID made has the shape its validator asks for, and time and random bytes read back from it |
| Identifiers.ValueOfDigits | framework/core/src/str.ts:17-45 | fixed-width digits read back as their number |
| Identifiers.DigitsSort | framework/core/src/str.ts:17-45 | and sort as their numbers |
| Identifiers.UlidDecodes | framework/core/src/str.ts:17-45 | time and random part of a ULID decode back exactly |
| Identifiers.UlidIsUlid | framework/core/src/str.ts:48-48 | a ULID matches its validator |
| Identifiers.UlidsSort | framework/core/src/str.ts:314-317 | a smaller timestamp gives a smaller ULID |
| Identifiers.StampBits | framework/core/src/str.ts:290-298 | the masks put version and variant into any byte and keep its other bits |
| Identifiers.Stamp | framework/core/src/str.ts:274-308 | the buffer is overwritten with time, version and variant and otherwise unchanged |
| Identifiers.UuidCarriesTime | framework/core/src/str.ts:274-308 | the first six bytes are the exact timestamp, big-endian |
| Identifiers.UuidReads | framework/core/src/str.ts:274-308 | every byte reads back from its place in the text |
| Identifiers.UuidKeepsRandom | framework/core/src/str.ts:274-308 | all 74 bits that version and variant leave free are the random ones, at the place they were drawn for |
| Identifiers.UuidIsUuid | framework/core/src/str.ts:47-47 | a version 7 UUID matches its validator, section 5.7 of RFC 9562 |
| Identifiers.UuidsSort | framework/core/src/str.ts:274-308 | a smaller timestamp gives a smaller UUID |
| Pool.RunsAreOrderly | framework/core/src/helpers.ts:192-229 | in any interleaving no task starts twice, no more are in flight than the limit, and no slot holds another task's outcome |
| Pool.FinishedRunIsComplete | framework/core/src/helpers.ts:192-229 | when all workers return every task ran exactly once and every slot is its own |
| Pool.LimitIsMet | framework/core/src/helpers.ts:192-229 | as many tasks as the limit allows, or all there are, can be in flight at once |
| Collections.Collection.Put | framework/core/src/collection.ts:346-354 | the next key stays above every integer key |
| Collections.SetInPlace | framework/core/src/collection.ts:346-354 | setting a key that is there keeps its place and everything else; a new one goes to the end |
| Collections.Collection.FromPairs | framework/core/src/collection.ts:154-179 | `make` of pairs sets them one after the other, repeated keys included, and puts the next key right above the largest |
| Collections.Collection.Push | framework/core/src/collection.ts:417-425 | push is concatenation: nothing is overwritten |
| Collections.Collection.Pop | framework/core/src/collection.ts:486-518 | removes from the end and keeps the next key |
| Collections.Collection.Shift | framework/core/src/collection.ts:524-552 | removes from the front and keeps the next key |
| Collections.Collection.Unshift | framework/core/src/collection.ts:432-446 | prepends and numbers all keys anew |
| Collections.Collection.Splice | framework/core/src/collection.ts:563-580 | the stretch given by offset and length, either of them negative or absent, is removed and replaced, and the rest numbered anew |
| Collections.SpliceTakesOut | framework/core/src/collection.ts:563-580 | out of a + b + c, with the offset after a and the length of b, b is removed and a, replacement, c are left; with no length, or one that is too long, all from the offset on goes |
| Collections.SpliceOffsets | framework/core/src/collection.ts:563-580 | a negative offset counts from the end, one past an end stands for that end, and a negative length removes nothing |
| Collections.Collection.Filter | framework/core/src/collection.ts:763-774 | the entries that pass, under their keys, with the same next key |
| Collections.KeptAreThose | framework/core/src/collection.ts:763-774 | kept are exactly the entries that pass, each once and in their order |
| Collections.Collection.Slice | framework/core/src/collection.ts:1235-1242 | the stretch given by offset and length, either of them negative or absent, under its keys |
| Collections.SliceTakesOut | framework/core/src/collection.ts:1235-1242 | out of a + b + c the slice after a with the length of b is b; a length that goes below the front leaves off at the end what it goes below |
| Collections.SliceOffsets | framework/core/src/collection.ts:1235-1242 | a negative offset counts from the end, and a slice that ends before it starts, or starts past the end, is empty |
| Collections.Collection.Sort | framework/core/src/collection.ts:1427-1432 | the same entries and the next key; for any comparison that orders all values they come in order, those that compare equal in the order they had |
| Collections.Collection.Merge | framework/core/src/collection.ts:1533-1542 | arrays and list-like collections are appended; pairs and other collections overwrite on collision |
| Collections.Collection.Union | framework/core/src/collection.ts:1558-1568 | the same for union, except that what is there stays |
| Collections.SetAllAppends | framework/core/src/collection.ts:417-425 | consecutive keys above all others are appended, set or added |
| Collections.SetAllFresh | framework/core/src/collection.ts:1533-1568 | so is anything under new keys |
| Collections.PermutedIsValid | framework/core/src/collection.ts:1427-1432 | reordering entries keeps keys distinct and below the next key |
| Collections.NextIndexFor | framework/core/src/collection.ts:1985-1997 | one past the largest integer key, never below the fallback |
| Collections.MergeLookup | framework/core/src/collection.ts:1533-1549 | the value given last is found, in `merge` and in `make` of pairs, keys repeated or not |
| Collections.UnionLookup | framework/core/src/collection.ts:1558-1568 | the value given first is found |
| Collections.Split | framework/core/src/collection.ts:1390-1416 | min(n, length) contiguous groups whose sizes differ by at most one |
| Collections.Chunk | framework/core/src/collection.ts:1329-1342 | contiguous full groups and a last one with what is left |
| Collections.SplitIn | framework/core/src/collection.ts:1418-1424 | at most n groups, all full but the last |
| EagerLoadTree.Node.Merge | framework/database/src/eager-load-tree.ts:67-97 | merging a path makes a node of every non-empty prefix, sets the constraint at its end, changes nothing else and throws for an empty segment |
| EagerLoadTree.Node.Clone | framework/database/src/eager-load-tree.ts:124-151 | the copy has the same nodes, `morphWith` trees and constraints and shares none of them |
| EagerLoadTree.Parse | framework/database/src/eager-load-tree.ts:99-117 | a list of requests merged one after the other, up to one that throws |
| EagerLoadTree.MorphWith | framework/database/src/eager-load-tree.ts:211-218 | the tree of a discriminant takes more requests; a new one is there only once all of them are parsed |
| EagerLoadTree.NodesArePrefixes | framework/database/src/eager-load-tree.ts:56-117 | after parsing there is a node for a path exactly when it is a prefix of a request, or was there |
| EagerLoadTree.LastConstraintWins | framework/database/src/eager-load-tree.ts:56-117 | the last constraint given for a path is the one it has |
| EagerLoadTree.MergedTogether | framework/database/src/eager-load-tree.ts:99-117 | two calls are one call |
| EagerLoadTree.MergeIntoCopy | framework/database/src/eager-load-tree.ts:119-151 | whatever is merged into a copy, the original stays as it was |

## Left out

- SQL text, Kysely, drivers, dialect quoting and bindings: queries are modelled by their meaning on rows, and rows without an `order by` come in table order.
- Savepoint commands that themselves fail, and nested transactions run concurrently or left unawaited on one connection, which the code documents as misuse.
- Loading only missing relations, the fluent `MorphToSpec` builder around its trees, and hydration of casts: they add fields to copy, not cases to prove.
- Rows with unselected columns: every row is one of a full select, so a column it does not list is NULL; an instance hydrated without its key column, whose undefined key is spelled "undefined", is not part of this model.
- MorphAgreement.HasMorphIsEagerLoading: not for numbers as discriminants, which databases compare with text each in its own way.
- EagerTree.LoadTree: with a NUL in a discriminant or an owner key a parent can be filed under another type and be loaded as one of its class (`NulMisfiles`), so there only the frame is promised.
- EagerLoadTree.Node.Merge: descends by recursion where `mergePath` walks with a cursor; the nodes are still inserted in place.
- EagerLoadTree.Node.Clone: does not tell a node without `morphWith` from one with an empty map.
- DataPaths.DataGet: paths without "*", whose answer depends on the order of an object's properties, which `Data` does not have; `dataForget` is not modelled either.
- DataObjects.Box.SetAt: trees only: no object is reachable along two paths. A path with "*" stores one value at several places and so makes what is no tree.
- DataObjects.DataSet: the same two limits.
- DataPaths.SetAt: a number from 4294967295 on is an index like any other; to JavaScript it is a property of the array.
- Dotted.Dot: works on values, which it only reads; Dates and class instances are not in the model, and which of several paths spelled alike keeps its entry is left open.
- Dotted.Undot: keys with a "*" or a prototype-reaching segment are left out with `Box.SetAt`'s wildcards.
- Directory scanning, dynamic import, preference for compiled files, `pretend`, `fresh` and `status` of the migration runner.
- MigrationProtocol.SplitStepsApplyTwice: MySQL's non-atomic DDL appears only as this contrast.
- Eviction of the cached value, a callback that yields undefined, and the exact wait and TTL durations of the cache lock.
- Containers.Container.Make: factories are lists of tokens they make in order, then throw or give a value, and extenders the same with a function of the value they receive; one that rebinds while it runs is not modelled.
- Containers.Container.RunScoped: the function run in the scope is a list of tokens it makes.
- Containers.Container.Instance: not for a token that is just being resolved.
- Addresses.ParseIpv6: Node's `isIP` is a parameter that recognises exactly what the statements need; zone ids, DNS lookup and fetch policy are not part of this model.
- Identifiers.Uuid7: clock and random bytes are parameters.
- Strings are sequences of characters compared by code unit; locale sorting is not modelled.
- Collections.Collection.Sort: by a comparison; the default one compares text by locale.
- Collection operations that restart the next key at 0, `prepend`, `shuffle` and `random`.
- Pool.RunsAreOrderly: tasks settle with a fixed outcome; aborting and keyed task maps are not modelled.
- HTTP, console, mail, broadcasting, auth, facades, casts and the type-level machinery: I/O plumbing, or erased at run time.
