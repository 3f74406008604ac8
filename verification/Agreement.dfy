/** The two compilers of a relation, the batched loader and the correlated subquery, agree - and where they do not. */
module Agreement {
  import opened Text
  import opened Rows
  import opened Relations
  import opened Batching
  import opened Subqueries

  /** The parent's row as the outer query sees it. */
  function Env(model: Model, parent: Row): seq<Frame> { [Frame(model.table, parent)] }

  /** Nothing inside the subquery goes by the name of the parent's table. */
  predicate Visible(model: Model, rel: Relation) {
    && model.table != SubAlias(rel.related)
    && (IsThrough(rel) ==> model.table != rel.through.table)
    && (IsPivot(rel) ==> model.table != PivotOf(model, rel).pivotTable)
  }

  // ----------------------------------------------------------------- filters

  ghost function Filter(rows: seq<Row>, keep: Row -> bool): (kept: seq<Row>)
    ensures forall r :: r in kept <==> r in rows && keep(r)
  {
    if rows == [] then [] else (if keep(rows[0]) then [rows[0]] else []) + Filter(rows[1..], keep)
  }

  ghost predicate AllTrue(clauses: seq<Clause>, row: Row) {
    forall i :: 0 <= i < |clauses| ==> clauses[i].test(row) == True
  }

  /** The loader's verdict on a row under a key it asked for: it reads the constraint after its own `in`. */
  ghost function LoaderPasses(related: Model, before: seq<Clause>, constraint: seq<Clause>): Row -> bool {
    (r: Row) => Holds(related.scopes + before + [ALWAYS] + constraint, r) == True
  }

  /** The subquery's verdict on a row it correlates: it reads the constraint first, and the discriminant after it. */
  ghost function QueryPasses(related: Model, before: seq<Clause>, constraint: seq<Clause>): Row -> bool {
    (r: Row) => Holds(related.scopes + constraint, r) == True && AllTrue(before, r)
  }

  /** The rows under one of the keys that pass. */
  ghost function Keep(column: string, keys: set<Value>, passes: Row -> bool): Row -> bool {
    (r: Row) => Col(r, column) != Null && Col(r, column) in keys && passes(r)
  }

  lemma {:induction false} HoldsAndSuffix(before: seq<Clause>, after: seq<Clause>, row: Row)
    requires AndOnly(after)
    ensures Holds(before + after, row) == True <==> Holds(before, row) == True && AllTrue(after, row)
  {
    if after == [] {
      assert before + after == before;
    } else {
      var init, last := after[..|after| - 1], after[|after| - 1];
      HoldsAndSuffix(before, init, row);
      AllTrueSnoc(init, last, row);
      HoldsSnoc(before + init, last, row);
      assert init + [last] == after && before + after == before + init + [last];
    }
  }

  lemma AllTrueSnoc(clauses: seq<Clause>, last: Clause, row: Row)
    ensures AllTrue(clauses + [last], row) <==> AllTrue(clauses, row) && last.test(row) == True
  {
    var all := clauses + [last];
    assert all[|clauses|] == last && forall i :: 0 <= i < |clauses| ==> clauses[i] == all[i];
  }

  lemma {:induction false} MatchingIsFilter(rows: seq<Row>, related: Model, before: seq<Clause>, column: string,
                                            key: Value, constraint: seq<Clause>)
    ensures Matching(rows, related.scopes + before, column, key, constraint)
         == Filter(rows, Keep(column, {key}, LoaderPasses(related, before, constraint)))
  {
    if key.Null? {
      NothingKept(rows, Keep(column, {key}, LoaderPasses(related, before, constraint)));
    } else if rows != [] {
      MatchingIsFilter(rows[1..], related, before, column, key, constraint);
    }
  }

  lemma {:induction false} NothingKept(rows: seq<Row>, keep: Row -> bool)
    requires forall r <- rows :: !keep(r)
    ensures Filter(rows, keep) == []
  {
    if Filter(rows, keep) != [] {
      assert Filter(rows, keep)[0] in Filter(rows, keep);
    }
  }

  // -------------------------------------------------------------- where trees

  lemma EvalSnoc(db: Db, table: string, alias: Option<string>, env: seq<Frame>, nodes: seq<Node>, last: Node)
    requires !IsOr(last)
    ensures EvalAll(db, table, alias, env, nodes + [last]) == True
       <==> EvalAll(db, table, alias, env, nodes) == True && Eval(db, table, alias, env, last) == True
  {
    assert (nodes + [last])[..|nodes|] == nodes;
  }

  lemma {:induction false} EvalTests(db: Db, table: string, alias: Option<string>, env: seq<Frame>,
                                     clauses: seq<Clause>)
    requires env != []
    ensures EvalAll(db, table, alias, env, Tests(clauses)) == Holds(clauses, env[0].row)
  {
    if clauses != [] {
      var init := clauses[..|clauses| - 1];
      EvalTests(db, table, alias, env, init);
      assert Tests(clauses)[..|clauses| - 1] == Tests(init);
    }
  }

  /** A scoped, constrained and aliased subquery, before its correlation. */
  lemma EvalScoped(db: Db, env: seq<Frame>, related: Model, constraint: seq<Clause>, row: Row)
    ensures EvalAll(db, related.table, Some(SubAlias(related)), [Frame(SubAlias(related), row)] + env,
                    Tests(related.scopes) + Tests(constraint))
         == Holds(related.scopes + constraint, row)
  {
    assert Tests(related.scopes) + Tests(constraint) == Tests(related.scopes + constraint);
    EvalTests(db, related.table, Some(SubAlias(related)), [Frame(SubAlias(related), row)] + env,
              related.scopes + constraint);
  }

  lemma {:induction false} ResultIsFilter(db: Db, env: seq<Frame>, query: Query, rows: seq<Row>, keep: Row -> bool)
    requires forall r <- rows :: Selects(db, env, query, r) <==> keep(r)
    ensures ResultFrom(db, env, query, rows) == Filter(rows, keep)
  {
    if rows != [] {
      ResultIsFilter(db, env, query, rows[1..], keep);
    }
  }

  // ---------------------------------------------------- what a subquery keeps

  function ReachedColumn(model: Model, rel: Relation): string {
    if rel.BelongsTo? then Default(rel.ownerKey, rel.related.primaryKey)
    else if IsHas(rel) then HasKey(rel)
    else if IsThrough(rel) then rel.secondKey
    else PivotOf(model, rel).relatedKey
  }

  function Discriminating(model: Model, rel: Relation): seq<Clause> {
    if IsHas(rel) then HasBefore(model, rel) else []
  }

  /** The through rows of a parent as the subquery sees them: without the through model's scopes. */
  function BareLinks(db: Db, model: Model, rel: Relation, parent: Row): seq<Row>
    requires IsThrough(rel)
  {
    Links(db, rel.through.table, [], rel.firstKey, Col(parent, Default(rel.localKey, model.primaryKey)), [])
  }

  /** The through model's scopes let all of the parent's through rows pass. */
  ghost predicate LinksPass(db: Db, model: Model, rel: Relation, parent: Row) {
    IsThrough(rel) ==> forall l <- BareLinks(db, model, rel, parent) :: Holds(rel.through.scopes, l) == True
  }

  lemma PassingLinks(db: Db, model: Model, rel: Relation, parent: Row)
    requires IsThrough(rel) && LinksPass(db, model, rel, parent)
    ensures ThroughLinks(db, model, rel, parent) == BareLinks(db, model, rel, parent)
  {
    MatchingPasses(Table(db, rel.through.table), rel.through.scopes, rel.firstKey,
                   Col(parent, Default(rel.localKey, model.primaryKey)));
  }

  lemma {:induction false} MatchingPasses(rows: seq<Row>, scopes: seq<Clause>, column: string, key: Value)
    requires forall r <- Matching(rows, [], column, key, []) :: Holds(scopes, r) == True
    ensures Matching(rows, scopes, column, key, []) == Matching(rows, [], column, key, [])
  {
    if rows != [] && !key.Null? {
      assert forall r <- Matching(rows[1..], [], column, key, []) :: r in Matching(rows, [], column, key, []);
      MatchingPasses(rows[1..], scopes, column, key);
      HoldsAlways([], rows[0]);
      HoldsAlways(scopes, rows[0]);
    }
  }

  lemma HoldsAlways(scopes: seq<Clause>, row: Row)
    ensures Holds(scopes + [ALWAYS] + [], row) == True <==> Holds(scopes, row) == True
  {
    HoldsAndSuffix(scopes, [ALWAYS], row);
    assert scopes + [ALWAYS] + [] == scopes + [ALWAYS];
    assert AllTrue([ALWAYS], row);
  }

  /** The keys by which the subquery reaches the related table. */
  function ReachedKeys(db: Db, model: Model, rel: Relation, parent: Row): set<Value> {
    if rel.BelongsTo? then {Col(parent, rel.foreignKey)}
    else if IsHas(rel) then {Col(parent, HasLocal(model, rel))}
    else if IsThrough(rel) then
      Values(BareLinks(db, model, rel, parent), Default(rel.secondLocalKey, rel.through.primaryKey))
    else Values(PivotLinks(db, model, rel, parent), PivotOf(model, rel).relatedPivotKey)
  }

  /** What the subquery keeps of the related table. */
  ghost function Kept(db: Db, model: Model, rel: Relation, constraint: seq<Clause>, parent: Row): seq<Row> {
    Filter(Table(db, rel.related.table),
           Keep(ReachedColumn(model, rel), ReachedKeys(db, model, rel, parent),
                QueryPasses(rel.related, Discriminating(model, rel), constraint)))
  }

  /** What the loader finds in the related table under some keys, each row once. */
  ghost function FoundBy(db: Db, model: Model, rel: Relation, constraint: seq<Clause>, keys: set<Value>): seq<Row> {
    Filter(Table(db, rel.related.table),
           Keep(ReachedColumn(model, rel), keys, LoaderPasses(rel.related, Discriminating(model, rel), constraint)))
  }

  /** What it finds under the keys the subquery reaches. */
  ghost function Found(db: Db, model: Model, rel: Relation, constraint: seq<Clause>, parent: Row): seq<Row> {
    FoundBy(db, model, rel, constraint, ReachedKeys(db, model, rel, parent))
  }

  /** The keys the loader follows: a through row that its model's scopes reject leads nowhere. */
  function LoadedKeys(db: Db, model: Model, rel: Relation, parent: Row): set<Value> {
    if IsThrough(rel) then
      Values(ThroughLinks(db, model, rel, parent), Default(rel.secondLocalKey, rel.through.primaryKey))
    else ReachedKeys(db, model, rel, parent)
  }

  /** If any of the keys reached leads to something, so does one that is followed. */
  ghost predicate LinksSuffice(db: Db, model: Model, rel: Relation, constraint: seq<Clause>, parent: Row) {
    Found(db, model, rel, constraint, parent) != [] ==>
      FoundBy(db, model, rel, constraint, LoadedKeys(db, model, rel, parent)) != []
  }

  /** So it is when the scopes let all through rows of the parent pass, or there are none to reject. */
  lemma PassingLinksSuffice(db: Db, model: Model, rel: Relation, constraint: seq<Clause>, parent: Row)
    requires LinksPass(db, model, rel, parent)
    ensures LinksSuffice(db, model, rel, constraint, parent)
    ensures FoundBy(db, model, rel, constraint, LoadedKeys(db, model, rel, parent))
         == Found(db, model, rel, constraint, parent)
  {
    if IsThrough(rel) {
      PassingLinks(db, model, rel, parent);
    }
  }

  /** No other key is followed. */
  lemma LoadedAreReached(db: Db, model: Model, rel: Relation, constraint: seq<Clause>, parent: Row)
    ensures LoadedKeys(db, model, rel, parent) <= ReachedKeys(db, model, rel, parent)
    ensures FoundBy(db, model, rel, constraint, LoadedKeys(db, model, rel, parent)) != [] ==>
      Found(db, model, rel, constraint, parent) != []
  {
    if IsThrough(rel) {
      ScopedLinksAreLinks(Table(db, rel.through.table), rel.through.scopes, rel.firstKey,
                          Col(parent, Default(rel.localKey, model.primaryKey)));
    }
    var found := FoundBy(db, model, rel, constraint, LoadedKeys(db, model, rel, parent));
    if found != [] {
      assert found[0] in found && found[0] in Found(db, model, rel, constraint, parent);
    }
  }

  lemma {:induction false} ScopedLinksAreLinks(rows: seq<Row>, scopes: seq<Clause>, column: string, key: Value)
    ensures forall r <- Matching(rows, scopes, column, key, []) :: r in Matching(rows, [], column, key, [])
  {
    if rows != [] && key != Null {
      ScopedLinksAreLinks(rows[1..], scopes, column, key);
      assert [] + [ALWAYS] + [] == [ALWAYS] && [ALWAYS][..0] == [];
      assert Holds([ALWAYS], rows[0]) == True;
    }
  }

  /** The equation of a link row's key with the parent's, as the subquery evaluates it. */
  lemma LinkedByKey(db: Db, parentTable: string, table: string, key: string, localKey: string, inner: Frame,
                    parent: Row,
                    row: Row)
    requires table != parentTable && inner.name != parentTable
    ensures Eval(db, table, None, [Frame(table, row)] + [inner, Frame(parentTable, parent)],
                 ColumnEq(false, Qualified(table, key), Qualified(parentTable, localKey), true))
         == Equal(Col(row, key), Col(parent, localKey))
  {
    var env := [inner, Frame(parentTable, parent)];
    var here := [Frame(table, row)] + env;
    assert here[1..] == env && env[1..] == [Frame(parentTable, parent)];
    assert Read(here, Qualified(parentTable, localKey)) == Read(env, Qualified(parentTable, localKey));
    assert Read(env, Qualified(parentTable, localKey)) == Read(env[1..], Qualified(parentTable, localKey));
  }

  lemma LinkSelected(db: Db, parentTable: string, table: string, select: string, key: string, localKey: string,
                     discriminant: Option<(string, string)>, inner: Frame, parent: Row, row: Row)
    requires table != parentTable && inner.name != parentTable
    ensures Selects(db, [inner, Frame(parentTable, parent)],
                    LinkQuery(parentTable, table, select, key, localKey, discriminant), row) <==>
      && Equal(Col(row, key), Col(parent, localKey)) == True
      && (discriminant.Some? ==> Equal(Col(row, discriminant.value.0), Str(discriminant.value.1)) == True)
  {
    var query := LinkQuery(parentTable, table, select, key, localKey, discriminant);
    var here := [Frame(table, row)] + [inner, Frame(parentTable, parent)];
    var same := ColumnEq(false, Qualified(table, key), Qualified(parentTable, localKey), true);
    LinkedByKey(db, parentTable, table, key, localKey, inner, parent, row);
    EvalSnoc(db, table, None, here, [], same);
    assert [] + [same] == [same];
    match discriminant
    case None =>
      assert query.wheres == [same];
    case Some(d) =>
      var typed := Basic(false, Qualified(table, d.0), Str(d.1));
      assert query.wheres == [same] + [typed];
      EvalSnoc(db, table, None, here, [same], typed);
  }

  lemma LinkKept(table: string, key: string, parentKey: Value, discriminant: Option<(string, string)>,
                 after: seq<Clause>, row: Row)
    requires after == match discriminant case None => [] case Some(d) => [Is(d.0, Str(d.1))]
    ensures Keep(key, {parentKey}, LoaderPasses(Model(table, "", "", []), [], after))(row) <==>
      && Equal(Col(row, key), parentKey) == True
      && (discriminant.Some? ==> Equal(Col(row, discriminant.value.0), Str(discriminant.value.1)) == True)
  {
    HoldsAndSuffix([ALWAYS], after, row);
    assert [] + [] + [ALWAYS] + after == [ALWAYS] + after;
    match discriminant
    case None =>
    case Some(d) => assert AllTrue(after, row) <==> after[0].test(row) == True;
  }

  /** The `in` subquery over links selects exactly the parent's links. */
  lemma LinkQuerySelects(db: Db, parentTable: string, table: string, select: string, key: string,
                         localKey: string, discriminant: Option<(string, string)>, env: seq<Frame>,
                         inner: Frame, parent: Row, after: seq<Clause>)
    requires table != parentTable && inner.name != parentTable && env == [inner, Frame(parentTable, parent)]
    requires after == match discriminant case None => [] case Some(d) => [Is(d.0, Str(d.1))]
    ensures Result(db, env, LinkQuery(parentTable, table, select, key, localKey, discriminant))
         == Links(db, table, [], key, Col(parent, localKey), after)
  {
    var rows, query := Table(db, table), LinkQuery(parentTable, table, select, key, localKey, discriminant);
    var related := Model(table, "", "", []);
    var keep := Keep(key, {Col(parent, localKey)}, LoaderPasses(related, [], after));
    forall r | r in rows ensures Selects(db, env, query, r) <==> keep(r) {
      LinkSelected(db, parentTable, table, select, key, localKey, discriminant, inner, parent, r);
      LinkKept(table, key, Col(parent, localKey), discriminant, after, r);
    }
    ResultIsFilter(db, env, query, rows, keep);
    MatchingIsFilter(rows, related, [], key, Col(parent, localKey), after);
    assert related.scopes + [] == [];
  }

  /** What the subquery of a relation selects for one parent. */
  function SubqueryRows(db: Db, model: Model, rel: Relation, constraint: seq<Clause>, parent: Row): seq<Row> {
    Result(db, Env(model, parent), RelationQuery(model, rel, constraint))
  }

  ghost predicate AllEvalTrue(db: Db, table: string, alias: Option<string>, env: seq<Frame>, nodes: seq<Node>) {
    forall i :: 0 <= i < |nodes| ==> Eval(db, table, alias, env, nodes[i]) == True
  }

  lemma {:induction false} EvalSuffix(db: Db, table: string, alias: Option<string>, env: seq<Frame>, first: seq<Node>,
                                      nodes: seq<Node>)
    requires forall i :: 0 <= i < |nodes| ==> !IsOr(nodes[i])
    ensures EvalAll(db, table, alias, env, first + nodes) == True
       <==> EvalAll(db, table, alias, env, first) == True && AllEvalTrue(db, table, alias, env, nodes)
  {
    if nodes == [] {
      assert first + nodes == first;
    } else {
      var init, last := nodes[..|nodes| - 1], nodes[|nodes| - 1];
      EvalSuffix(db, table, alias, env, first, init);
      EvalSnoc(db, table, alias, env, first + init, last);
      assert first + nodes == first + init + [last];
      assert forall i :: 0 <= i < |init| ==> init[i] == nodes[i];
    }
  }

  lemma CorrelationConjoins(model: Model, rel: Relation)
    ensures forall i :: 0 <= i < |Correlation(model, rel)| ==> !IsOr(Correlation(model, rel)[i])
  {
  }

  /** Scopes, constraint and correlation decide together. */
  lemma SelectsBy(db: Db, model: Model, rel: Relation, constraint: seq<Clause>, parent: Row, row: Row)
    ensures Selects(db, Env(model, parent), RelationQuery(model, rel, constraint), row) <==>
      && Holds(rel.related.scopes + constraint, row) == True
      && CorrelationHolds(db, model, rel, parent, row)
  {
    EvalScoped(db, Env(model, parent), rel.related, constraint, row);
    CorrelationConjoins(model, rel);
    EvalSuffix(db, rel.related.table, Some(SubAlias(rel.related)),
               [Frame(SubAlias(rel.related), row)] + Env(model, parent),
               Tests(rel.related.scopes) + Tests(constraint), Correlation(model, rel));
  }

  ghost predicate CorrelationHolds(db: Db, model: Model, rel: Relation, parent: Row, row: Row) {
    AllEvalTrue(db, rel.related.table, Some(SubAlias(rel.related)),
                [Frame(SubAlias(rel.related), row)] + Env(model, parent),
                Correlation(model, rel))
  }

  lemma CorrelationReaches(db: Db, model: Model, rel: Relation, parent: Row, row: Row)
    requires Visible(model, rel)
    ensures CorrelationHolds(db, model, rel, parent, row) <==>
      && Col(row, ReachedColumn(model, rel)) != Null
      && Col(row, ReachedColumn(model, rel)) in ReachedKeys(db, model, rel, parent)
      && AllTrue(Discriminating(model, rel), row)
  {
    if rel.BelongsTo? || IsHas(rel) {
      ColumnReaches(db, model, rel, parent, row);
    } else {
      LinksReach(db, model, rel, parent, row);
    }
  }

  lemma ColumnReaches(db: Db, model: Model, rel: Relation, parent: Row, row: Row)
    requires Visible(model, rel) && (rel.BelongsTo? || IsHas(rel))
    ensures CorrelationHolds(db, model, rel, parent, row) <==>
      && Col(row, ReachedColumn(model, rel)) != Null
      && Col(row, ReachedColumn(model, rel)) in ReachedKeys(db, model, rel, parent)
      && AllTrue(Discriminating(model, rel), row)
  {
    var sub := SubAlias(rel.related);
    var here := [Frame(sub, row)] + Env(model, parent);
    var nodes := Correlation(model, rel);
    var outer := if rel.BelongsTo? then rel.foreignKey else HasLocal(model, rel);
    assert here[1..] == Env(model, parent);
    assert Read(here, Qualified(model.table, outer)) == Read(here[1..], Qualified(model.table, outer));
    assert nodes[|nodes| - 1] == ColumnEq(false, Qualified(sub, ReachedColumn(model, rel)),
                                          Qualified(model.table, outer), true);
    assert Eval(db, rel.related.table, Some(sub), here, nodes[|nodes| - 1])
        == Equal(Col(row, ReachedColumn(model, rel)), Col(parent, outer));
    if |nodes| == 2 {
      assert Eval(db, rel.related.table, Some(sub), here, nodes[0]) == Discriminating(model, rel)[0].test(row);
    }
  }

  lemma LinksReach(db: Db, model: Model, rel: Relation, parent: Row, row: Row)
    requires Visible(model, rel) && (IsThrough(rel) || IsPivot(rel))
    ensures CorrelationHolds(db, model, rel, parent, row) <==>
      && Col(row, ReachedColumn(model, rel)) != Null
      && Col(row, ReachedColumn(model, rel)) in ReachedKeys(db, model, rel, parent)
  {
    if IsThrough(rel) {
      ThroughReaches(db, model, rel, parent, row);
    } else {
      PivotReaches(db, model, rel, parent, row);
    }
  }

  lemma ThroughReaches(db: Db, model: Model, rel: Relation, parent: Row, row: Row)
    requires Visible(model, rel) && IsThrough(rel)
    ensures CorrelationHolds(db, model, rel, parent, row) <==>
      Col(row, rel.secondKey) != Null && Col(row, rel.secondKey) in ReachedKeys(db, model, rel, parent)
  {
    var sub := SubAlias(rel.related);
    var here := [Frame(sub, row)] + Env(model, parent);
    assert here == [Frame(sub, row), Frame(model.table, parent)];
    var column := Default(rel.secondLocalKey, rel.through.primaryKey);
    LinkQuerySelects(db, model.table, rel.through.table, column, rel.firstKey,
                     Default(rel.localKey, model.primaryKey), None,
                     here, Frame(sub, row), parent, []);
    var links := LinkQuery(model.table, rel.through.table, column, rel.firstKey,
                           Default(rel.localKey, model.primaryKey),
                           None);
    InLinksHolds(db, rel.related.table, sub, here, rel.secondKey, links, BareLinks(db, model, rel, parent));
    assert Correlation(model, rel) == [InQuery(false, Qualified(sub, rel.secondKey), links)];
  }

  /** An `in` over the link rows holds for the keys they carry. */
  lemma InLinksHolds(db: Db, table: string, sub: string, here: seq<Frame>, column: string, links: Query, rows: seq<Row>)
    requires here != [] && here[0].name == sub && Result(db, here, links) == rows
    ensures AllEvalTrue(db, table, Some(sub), here, [InQuery(false, Qualified(sub, column), links)]) <==>
      Col(here[0].row, column) != Null && Col(here[0].row, column) in Values(rows, links.column)
  {
    var reach := InQuery(false, Qualified(sub, column), links);
    AllOfOne(db, table, Some(sub), here, reach);
    assert Eval(db, table, Some(sub), here, reach) == InTruth(Col(here[0].row, column), ColumnOf(rows, links.column));
    InColumn(Col(here[0].row, column), rows, links.column);
  }

  lemma AllOfOne(db: Db, table: string, alias: Option<string>, env: seq<Frame>, node: Node)
    ensures AllEvalTrue(db, table, alias, env, [node]) <==> Eval(db, table, alias, env, node) == True
  {
    assert [node][0] == node;
  }

  lemma PivotReaches(db: Db, model: Model, rel: Relation, parent: Row, row: Row)
    requires Visible(model, rel) && IsPivot(rel)
    ensures CorrelationHolds(db, model, rel, parent, row) <==>
      && Col(row, PivotOf(model, rel).relatedKey) != Null
      && Col(row, PivotOf(model, rel).relatedKey) in ReachedKeys(db, model, rel, parent)
  {
    var sub, spec := SubAlias(rel.related), PivotOf(model, rel);
    var here := [Frame(sub, row)] + Env(model, parent);
    assert here == [Frame(sub, row), Frame(model.table, parent)];
    LinkQuerySelects(db, model.table, spec.pivotTable, spec.relatedPivotKey, spec.thisPivotKey, spec.localKey,
                     spec.discriminant, here, Frame(sub, row), parent, Discriminated(spec));
    var links := LinkQuery(model.table, spec.pivotTable, spec.relatedPivotKey, spec.thisPivotKey, spec.localKey,
                           spec.discriminant);
    InLinksHolds(db, rel.related.table, sub, here, spec.relatedKey, links, PivotLinks(db, model, rel, parent));
    assert Correlation(model, rel) == [InQuery(false, Qualified(sub, spec.relatedKey), links)];
  }

  lemma InColumn(v: Value, rows: seq<Row>, column: string)
    ensures InTruth(v, ColumnOf(rows, column)) == True <==> v != Null && v in Values(rows, column)
  {
    if v in Values(rows, column) {
      var r :| r in rows && Col(r, column) == v;
      var i :| 0 <= i < |rows| && rows[i] == r;
      assert ColumnOf(rows, column)[i] == v;
    }
  }

  /** For every relation kind and constraint the subquery selects, in table order, the rows the relation reaches. */
  lemma SubqueryKeeps(db: Db, model: Model, rel: Relation, constraint: seq<Clause>, parent: Row)
    requires Visible(model, rel)
    ensures SubqueryRows(db, model, rel, constraint, parent) == Kept(db, model, rel, constraint, parent)
  {
    var keep := Keep(ReachedColumn(model, rel), ReachedKeys(db, model, rel, parent),
                     QueryPasses(rel.related, Discriminating(model, rel), constraint));
    forall r | r in Table(db, rel.related.table)
      ensures Selects(db, Env(model, parent), RelationQuery(model, rel, constraint), r) <==> keep(r)
    {
      SelectsBy(db, model, rel, constraint, parent, r);
      CorrelationReaches(db, model, rel, parent, r);
    }
    ResultIsFilter(db, Env(model, parent), RelationQuery(model, rel, constraint), Table(db, rel.related.table), keep);
  }

  // ------------------------------------------------------------ the verdicts

  /** On the rows under the keys the two verdicts are one. */
  ghost predicate SameVerdicts(rows: seq<Row>, column: string, keys: set<Value>, related: Model, before: seq<Clause>,
                               constraint: seq<Clause>)
  {
    forall r <- rows :: Col(r, column) != Null && Col(r, column) in keys ==>
      (LoaderPasses(related, before, constraint)(r) <==> QueryPasses(related, before, constraint)(r))
  }

  ghost predicate Agreeable(db: Db, model: Model, rel: Relation, constraint: seq<Clause>, parent: Row) {
    SameVerdicts(Table(db, rel.related.table), ReachedColumn(model, rel), ReachedKeys(db, model, rel, parent),
                 rel.related, Discriminating(model, rel), constraint)
  }

  /** What a caller can see of it: nothing but `and`, or no discriminant and no `or` where the other side has none. */
  ghost predicate Conjoins(related: Model, before: seq<Clause>, constraint: seq<Clause>) {
    || (AndOnly(before) && AndOnly(constraint))
    || (before == [] && (related.scopes != [] || constraint == [] || !constraint[0].isOr))
  }

  lemma ConjoinedVerdicts(related: Model, before: seq<Clause>, constraint: seq<Clause>, row: Row)
    requires Conjoins(related, before, constraint)
    ensures LoaderPasses(related, before, constraint)(row) <==> QueryPasses(related, before, constraint)(row)
  {
    if AndOnly(before) && AndOnly(constraint) {
      HoldsAndSuffix(related.scopes + before + [ALWAYS], constraint, row);
      HoldsAndSuffix(related.scopes + before, [ALWAYS], row);
      HoldsAndSuffix(related.scopes, before, row);
      HoldsAndSuffix(related.scopes, constraint, row);
    } else {
      assert related.scopes + before == related.scopes;
      AlwaysChangesNothing(related.scopes, constraint, row);
    }
  }

  /** A clause that is always true, put in before an `and` or after another clause, changes no answer. */
  lemma {:induction false} AlwaysChangesNothing(before: seq<Clause>, after: seq<Clause>, row: Row)
    requires before != [] || after == [] || !after[0].isOr
    ensures Holds(before + [ALWAYS] + after, row) == Holds(before + after, row)
  {
    if after == [] {
      HoldsSnoc(before, ALWAYS, row);
      assert before + [ALWAYS] + after == before + [ALWAYS] && before + after == before;
    } else {
      var init, last := after[..|after| - 1], after[|after| - 1];
      AlwaysChangesNothing(before, init, row);
      HoldsSnoc(before + [ALWAYS] + init, last, row);
      HoldsSnoc(before + init, last, row);
      assert before + [ALWAYS] + after == before + [ALWAYS] + init + [last];
      assert before + after == before + init + [last];
    }
  }

  lemma ConjoinsIsAgreeable(db: Db, model: Model, rel: Relation, constraint: seq<Clause>, parent: Row)
    requires Conjoins(rel.related, Discriminating(model, rel), constraint)
    ensures Agreeable(db, model, rel, constraint, parent)
  {
    forall r | r in Table(db, rel.related.table)
      ensures LoaderPasses(rel.related, Discriminating(model, rel), constraint)(r)
         <==> QueryPasses(rel.related, Discriminating(model, rel), constraint)(r)
    {
      ConjoinedVerdicts(rel.related, Discriminating(model, rel), constraint, r);
    }
  }

  lemma {:induction false} FilterSame(rows: seq<Row>, keep: Row -> bool, other: Row -> bool)
    ensures Filter(rows, keep) == Filter(rows, other) <==> forall r <- rows :: keep(r) <==> other(r)
  {
    if forall r <- rows :: keep(r) <==> other(r) {
      FilterCongruent(rows, keep, other);
    } else {
      var r :| r in rows && keep(r) != other(r);
      assert r in Filter(rows, keep) <==> keep(r);
      assert r in Filter(rows, other) <==> other(r);
    }
  }

  lemma {:induction false} FilterCongruent(rows: seq<Row>, keep: Row -> bool, other: Row -> bool)
    requires forall r <- rows :: keep(r) <==> other(r)
    ensures Filter(rows, keep) == Filter(rows, other)
  {
    if rows != [] {
      FilterCongruent(rows[1..], keep, other);
    }
  }

  /**
   * The subquery selects exactly the rows the loader finds if and only if the verdicts are one on the rows in
   * reach.
   */
  lemma SubqueryFinds(db: Db, model: Model, rel: Relation, constraint: seq<Clause>, parent: Row)
    requires Visible(model, rel)
    ensures SubqueryRows(db, model, rel, constraint, parent) == Found(db, model, rel, constraint, parent)
       <==> Agreeable(db, model, rel, constraint, parent)
  {
    SubqueryKeeps(db, model, rel, constraint, parent);
    var column, keys := ReachedColumn(model, rel), ReachedKeys(db, model, rel, parent);
    var before := Discriminating(model, rel);
    FilterSame(Table(db, rel.related.table), Keep(column, keys, QueryPasses(rel.related, before, constraint)),
               Keep(column, keys, LoaderPasses(rel.related, before, constraint)));
  }

  // ---------------------------------------------------------------- whereHas

  /** The related rows one key reaches, in the loader's terms. */
  function Reached(db: Db, related: Model, column: string, constraint: seq<Clause>, key: Value): seq<Row> {
    Matched(db, related, [], column, constraint, key)
  }

  /** The related rows any of `keys` reaches, each once. */
  ghost function ReachedBy(db: Db, related: Model, column: string, constraint: seq<Clause>,
                           keys: set<Value>): seq<Row> {
    Filter(Table(db, related.table), Keep(column, keys, LoaderPasses(related, [], constraint)))
  }

  lemma ReachedIsReachedBy(db: Db, related: Model, column: string, constraint: seq<Clause>, key: Value)
    ensures Reached(db, related, column, constraint, key) == ReachedBy(db, related, column, constraint, {key})
  {
    MatchingIsFilter(Table(db, related.table), related, [], column, key, constraint);
  }

  lemma {:induction false} FlatReaches(db: Db, links: seq<Row>, linkKey: string, related: Model, column: string,
                                       constraint: seq<Clause>)
    ensures FlatMatched(db, links, linkKey, related, column, constraint) != []
       <==> ReachedBy(db, related, column, constraint, Values(links, linkKey)) != []
  {
    var all := ReachedBy(db, related, column, constraint, Values(links, linkKey));
    if links == [] {
      NothingKept(Table(db, related.table), Keep(column, {}, LoaderPasses(related, [], constraint)));
      assert Values(links, linkKey) == {};
    } else {
      var key := Col(links[0], linkKey);
      FlatReaches(db, links[1..], linkKey, related, column, constraint);
      ReachedIsReachedBy(db, related, column, constraint, key);
      ReachedUnion(db, related, column, constraint, {key}, Values(links[1..], linkKey));
      assert Values(links, linkKey) == {key} + Values(links[1..], linkKey);
    }
  }

  lemma ReachedUnion(db: Db, related: Model, column: string, constraint: seq<Clause>, a: set<Value>, b: set<Value>)
    ensures ReachedBy(db, related, column, constraint, a + b) != [] <==>
      ReachedBy(db, related, column, constraint, a) != [] || ReachedBy(db, related, column, constraint, b) != []
  {
    var both := ReachedBy(db, related, column, constraint, a + b);
    var left, right := ReachedBy(db, related, column, constraint, a), ReachedBy(db, related, column, constraint, b);
    if both != [] { assert both[0] in both && (both[0] in left || both[0] in right); }
    if left != [] { assert left[0] in left && left[0] in both; }
    if right != [] { assert right[0] in right && right[0] in both; }
  }

  lemma {:induction false} FlatJoinedReaches(db: Db, links: seq<Row>, spec: PivotSpec, constraint: seq<Clause>)
    ensures FlatJoined(db, links, spec, constraint) != []
       <==> FlatMatched(db, links, spec.relatedPivotKey, spec.related, spec.relatedKey, constraint) != []
  {
    if links != [] {
      FlatJoinedReaches(db, links[1..], spec, constraint);
    }
  }

  /** The join attaches something exactly when the loader finds something under the keys it follows. */
  lemma JoinedFinds(db: Db, model: Model, rel: Relation, constraint: seq<Clause>, parent: Row)
    ensures FoundBy(db, model, rel, constraint, LoadedKeys(db, model, rel, parent)) != []
       <==> AttachedRows(Joined(db, model, rel, constraint, parent)) != []
    ensures IsHas(rel) && !ToOne(rel) ==>
      AttachedRows(Joined(db, model, rel, constraint, parent)) == Found(db, model, rel, constraint, parent)
  {
    if rel.BelongsTo? {
      ReachedIsReachedBy(db, rel.related, ReachedColumn(model, rel), constraint, Col(parent, rel.foreignKey));
    } else if IsHas(rel) {
      MatchingIsFilter(Table(db, rel.related.table), rel.related, HasBefore(model, rel), HasKey(rel),
                       Col(parent, HasLocal(model, rel)), constraint);
    } else if IsThrough(rel) {
      FlatReaches(db, ThroughLinks(db, model, rel, parent), Default(rel.secondLocalKey, rel.through.primaryKey),
                  rel.related, rel.secondKey, constraint);
    } else {
      var spec, links := PivotOf(model, rel), PivotLinks(db, model, rel, parent);
      FlatReaches(db, links, spec.relatedPivotKey, spec.related, spec.relatedKey, constraint);
      FlatJoinedReaches(db, links, spec, constraint);
    }
  }

  /**
   * `whereHas` keeps a parent exactly when the join of the relation attaches something to it, for every
   * relation kind and any tables, the parent's own table included, if and only if the scopes of a through model
   * reject no through row without which nothing is reached. For a to-many relation without links the rows are the
   * same rows if and only if the verdicts are.
   */
  lemma WhereHasIsJoined(db: Db, model: Model, rel: Relation, constraint: seq<Clause>, parent: Row)
    requires Visible(model, rel)
    ensures Agreeable(db, model, rel, constraint, parent) ==>
      ((SubqueryRows(db, model, rel, constraint, parent) != []
        <==> AttachedRows(Joined(db, model, rel, constraint, parent)) != [])
       <==> LinksSuffice(db, model, rel, constraint, parent))
    ensures IsHas(rel) && !ToOne(rel) ==>
      (SubqueryRows(db, model, rel, constraint, parent) == AttachedRows(Joined(db, model, rel, constraint, parent))
       <==> Agreeable(db, model, rel, constraint, parent))
  {
    SubqueryFinds(db, model, rel, constraint, parent);
    JoinedFinds(db, model, rel, constraint, parent);
    LoadedAreReached(db, model, rel, constraint, parent);
  }

  /** The predicate `whereHas` pushes, evaluated on a parent's row. */
  function WhereHas(db: Db, model: Model, rel: Relation, constraint: seq<Clause>, not: bool, parent: Row): Truth {
    Eval(db, model.table, None, Env(model, parent), Exists(false, not, RelationQuery(model, rel, constraint)))
  }

  /** The two compilers agree: a parent passes exactly when loading any page it is on attaches something to it. */
  lemma WhereHasIsEagerLoading(db: Db, model: Model, rel: Relation, constraint: seq<Clause>, page: seq<Row>,
                               parent: Row)
    requires Visible(model, rel) && Agreeable(db, model, rel, constraint, parent)
    requires LinksSuffice(db, model, rel, constraint, parent)
    requires parent in page && FaithfulKeys(db, model, rel, parent)
    requires NoStrays(db, model, rel, constraint, page, parent)
    ensures WhereHas(db, model, rel, constraint, false, parent) == True
       <==> AttachedRows(Batched(db, model, rel, constraint, page, parent)) != []
    ensures WhereHas(db, model, rel, constraint, true, parent)
         == Not(WhereHas(db, model, rel, constraint, false, parent))
  {
    WhereHasIsJoined(db, model, rel, constraint, parent);
    BatchedIsJoined(db, model, rel, constraint, page, parent);
  }

  // ---------------------------------------------------------------- withCount

  lemma {:induction false} KeyCount(rows: seq<Row>, column: string, passes: Row -> bool, key: Value, keys: set<Value>)
    ensures |Filter(rows, Keep(column, {key} + keys, passes))|
         == |Filter(rows, Keep(column, keys, passes))|
          + if key in keys then 0 else |Filter(rows, Keep(column, {key}, passes))|
  {
    if rows != [] {
      KeyCount(rows[1..], column, passes, key, keys);
    }
  }

  /** Two of the links lead to the same related row that is kept. */
  ghost predicate Repeats(db: Db, links: seq<Row>, linkKey: string, related: Model, column: string,
                          constraint: seq<Clause>) {
    exists i, j :: 0 <= i < j < |links| && SameReach(db, links[i], links[j], linkKey, related, column, constraint)
  }

  ghost predicate SameReach(db: Db, a: Row, b: Row, linkKey: string, related: Model, column: string,
                            constraint: seq<Clause>)
  {
    Col(a, linkKey) == Col(b, linkKey) && Reached(db, related, column, constraint, Col(a, linkKey)) != []
  }

  /** Following links one by one counts a related row once for each link to it; the subquery counts it once. */
  lemma {:induction false} FlatCount(db: Db, links: seq<Row>, linkKey: string, related: Model, column: string,
                                     constraint: seq<Clause>)
    ensures |ReachedBy(db, related, column, constraint, Values(links, linkKey))|
         <= |FlatMatched(db, links, linkKey, related, column, constraint)|
    ensures |ReachedBy(db, related, column, constraint, Values(links, linkKey))|
         == |FlatMatched(db, links, linkKey, related, column, constraint)|
       <==> !Repeats(db, links, linkKey, related, column, constraint)
  {
    if links == [] {
      NothingKept(Table(db, related.table), Keep(column, {}, LoaderPasses(related, [], constraint)));
      assert Values(links, linkKey) == {};
    } else {
      var key, rest := Col(links[0], linkKey), links[1..];
      FlatCount(db, rest, linkKey, related, column, constraint);
      ReachedIsReachedBy(db, related, column, constraint, key);
      KeyCount(Table(db, related.table), column, LoaderPasses(related, [], constraint), key, Values(rest, linkKey));
      assert Values(links, linkKey) == {key} + Values(rest, linkKey);
      RepeatsCons(db, links, linkKey, related, column, constraint);
    }
  }

  lemma RepeatsCons(db: Db, links: seq<Row>, linkKey: string, related: Model, column: string, constraint: seq<Clause>)
    requires links != []
    ensures Repeats(db, links, linkKey, related, column, constraint) <==>
      || Repeats(db, links[1..], linkKey, related, column, constraint)
      || (Col(links[0], linkKey) in Values(links[1..], linkKey)
          && Reached(db, related, column, constraint, Col(links[0], linkKey)) != [])
  {
    var rest := links[1..];
    if Repeats(db, rest, linkKey, related, column, constraint) {
      var i, j :| 0 <= i < j < |rest| && SameReach(db, rest[i], rest[j], linkKey, related, column, constraint);
      assert links[i + 1] == rest[i] && links[j + 1] == rest[j];
    }
    if Repeats(db, links, linkKey, related, column, constraint) {
      var i, j :| 0 <= i < j < |links| && SameReach(db, links[i], links[j], linkKey, related, column, constraint);
      assert links[j] == rest[j - 1];
      assert i > 0 ==> links[i] == rest[i - 1];
    }
    if Col(links[0], linkKey) in Values(rest, linkKey) {
      var l :| l in rest && Col(l, linkKey) == Col(links[0], linkKey);
      var j :| 0 <= j < |rest| && rest[j] == l;
      assert links[j + 1] == l;
      assert Reached(db, related, column, constraint, Col(links[0], linkKey)) != []
        ==> SameReach(db, links[0], links[j + 1], linkKey, related, column, constraint);
    }
  }

  lemma {:induction false} FlatJoinedCount(db: Db, links: seq<Row>, spec: PivotSpec, constraint: seq<Clause>)
    requires Unique(Table(db, spec.related.table), spec.relatedKey)
    ensures |FlatJoined(db, links, spec, constraint)|
         == |FlatMatched(db, links, spec.relatedPivotKey, spec.related, spec.relatedKey, constraint)|
  {
    if links != [] {
      FlatJoinedCount(db, links[1..], spec, constraint);
      UniqueMatches(Table(db, spec.related.table), spec.related.scopes + [], spec.relatedKey,
                    Col(links[0], spec.relatedPivotKey), constraint);
    }
  }

  /** One of a parent's related rows is attached to it more than once. */
  ghost predicate AttachedTwice(db: Db, model: Model, rel: Relation, constraint: seq<Clause>, parent: Row) {
    if IsThrough(rel) then
      Repeats(db, ThroughLinks(db, model, rel, parent), Default(rel.secondLocalKey, rel.through.primaryKey),
              rel.related,
              rel.secondKey, constraint)
    else if IsPivot(rel) then
      Repeats(db, PivotLinks(db, model, rel, parent), PivotOf(model, rel).relatedPivotKey, rel.related,
              PivotOf(model, rel).relatedKey, constraint)
    else false
  }

  /** The rows found are never more than the rows attached, and as many exactly when none is attached twice. */
  lemma FoundCount(db: Db, model: Model, rel: Relation, constraint: seq<Clause>, parent: Row)
    requires LinksPass(db, model, rel, parent) && !ToOne(rel)
    requires IsPivot(rel) ==> Unique(Table(db, rel.related.table), PivotOf(model, rel).relatedKey)
    ensures
      var count, attached := |Found(db, model, rel, constraint, parent)|,
                             |AttachedRows(Joined(db, model, rel, constraint, parent))|;
      count <= attached && (count == attached <==> !AttachedTwice(db, model, rel, constraint, parent))
  {
    if IsHas(rel) {
      JoinedFinds(db, model, rel, constraint, parent);
    } else if IsThrough(rel) {
      ThroughCount(db, model, rel, constraint, parent);
    } else {
      PivotCount(db, model, rel, constraint, parent);
    }
  }

  lemma ThroughCount(db: Db, model: Model, rel: Relation, constraint: seq<Clause>, parent: Row)
    requires LinksPass(db, model, rel, parent) && rel.HasManyThrough?
    ensures
      var count, attached := |Found(db, model, rel, constraint, parent)|,
                             |AttachedRows(Joined(db, model, rel, constraint, parent))|;
      count <= attached && (count == attached <==> !AttachedTwice(db, model, rel, constraint, parent))
  {
    PassingLinks(db, model, rel, parent);
    FlatCount(db, ThroughLinks(db, model, rel, parent), Default(rel.secondLocalKey, rel.through.primaryKey),
              rel.related, rel.secondKey, constraint);
  }

  lemma PivotCount(db: Db, model: Model, rel: Relation, constraint: seq<Clause>, parent: Row)
    requires IsPivot(rel) && Unique(Table(db, rel.related.table), PivotOf(model, rel).relatedKey)
    ensures
      var count, attached := |Found(db, model, rel, constraint, parent)|,
                             |AttachedRows(Joined(db, model, rel, constraint, parent))|;
      count <= attached && (count == attached <==> !AttachedTwice(db, model, rel, constraint, parent))
  {
    var spec, links := PivotOf(model, rel), PivotLinks(db, model, rel, parent);
    PivotTerms(db, model, rel, constraint, parent);
    FlatCount(db, links, spec.relatedPivotKey, spec.related, spec.relatedKey, constraint);
    FlatJoinedCount(db, links, spec, constraint);
  }

  lemma PivotTerms(db: Db, model: Model, rel: Relation, constraint: seq<Clause>, parent: Row)
    requires IsPivot(rel)
    ensures
      var spec, links := PivotOf(model, rel), PivotLinks(db, model, rel, parent);
      && Found(db, model, rel, constraint, parent)
      == ReachedBy(db, spec.related, spec.relatedKey, constraint, Values(links, spec.relatedPivotKey))
      && AttachedRows(Joined(db, model, rel, constraint, parent)) == FlatJoined(db, links, spec, constraint)
      && (AttachedTwice(db, model, rel, constraint, parent)
          <==> Repeats(db, links, spec.relatedPivotKey, spec.related, spec.relatedKey, constraint))
  {
  }

  /**
   * `withCount` on a to-many relation is never more than eager loading attaches, and equals it exactly when
   * no two link rows of the parent lead to one kept row. Without links it always does.
   */
  lemma WithCountIsAttachedSize(db: Db, model: Model, rel: Relation, constraint: seq<Clause>, page: seq<Row>,
                                parent: Row)
    requires Visible(model, rel) && LinksPass(db, model, rel, parent) && Agreeable(db, model, rel, constraint, parent)
    requires !ToOne(rel) && parent in page && FaithfulKeys(db, model, rel, parent)
    requires NoStrays(db, model, rel, constraint, page, parent)
    requires IsPivot(rel) ==> Unique(Table(db, rel.related.table), PivotOf(model, rel).relatedKey)
    ensures
      var count, attached := |SubqueryRows(db, model, rel, constraint, parent)|,
                             |AttachedRows(Batched(db, model, rel, constraint, page, parent))|;
      count <= attached && (count == attached <==> !AttachedTwice(db, model, rel, constraint, parent))
  {
    SubqueryFinds(db, model, rel, constraint, parent);
    BatchedIsJoined(db, model, rel, constraint, page, parent);
    FoundCount(db, model, rel, constraint, parent);
  }
}
