/** The batched loader: a few queries for a page of instances, re-attached through maps keyed by spelled keys. */
module EagerLoading {
  import opened Text
  import opened Rows
  import opened Relations

  /** A hydrated instance of a model; its attributes stay what the row was, its relations are set by the loader. */
  class Instance {
    const model: Model
    const row: Row
    var relations: map<string, Loaded>

    constructor (model: Model, row: Row)
      ensures this.model == model && this.row == row && relations == map[]
    {
      this.model, this.row, relations := model, row, map[];
    }

    method SetRelation(name: string, value: Loaded)
      modifies this
      ensures relations == old(relations)[name := value]
    {
      relations := relations[name := value];
    }
  }

  datatype Loaded = Missing | One(instance: Instance) | Many(instances: seq<Instance>)

  function RowsOf(instances: seq<Instance>): (rows: seq<Row>)
    ensures |rows| == |instances| && forall i :: 0 <= i < |rows| ==> rows[i] == instances[i].row
  {
    seq(|instances|, i requires 0 <= i < |instances| => instances[i].row)
  }

  /** What a loaded value shows, whatever instances carry it. */
  function Content(l: Loaded): Attached {
    match l
    case Missing => Absent
    case One(x) => Single(x.row)
    case Many(xs) => Several(RowsOf(xs))
  }

  function Members(l: Loaded): seq<Instance> {
    match l case Missing => [] case One(x) => [x] case Many(xs) => xs
  }

  ghost predicate Distinct(instances: seq<Instance>) {
    forall i, j :: 0 <= i < j < |instances| ==> instances[i] != instances[j]
  }

  class Connection {
    const db: Db
    var queries: nat

    constructor (db: Db)
      ensures this.db == db && queries == 0
    {
      this.db, queries := db, 0;
    }

    /** Runs one query through `related`'s scoped builder and hydrates its rows. */
    method Get(related: Model, clauses: seq<Clause>) returns (found: seq<Instance>)
      modifies this
      ensures queries == old(queries) + 1
      ensures RowsOf(found) == Select(Table(db, related.table), related.scopes + clauses)
      ensures Distinct(found) && forall x <- found :: fresh(x) && x.relations == map[] && x.model == related
    {
      queries := queries + 1;
      found := Hydrate(related, Select(Table(db, related.table), related.scopes + clauses));
    }

    /** Runs one query that reads plain rows. */
    method GetRows(table: string, clauses: seq<Clause>) returns (rows: seq<Row>)
      modifies this
      ensures queries == old(queries) + 1 && rows == Select(Table(db, table), clauses)
    {
      queries := queries + 1;
      rows := Select(Table(db, table), clauses);
    }
  }

  method Hydrate(model: Model, rows: seq<Row>) returns (instances: seq<Instance>)
    ensures RowsOf(instances) == rows
    ensures Distinct(instances) && forall x <- instances :: fresh(x) && x.relations == map[] && x.model == model
  {
    instances := [];
    for i := 0 to |rows|
      invariant RowsOf(instances) == rows[..i]
      invariant Distinct(instances) && forall x <- instances :: fresh(x) && x.relations == map[] && x.model == model
    {
      var x := new Instance(model, rows[i]);
      instances := instances + [x];
    }
    assert rows[..|rows|] == rows;
  }

  /** Where `x` first occurs, or the end. */
  function FirstAt<T(==)>(all: seq<T>, x: T): (i: nat)
    ensures i <= |all| && (i < |all| ==> all[i] == x) && forall j :: 0 <= j < i ==> all[j] != x
  {
    if all == [] || all[0] == x then 0 else 1 + FirstAt(all[1..], x)
  }

  /** `some` lists the elements of `all`, each once, in order of first occurrence. */
  ghost predicate Firsts<T>(some: seq<T>, all: seq<T>) {
    && (forall x <- some :: x in all) && (forall x <- all :: x in some)
    && forall j, k :: 0 <= j < k < |some| ==> FirstAt(all, some[j]) < FirstAt(all, some[k])
  }

  lemma FirstAtSnoc<T>(all: seq<T>, last: T, x: T)
    ensures FirstAt(all + [last], x) == if x in all then FirstAt(all, x) else if x == last then |all| else |all| + 1
  {
    var more, i := all + [last], FirstAt(all + [last], x);
    assert forall j :: 0 <= j < |all| ==> more[j] == all[j];
    if x in all {
      var j :| 0 <= j < |all| && all[j] == x;
      assert i == FirstAt(all, x);
    }
  }

  lemma FirstsSnoc<T>(some: seq<T>, all: seq<T>, x: T)
    requires Firsts(some, all)
    ensures Firsts(if x in some then some else some + [x], all + [x])
  {
    var more := if x in some then some else some + [x];
    forall j | 0 <= j < |more|
      ensures FirstAt(all + [x], more[j]) == if j < |some| then FirstAt(all, some[j]) else |all|
    {
      assert j < |some| ==> more[j] == some[j] && some[j] in some;
      FirstAtSnoc(all, x, more[j]);
    }
  }

  /** The elements of `all`, each where it first occurs. */
  function Uniques<T(==)>(all: seq<T>): seq<T> {
    if all == [] then []
    else
      var before, last := Uniques(all[..|all| - 1]), all[|all| - 1];
      if last in before then before else before + [last]
  }

  /** `more` added one by one, what is there already left out. */
  function Added<T(==)>(before: seq<T>, more: seq<T>): seq<T> {
    if more == [] then before
    else
      var some, last := Added(before, more[..|more| - 1]), more[|more| - 1];
      if last in some then some else some + [last]
  }

  lemma {:induction false} AddedIsUniques<T>(all: seq<T>, more: seq<T>)
    ensures Added(Uniques(all), more) == Uniques(all + more)
  {
    if more == [] {
      assert all + more == all;
    } else {
      AddedIsUniques(all, more[..|more| - 1]);
      assert (all + more)[..|all + more| - 1] == all + more[..|more| - 1];
    }
  }

  lemma UniquesSnoc<T>(all: seq<T>, x: T)
    requires Firsts(Uniques(all), all)
    ensures Firsts(Uniques(all + [x]), all + [x])
  {
    FirstsSnoc(Uniques(all), all, x);
    assert (all + [x])[..|all|] == all;
  }

  lemma {:induction false} UniquesAreFirsts<T>(all: seq<T>)
    ensures Firsts(Uniques(all), all)
  {
    if all != [] {
      UniquesAreFirsts(all[..|all| - 1]);
      UniquesSnoc(all[..|all| - 1], all[|all| - 1]);
      assert all[..|all| - 1] + [all[|all| - 1]] == all;
    }
  }

  /** `some` lists the non-null values, each once, in order of first occurrence. */
  ghost predicate DefinedFirsts(some: seq<Value>, values: seq<Value>) {
    && (forall v <- some :: v != Null && v in values) && (forall v <- values :: v == Null || v in some)
    && forall j, k :: 0 <= j < k < |some| ==> FirstAt(values, some[j]) < FirstAt(values, some[k])
  }

  lemma UniqueStep(values: seq<Value>, i: nat, some: seq<Value>)
    requires i < |values| && DefinedFirsts(some, values[..i])
    ensures
      DefinedFirsts(if values[i] == Null || values[i] in some then some else some + [values[i]], values[..i + 1])
  {
    assert values[..i + 1] == values[..i] + [values[i]];
    OneMoreDefined(values[..i], values[i], some);
  }

  lemma OneMoreDefined(values: seq<Value>, v: Value, some: seq<Value>)
    requires DefinedFirsts(some, values)
    ensures DefinedFirsts(if v == Null || v in some then some else some + [v], values + [v])
  {
    var more := if v == Null || v in some then some else some + [v];
    forall j | 0 <= j < |more|
      ensures FirstAt(values + [v], more[j]) == if j < |some| then FirstAt(values, some[j]) else |values|
    {
      assert j < |some| ==> more[j] == some[j] && some[j] in some;
      FirstAtSnoc(values, v, more[j]);
    }
  }

  /** The distinct non-null values, in order of first occurrence. */
  method UniqueDefined(values: seq<Value>) returns (result: seq<Value>)
    ensures DefinedFirsts(result, values)
  {
    var seen: set<Value> := {};
    result := [];
    for i := 0 to |values|
      invariant forall v :: v in seen <==> v in result
      invariant DefinedFirsts(result, values[..i])
    {
      UniqueStep(values, i, result);
      if values[i] != Null && values[i] !in seen {
        seen := seen + {values[i]};
        result := result + [values[i]];
      }
    }
    assert values[..|values|] == values;
  }

  /** The keys of a page: what `uniqueDefined` of one column asks the database for. */
  method PageKeys(rows: seq<Row>, column: string) returns (keys: set<Value>)
    ensures keys == Defined(rows, column)
  {
    var values := seq(|rows|, i requires 0 <= i < |rows| => Col(rows[i], column));
    var unique := UniqueDefined(values);
    keys := set v | v in unique;
    forall v ensures v in keys <==> v in Defined(rows, column) {
      if v in values {
        var i :| 0 <= i < |values| && values[i] == v;
        assert rows[i] in rows && Col(rows[i], column) == v;
      }
      if v in Defined(rows, column) {
        var r :| r in rows && Col(r, column) == v;
        var i :| 0 <= i < |rows| && rows[i] == r;
        assert values[i] == v;
      }
    }
  }

  /** `keyBy`: the last instance filed under each key. */
  method KeyBy(instances: seq<Instance>, column: string) returns (byKey: map<string, Instance>)
    ensures forall k :: k in byKey <==> Filed(RowsOf(instances), column, k) != []
    ensures forall k :: k in byKey ==>
      byKey[k] in instances && Last(Filed(RowsOf(instances), column, k)) == Single(byKey[k].row)
  {
    byKey := map[];
    for i := 0 to |instances|
      invariant Keyed(byKey, instances[..i], column)
    {
      KeyedSnoc(byKey, instances[..i], instances[i], column);
      assert instances[..i + 1] == instances[..i] + [instances[i]];
      byKey := byKey[Spell(Col(instances[i].row, column)) := instances[i]];
    }
    assert instances[..|instances|] == instances;
    forall k
      ensures k in byKey <==> Filed(RowsOf(instances), column, k) != []
      ensures k in byKey ==>
        byKey[k] in instances && Last(Filed(RowsOf(instances), column, k)) == Single(byKey[k].row)
    {
      assert KeyedAt(byKey, instances, column, k);
    }
  }

  /** Key `k` of `byKey` holds the last instance filed under it. */
  ghost predicate KeyedAt(byKey: map<string, Instance>, instances: seq<Instance>, column: string, k: string) {
    && (k in byKey <==> Filed(RowsOf(instances), column, k) != [])
    && (k in byKey ==>
          byKey[k] in instances && Last(Filed(RowsOf(instances), column, k)) == Single(byKey[k].row))
  }

  ghost predicate Keyed(byKey: map<string, Instance>, instances: seq<Instance>, column: string) {
    forall k {:trigger KeyedAt(byKey, instances, column, k)} :: KeyedAt(byKey, instances, column, k)
  }

  lemma KeyedSnoc(byKey: map<string, Instance>, instances: seq<Instance>, x: Instance, column: string)
    requires Keyed(byKey, instances, column)
    ensures Keyed(byKey[Spell(Col(x.row, column)) := x], instances + [x], column)
  {
    assert RowsOf(instances + [x]) == RowsOf(instances) + [x.row];
    var more := byKey[Spell(Col(x.row, column)) := x];
    forall k ensures KeyedAt(more, instances + [x], column, k) {
      assert KeyedAt(byKey, instances, column, k);
      FiledSnoc(RowsOf(instances), x.row, column, k);
    }
  }

  /** Key `k` of `groups` holds the instances filed under it. */
  ghost predicate FilesAt(groups: map<string, seq<Instance>>, instances: seq<Instance>, column: string, k: string) {
    && RowsOf(Group(groups, k)) == Filed(RowsOf(instances), column, k)
    && forall x <- Group(groups, k) :: x in instances
  }

  ghost predicate Files(groups: map<string, seq<Instance>>, instances: seq<Instance>, column: string) {
    forall k {:trigger FilesAt(groups, instances, column, k)} :: FilesAt(groups, instances, column, k)
  }

  lemma FilesSnoc(groups: map<string, seq<Instance>>, instances: seq<Instance>, x: Instance, column: string)
    requires Files(groups, instances, column)
    ensures
      var key := Spell(Col(x.row, column));
      Files(groups[key := Group(groups, key) + [x]], instances + [x], column)
  {
    var key := Spell(Col(x.row, column));
    var more := groups[key := Group(groups, key) + [x]];
    assert RowsOf(instances + [x]) == RowsOf(instances) + [x.row];
    forall k ensures FilesAt(more, instances + [x], column, k) {
      assert FilesAt(groups, instances, column, k);
      FiledSnoc(RowsOf(instances), x.row, column, k);
      if k == key {
        assert RowsOf(Group(more, k)) == RowsOf(Group(groups, k)) + [x.row];
      } else {
        assert Group(more, k) == Group(groups, k);
      }
    }
  }

  /** `groupBy`: the instances filed under each key, in order. */
  method GroupBy(instances: seq<Instance>, column: string) returns (groups: map<string, seq<Instance>>)
    ensures Files(groups, instances, column)
  {
    groups := map[];
    for i := 0 to |instances|
      invariant Files(groups, instances[..i], column)
    {
      var key := Spell(Col(instances[i].row, column));
      FilesSnoc(groups, instances[..i], instances[i], column);
      assert instances[..i + 1] == instances[..i] + [instances[i]];
      groups := groups[key := Group(groups, key) + [instances[i]]];
    }
    assert instances[..|instances|] == instances;
  }

  function Group<T>(groups: map<string, seq<T>>, key: string): seq<T> {
    if key in groups then groups[key] else []
  }

  /** Plain rows filed by one column, in order. */
  method GroupRows(rows: seq<Row>, column: string) returns (groups: map<string, seq<Row>>)
    ensures forall k :: Group(groups, k) == Filed(rows, column, k)
  {
    groups := map[];
    for i := 0 to |rows|
      invariant forall k :: Group(groups, k) == Filed(rows[..i], column, k)
    {
      var key := Spell(Col(rows[i], column));
      ghost var before := groups;
      assert rows[..i + 1] == rows[..i] + [rows[i]];
      groups := groups[key := Group(groups, key) + [rows[i]]];
      forall k ensures Group(groups, k) == Filed(rows[..i + 1], column, k) {
        FiledSnoc(rows[..i], rows[i], column, k);
        assert Group(before, k) == Filed(rows[..i], column, k);
      }
    }
    assert rows[..|rows|] == rows;
  }

  /** `after` is `before` with relation `name` set to `value`. */
  ghost predicate SetIn(after: map<string, Loaded>, before: map<string, Loaded>, name: string, value: Loaded) {
    name in after && after[name] == value && after - {name} == before - {name}
  }

  /** `instance.setRelation(name, find(instance))` for every instance of the page. */
  method AttachAll(instances: seq<Instance>, name: string, find: Row -> Loaded)
    modifies set x | x in instances
    ensures forall x <- instances :: SetIn(x.relations, old(x.relations), name, find(x.row))
  {
    for i := 0 to |instances|
      invariant forall x <- instances ::
        if x in instances[..i] then SetIn(x.relations, old(x.relations), name, find(x.row))
        else x.relations == old(x.relations)
    {
      instances[i].SetRelation(name, find(instances[i].row));
    }
    assert instances[..|instances|] == instances;
  }

  function ByKey(byKey: map<string, Instance>, key: Value): Loaded {
    if Spell(key) in byKey then One(byKey[Spell(key)]) else Missing
  }

  function FirstOf(group: seq<Instance>): Loaded { if group == [] then Missing else One(group[0]) }

  /** The rows fetched for the keys of a page; no query at all when it has none. */
  method FetchPage(conn: Connection, related: Model, before: seq<Clause>, column: string, keys: set<Value>,
                   constraint: seq<Clause>) returns (found: seq<Instance>)
    modifies conn
    ensures RowsOf(found) == Fetch(conn.db, related, before, column, keys, constraint)
    ensures Distinct(found) && forall x <- found :: fresh(x) && x.relations == map[] && x.model == related
    ensures conn.queries == old(conn.queries) + if keys == {} then 0 else 1
  {
    if keys == {} {
      found := [];
    } else {
      found := conn.Get(related, before + [In(column, keys)] + constraint);
      assert related.scopes + (before + [In(column, keys)] + constraint)
          == related.scopes + before + [In(column, keys)] + constraint;
    }
  }

  method FindBelongsTo(conn: Connection, page: seq<Row>, rel: Relation, constraint: seq<Clause>)
    returns (find: Row -> Loaded)
    requires rel.BelongsTo?
    modifies conn
    ensures forall row :: Content(find(row)) == BatchedBelongsTo(conn.db, rel, constraint, page, row)
    ensures forall row :: forall y <- Members(find(row)) :: fresh(y)
    ensures conn.queries <= old(conn.queries) + 1
  {
    var foreignKey, ownerKey := rel.foreignKey, Default(rel.ownerKey, rel.related.primaryKey);
    var keys := PageKeys(page, foreignKey);
    var found := FetchPage(conn, rel.related, [], ownerKey, keys, constraint);
    var byKey := KeyBy(found, ownerKey);
    find := (row: Row) => if Col(row, foreignKey).Null? then Missing else ByKey(byKey, Col(row, foreignKey));
  }

  /** `hasOne` and `hasMany`, and with a discriminant on the related rows `morphOne` and `morphMany`. */
  method FindHas(conn: Connection, model: Model, page: seq<Row>, rel: Relation, constraint: seq<Clause>)
    returns (find: Row -> Loaded)
    requires IsHas(rel)
    modifies conn
    ensures forall row :: Content(find(row)) == Shape(rel, BatchedHas(conn.db, model, rel, constraint, page, row))
    ensures forall row :: forall y <- Members(find(row)) :: fresh(y)
    ensures conn.queries <= old(conn.queries) + 1
  {
    var key, localKey := HasKey(rel), HasLocal(model, rel);
    var keys := PageKeys(page, localKey);
    var found := FetchPage(conn, rel.related, HasBefore(model, rel), key, keys, constraint);
    var grouped := GroupBy(found, key);
    find := (row: Row) =>
      if ToOne(rel) then FirstOf(Group(grouped, Spell(Col(row, localKey))))
      else Many(Group(grouped, Spell(Col(row, localKey))));
    forall row
      ensures Content(find(row)) == Shape(rel, BatchedHas(conn.db, model, rel, constraint, page, row))
      ensures forall y <- Members(find(row)) :: y in found
    {
      var group := Group(grouped, Spell(Col(row, localKey)));
      assert FilesAt(grouped, found, key, Spell(Col(row, localKey)));
      assert RowsOf(group) == BatchedHas(conn.db, model, rel, constraint, page, row);
      ShapedContent(rel, group);
    }
  }

  function FlatGroups(groups: map<string, seq<Instance>>, links: seq<Row>, linkKey: string): seq<Instance> {
    if links == [] then []
    else Group(groups, Spell(Col(links[0], linkKey))) + FlatGroups(groups, links[1..], linkKey)
  }

  lemma {:induction false} FlatGroupsFetched(groups: map<string, seq<Instance>>, found: seq<Instance>, links: seq<Row>,
                                             linkKey: string, db: Db, related: Model, column: string, keys: set<Value>,
                                             constraint: seq<Clause>)
    requires RowsOf(found) == Fetch(db, related, [], column, keys, constraint)
    requires Files(groups, found, column)
    ensures RowsOf(FlatGroups(groups, links, linkKey))
         == FlatFetched(db, links, linkKey, related, column, keys, constraint)
    ensures forall x <- FlatGroups(groups, links, linkKey) :: x in found
  {
    if links != [] {
      FlatGroupsFetched(groups, found, links[1..], linkKey, db, related, column, keys, constraint);
      var group := Group(groups, Spell(Col(links[0], linkKey)));
      assert FilesAt(groups, found, column, Spell(Col(links[0], linkKey)));
      assert RowsOf(group) == Fetched(db, related, [], column, keys, constraint, Col(links[0], linkKey));
      assert RowsOf(group + FlatGroups(groups, links[1..], linkKey))
          == RowsOf(group) + RowsOf(FlatGroups(groups, links[1..], linkKey));
    }
  }

  /** The link rows of a page; no query when it has no keys. */
  method FetchLinks(conn: Connection, table: string, scopes: seq<Clause>, key: string, keys: set<Value>,
                    after: seq<Clause>)
    returns (links: seq<Row>)
    modifies conn
    ensures links == LinkRows(conn.db, table, scopes, key, keys, after)
    ensures conn.queries <= old(conn.queries) + 1
  {
    if keys == {} {
      links := [];
    } else {
      links := conn.GetRows(table, scopes + [In(key, keys)] + after);
    }
  }

  /** `groups` and `byParent` file what the two queries of a through relation fetched for a page. */
  ghost predicate Through(groups: map<string, seq<Instance>>, byParent: map<string, seq<Row>>, found: seq<Instance>,
                          db: Db, model: Model, rel: Relation, constraint: seq<Clause>, page: seq<Row>)
    requires IsThrough(rel)
  {
    var local, second := Default(rel.localKey, model.primaryKey), Default(rel.secondLocalKey, rel.through.primaryKey);
    var links := LinkRows(db, rel.through.table, rel.through.scopes, rel.firstKey, Defined(page, local), []);
    && RowsOf(found) == Fetch(db, rel.related, [], rel.secondKey, Defined(links, second), constraint)
    && Files(groups, found, rel.secondKey)
    && forall k {:trigger Group(byParent, k)} :: Group(byParent, k) == Filed(links, rel.firstKey, k)
  }

  function ThroughOf(groups: map<string, seq<Instance>>, byParent: map<string, seq<Row>>, model: Model, rel: Relation,
                     row: Row): seq<Instance>
    requires IsThrough(rel)
  {
    FlatGroups(groups, Group(byParent, Spell(Col(row, Default(rel.localKey, model.primaryKey)))),
               Default(rel.secondLocalKey, rel.through.primaryKey))
  }

  lemma ThroughGroups(groups: map<string, seq<Instance>>, byParent: map<string, seq<Row>>, found: seq<Instance>,
                      db: Db, model: Model, rel: Relation, constraint: seq<Clause>, page: seq<Row>, row: Row)
    requires IsThrough(rel) && Through(groups, byParent, found, db, model, rel, constraint, page)
    ensures RowsOf(ThroughOf(groups, byParent, model, rel, row))
         == BatchedThrough(db, model, rel, constraint, page, row)
    ensures forall x <- ThroughOf(groups, byParent, model, rel, row) :: x in found
  {
    var local, second := Default(rel.localKey, model.primaryKey), Default(rel.secondLocalKey, rel.through.primaryKey);
    var links := LinkRows(db, rel.through.table, rel.through.scopes, rel.firstKey, Defined(page, local), []);
    FlatGroupsFetched(groups, found, Group(byParent, Spell(Col(row, local))), second, db, rel.related, rel.secondKey,
                      Defined(links, second), constraint);
  }

  /** The two queries of a through relation, filed by the key that joins them and by parent. */
  method FetchThrough(conn: Connection, model: Model, page: seq<Row>, rel: Relation, constraint: seq<Clause>)
    returns (groups: map<string, seq<Instance>>, byParent: map<string, seq<Row>>, found: seq<Instance>)
    requires IsThrough(rel)
    modifies conn
    ensures Through(groups, byParent, found, conn.db, model, rel, constraint, page)
    ensures forall x <- found :: fresh(x)
    ensures conn.queries <= old(conn.queries) + 2
  {
    var local, second := Default(rel.localKey, model.primaryKey), Default(rel.secondLocalKey, rel.through.primaryKey);
    var keys := PageKeys(page, local);
    var links := FetchLinks(conn, rel.through.table, rel.through.scopes, rel.firstKey, keys, []);
    var secondKeys := PageKeys(links, second);
    found := FetchPage(conn, rel.related, [], rel.secondKey, secondKeys, constraint);
    groups := GroupBy(found, rel.secondKey);
    byParent := GroupRows(links, rel.firstKey);
  }

  method FindThrough(conn: Connection, model: Model, page: seq<Row>, rel: Relation, constraint: seq<Clause>)
    returns (find: Row -> Loaded)
    requires IsThrough(rel)
    modifies conn
    ensures forall row :: Content(find(row)) == Shape(rel, BatchedThrough(conn.db, model, rel, constraint, page, row))
    ensures forall row :: forall y <- Members(find(row)) :: fresh(y)
    ensures conn.queries <= old(conn.queries) + 2
  {
    var groups, byParent, found := FetchThrough(conn, model, page, rel, constraint);
    find := (row: Row) =>
      if ToOne(rel) then FirstOf(ThroughOf(groups, byParent, model, rel, row))
      else Many(ThroughOf(groups, byParent, model, rel, row));
    forall row
      ensures Content(find(row)) == Shape(rel, BatchedThrough(conn.db, model, rel, constraint, page, row))
      ensures forall y <- Members(find(row)) :: y in found
    {
      ThroughGroups(groups, byParent, found, conn.db, model, rel, constraint, page, row);
      ShapedContent(rel, ThroughOf(groups, byParent, model, rel, row));
    }
  }

  lemma ShapedContent(rel: Relation, group: seq<Instance>)
    ensures Content(if ToOne(rel) then FirstOf(group) else Many(group)) == Shape(rel, RowsOf(group))
    ensures forall y <- Members(if ToOne(rel) then FirstOf(group) else Many(group)) :: y in group
  {
  }

  /** `byKey` indexes the instances fetched for a pivot relation. */
  ghost predicate Indexed(byKey: map<string, Instance>, found: seq<Instance>, db: Db, spec: PivotSpec, keys: set<Value>,
                          constraint: seq<Clause>)
  {
    && RowsOf(found) == Fetch(db, spec.related, [], spec.relatedKey, keys, constraint)
    && (forall k {:trigger k in byKey} :: k in byKey <==> Filed(RowsOf(found), spec.relatedKey, k) != [])
    && (forall k {:trigger k in byKey} :: k in byKey ==>
          byKey[k] in found && Last(Filed(RowsOf(found), spec.relatedKey, k)) == Single(byKey[k].row))
  }

  lemma IndexedLink(byKey: map<string, Instance>, found: seq<Instance>, db: Db, spec: PivotSpec, keys: set<Value>,
                    constraint: seq<Clause>, link: Row)
    requires Indexed(byKey, found, db, spec, keys, constraint)
    ensures
      var key := Spell(Col(link, spec.relatedPivotKey));
      Linked(db, link, spec, keys, constraint)
        == if key in byKey then [WithPivot(byKey[key].row, link, spec.columns)] else []
  {
  }

  lemma {:induction false} FlatLinkedSnoc(db: Db, links: seq<Row>, link: Row, spec: PivotSpec, keys: set<Value>,
                                          constraint: seq<Clause>)
    ensures FlatLinked(db, links + [link], spec, keys, constraint)
         == FlatLinked(db, links, spec, keys, constraint) + Linked(db, link, spec, keys, constraint)
  {
    if links == [] {
      FlatLinkedCons(db, link, [], spec, keys, constraint);
      assert links + [link] == [link] + [];
    } else {
      assert links + [link] == [links[0]] + (links[1..] + [link]);
      FlatLinkedCons(db, links[0], links[1..] + [link], spec, keys, constraint);
      FlatLinkedSnoc(db, links[1..], link, spec, keys, constraint);
      Associates(Linked(db, links[0], spec, keys, constraint), FlatLinked(db, links[1..], spec, keys, constraint),
                 Linked(db, link, spec, keys, constraint));
    }
  }

  lemma FlatLinkedCons(db: Db, link: Row, rest: seq<Row>, spec: PivotSpec, keys: set<Value>, constraint: seq<Clause>)
    ensures FlatLinked(db, [link] + rest, spec, keys, constraint)
         == Linked(db, link, spec, keys, constraint) + FlatLinked(db, rest, spec, keys, constraint)
  {
    assert ([link] + rest)[1..] == rest;
  }

  lemma Associates<T>(a: seq<T>, b: seq<T>, c: seq<T>)
    ensures a + (b + c) == a + b + c
  {
  }

  /** A related instance as one attachment shows it: shared, or hydrated anew when it must show pivot columns. */
  method Show(related: Instance, link: Row, columns: seq<string>) returns (shown: Instance)
    ensures shown.row == WithPivot(related.row, link, columns)
    ensures shown == related || fresh(shown)
  {
    shown := related;
    if columns != [] {
      shown := new Instance(related.model, WithPivot(related.row, link, columns));
    } else {
      assert WithPivot(related.row, link, []) == related.row;
    }
  }

  /** The instance one pivot row links to, if any. */
  method ShowLink(link: Row, byKey: map<string, Instance>, ghost found: seq<Instance>, spec: PivotSpec,
                  ghost db: Db, ghost keys: set<Value>, ghost constraint: seq<Clause>, ghost pool: set<Instance>)
    returns (shown: seq<Instance>, ghost wider: set<Instance>)
    requires Indexed(byKey, found, db, spec, keys, constraint)
    requires forall x <- found :: x in pool
    ensures RowsOf(shown) == Linked(db, link, spec, keys, constraint)
    ensures pool <= wider && fresh(wider - pool) && forall x <- shown :: x in wider
  {
    IndexedLink(byKey, found, db, spec, keys, constraint, link);
    shown, wider := [], pool;
    var key := Spell(Col(link, spec.relatedPivotKey));
    if key in byKey {
      var instance := Show(byKey[key], link, spec.columns);
      shown, wider := [instance], pool + {instance};
    }
  }

  lemma RowsOfPlus(a: seq<Instance>, b: seq<Instance>)
    ensures RowsOf(a + b) == RowsOf(a) + RowsOf(b)
  {
  }

  lemma AttachMore(attached: seq<Instance>, shown: seq<Instance>, links: seq<Row>, link: Row, db: Db, spec: PivotSpec,
                   keys: set<Value>, constraint: seq<Clause>)
    requires RowsOf(attached) == FlatLinked(db, links, spec, keys, constraint)
    requires RowsOf(shown) == Linked(db, link, spec, keys, constraint)
    ensures RowsOf(attached + shown) == FlatLinked(db, links + [link], spec, keys, constraint)
  {
    FlatLinkedSnoc(db, links, link, spec, keys, constraint);
    RowsOfPlus(attached, shown);
  }

  lemma AllWithin(a: seq<Instance>, b: seq<Instance>, pool: set<Instance>, wider: set<Instance>)
    requires (forall x <- a :: x in pool) && pool <= wider && forall x <- b :: x in wider
    ensures forall x <- a + b :: x in wider
  {
  }

  /** The related instances one parent's pivot rows link to; `pool` holds all that may be shown. */
  method AttachLinked(links: seq<Row>, byKey: map<string, Instance>, ghost found: seq<Instance>, spec: PivotSpec,
                      ghost db: Db, ghost keys: set<Value>, ghost constraint: seq<Clause>, ghost pool: set<Instance>)
    returns (attached: seq<Instance>, ghost wider: set<Instance>)
    requires Indexed(byKey, found, db, spec, keys, constraint)
    requires forall x <- found :: x in pool
    ensures RowsOf(attached) == FlatLinked(db, links, spec, keys, constraint)
    ensures pool <= wider && fresh(wider - pool) && forall x <- attached :: x in wider
  {
    attached, wider := [], pool;
    for i := 0 to |links|
      invariant RowsOf(attached) == FlatLinked(db, links[..i], spec, keys, constraint)
      invariant pool <= wider && fresh(wider - pool) && forall x <- attached :: x in wider
    {
      ghost var before := wider;
      var shown;
      shown, wider := ShowLink(links[i], byKey, found, spec, db, keys, constraint, wider);
      AttachMore(attached, shown, links[..i], links[i], db, spec, keys, constraint);
      assert links[..i + 1] == links[..i] + [links[i]];
      AllWithin(attached, shown, before, wider);
      attached := attached + shown;
    }
    assert links[..|links|] == links;
  }

  /** Everything listed is among `pool`. */
  ghost predicate Within(lists: seq<seq<Instance>>, pool: set<Instance>) {
    forall l <- lists :: forall x <- l :: x in pool
  }

  /** `grouped` files the pivot rows of a page so that each parent's group links to what the batch attaches. */
  ghost predicate Grouped(grouped: map<string, seq<Row>>, db: Db, spec: PivotSpec, keys: set<Value>,
                          constraint: seq<Clause>, page: seq<Row>)
  {
    var links := LinkRows(db, spec.pivotTable, [], spec.thisPivotKey, Defined(page, spec.localKey),
                          Discriminated(spec));
    && keys == Defined(links, spec.relatedPivotKey)
    && forall k {:trigger Group(grouped, k)} :: Group(grouped, k) == Filed(links, spec.thisPivotKey, k)
  }

  lemma GroupedLinks(grouped: map<string, seq<Row>>, db: Db, spec: PivotSpec, keys: set<Value>,
                     constraint: seq<Clause>, page: seq<Row>, row: Row)
    requires Grouped(grouped, db, spec, keys, constraint, page)
    ensures FlatLinked(db, Group(grouped, Spell(Col(row, spec.localKey))), spec, keys, constraint)
         == BatchedPivot(db, spec, constraint, page, row)
  {
  }

  /** Reads the pivot rows of a page, grouped by parent key, and the related instances they point at. */
  method FetchPivot(conn: Connection, page: seq<Row>, spec: PivotSpec, constraint: seq<Clause>)
    returns (grouped: map<string, seq<Row>>, byKey: map<string, Instance>, found: seq<Instance>,
             relatedKeys: set<Value>)
    modifies conn
    ensures Indexed(byKey, found, conn.db, spec, relatedKeys, constraint)
    ensures forall x <- found :: fresh(x)
    ensures Grouped(grouped, conn.db, spec, relatedKeys, constraint, page)
    ensures conn.queries <= old(conn.queries) + 2
  {
    var keys := PageKeys(page, spec.localKey);
    var links := FetchLinks(conn, spec.pivotTable, [], spec.thisPivotKey, keys, Discriminated(spec));
    relatedKeys := PageKeys(links, spec.relatedPivotKey);
    found := FetchPage(conn, spec.related, [], spec.relatedKey, relatedKeys, constraint);
    byKey := KeyBy(found, spec.relatedKey);
    grouped := GroupRows(links, spec.thisPivotKey);
  }

  /** The lists hold what the first groups link to. */
  ghost predicate Follow(lists: seq<seq<Instance>>, groups: seq<seq<Row>>, db: Db, spec: PivotSpec, keys: set<Value>,
                         constraint: seq<Clause>)
  {
    && |lists| <= |groups|
    && forall i :: 0 <= i < |lists| ==> RowsOf(lists[i]) == FlatLinked(db, groups[i], spec, keys, constraint)
  }

  lemma FollowPlus(lists: seq<seq<Instance>>, list: seq<Instance>, groups: seq<seq<Row>>, db: Db, spec: PivotSpec,
                   keys: set<Value>, constraint: seq<Clause>)
    requires Follow(lists, groups, db, spec, keys, constraint) && |lists| < |groups|
    requires RowsOf(list) == FlatLinked(db, groups[|lists|], spec, keys, constraint)
    ensures Follow(lists + [list], groups, db, spec, keys, constraint)
  {
  }

  lemma WithinPlus(lists: seq<seq<Instance>>, list: seq<Instance>, pool: set<Instance>, wider: set<Instance>)
    requires Within(lists, pool) && pool <= wider && forall x <- list :: x in wider
    ensures Within(lists + [list], wider)
  {
  }

  /** Every parent's own attachments, in page order. */
  method LinkedLists(groups: seq<seq<Row>>, byKey: map<string, Instance>, ghost found: seq<Instance>, spec: PivotSpec,
                     ghost db: Db, ghost keys: set<Value>, ghost constraint: seq<Clause>, ghost pool: set<Instance>)
    returns (lists: seq<seq<Instance>>, ghost wider: set<Instance>)
    requires Indexed(byKey, found, db, spec, keys, constraint)
    requires forall x <- found :: x in pool
    ensures |lists| == |groups| && Follow(lists, groups, db, spec, keys, constraint)
    ensures pool <= wider && fresh(wider - pool) && Within(lists, wider)
  {
    lists, wider := [], pool;
    for i := 0 to |groups|
      invariant |lists| == i && Follow(lists, groups, db, spec, keys, constraint)
      invariant pool <= wider && fresh(wider - pool) && Within(lists, wider)
    {
      ghost var before := wider;
      var attached;
      attached, wider := AttachLinked(groups[i], byKey, found, spec, db, keys, constraint, wider);
      FollowPlus(lists, attached, groups, db, spec, keys, constraint);
      WithinPlus(lists, attached, before, wider);
      lists := lists + [attached];
    }
  }

  method PivotValues(conn: Connection, page: seq<Row>, model: Model, rel: Relation, constraint: seq<Clause>)
    returns (values: seq<Loaded>, ghost shown: set<Instance>)
    requires IsPivot(rel)
    modifies conn
    ensures |values| == |page|
    ensures forall i :: 0 <= i < |page| ==>
      ShowsBatched(values[i], conn.db, model, rel, constraint, page, page[i], shown)
    ensures fresh(shown) && conn.queries <= old(conn.queries) + 2
  {
    var spec := PivotOf(model, rel);
    var grouped, byKey, found, keys := FetchPivot(conn, page, spec, constraint);
    ghost var pool := set x | x in found;
    var lists;
    lists, shown := LinkedLists(GroupsOf(grouped, page, spec), byKey, found, spec, conn.db, keys, constraint, pool);
    assert fresh(pool);
    GroupedLists(grouped, lists, conn.db, spec, keys, constraint, page);
    values := ManyOf(lists);
    ManyShow(lists, conn.db, model, rel, constraint, page, shown);
  }

  function ManyOf(lists: seq<seq<Instance>>): (values: seq<Loaded>)
    ensures |values| == |lists| && forall i :: 0 <= i < |lists| ==> values[i] == Many(lists[i])
  {
    seq(|lists|, i requires 0 <= i < |lists| => Many(lists[i]))
  }

  lemma ListShows(list: seq<Instance>, db: Db, model: Model, rel: Relation, constraint: seq<Clause>, page: seq<Row>,
                  row: Row, pool: set<Instance>)
    requires IsPivot(rel) && forall x <- list :: x in pool
    requires RowsOf(list) == BatchedPivot(db, PivotOf(model, rel), constraint, page, row)
    ensures ShowsBatched(Many(list), db, model, rel, constraint, page, row, pool)
  {
  }

  lemma ManyShow(lists: seq<seq<Instance>>, db: Db, model: Model, rel: Relation, constraint: seq<Clause>,
                 page: seq<Row>,
                 pool: set<Instance>)
    requires IsPivot(rel) && |lists| == |page| && Within(lists, pool)
    requires forall i :: 0 <= i < |page| ==>
      RowsOf(lists[i]) == BatchedPivot(db, PivotOf(model, rel), constraint, page, page[i])
    ensures forall i :: 0 <= i < |page| ==>
      ShowsBatched(ManyOf(lists)[i], db, model, rel, constraint, page, page[i], pool)
  {
    forall i | 0 <= i < |page|
      ensures ShowsBatched(ManyOf(lists)[i], db, model, rel, constraint, page, page[i], pool)
    {
      assert lists[i] in lists;
      ListShows(lists[i], db, model, rel, constraint, page, page[i], pool);
    }
  }

  /** The pivot rows of every parent of the page. */
  function GroupsOf(grouped: map<string, seq<Row>>, page: seq<Row>, spec: PivotSpec): (groups: seq<seq<Row>>)
    ensures |groups| == |page|
    ensures forall i :: 0 <= i < |page| ==> groups[i] == Group(grouped, Spell(Col(page[i], spec.localKey)))
  {
    seq(|page|, i requires 0 <= i < |page| => Group(grouped, Spell(Col(page[i], spec.localKey))))
  }

  lemma GroupedLists(grouped: map<string, seq<Row>>, lists: seq<seq<Instance>>, db: Db, spec: PivotSpec,
                     keys: set<Value>, constraint: seq<Clause>, page: seq<Row>)
    requires Grouped(grouped, db, spec, keys, constraint, page) && |lists| == |page|
    requires Follow(lists, GroupsOf(grouped, page, spec), db, spec, keys, constraint)
    ensures forall i :: 0 <= i < |page| ==> RowsOf(lists[i]) == BatchedPivot(db, spec, constraint, page, page[i])
  {
    forall i | 0 <= i < |page| ensures RowsOf(lists[i]) == BatchedPivot(db, spec, constraint, page, page[i]) {
      GroupedLinks(grouped, db, spec, keys, constraint, page, page[i]);
    }
  }

  /** Sets relation `name` of every instance of the page to the value at its place. */
  method AttachEach(instances: seq<Instance>, name: string, values: seq<Loaded>)
    requires |values| == |instances|
    modifies set x | x in instances
    ensures forall x <- instances :: PlacedAt(instances, values, x, name, x.relations, old(x.relations), |instances|)
  {
    for i := 0 to |instances|
      invariant forall x <- instances ::
        if x in instances[..i] then PlacedAt(instances, values, x, name, x.relations, old(x.relations), i)
        else x.relations == old(x.relations)
    {
      instances[i].SetRelation(name, values[i]);
      assert instances[..i + 1] == instances[..i] + [instances[i]];
    }
    assert instances[..|instances|] == instances;
  }

  /** `after` is `before` with `name` set to the value at one of `x`'s places among the first `n`. */
  ghost predicate PlacedAt(instances: seq<Instance>, values: seq<Loaded>, x: Instance, name: string,
                           after: map<string, Loaded>, before: map<string, Loaded>, n: nat)
    requires |values| == |instances|
  {
    exists i :: 0 <= i < n <= |instances| && instances[i] == x && SetIn(after, before, name, values[i])
  }

  method LoadPivot(conn: Connection, model: Model, instances: seq<Instance>, name: string, rel: Relation,
                   constraint: seq<Clause>)
    requires IsPivot(rel)
    modifies conn, set x | x in instances
    ensures forall x <- instances :: name in x.relations && x.relations - {name} == old(x.relations) - {name}
    ensures forall x <- instances :: forall y <- Members(x.relations[name]) :: fresh(y)
    ensures forall x <- instances ::
      Content(x.relations[name]) == Batched(conn.db, model, rel, constraint, RowsOf(instances), x.row)
    ensures conn.queries <= old(conn.queries) + 2
  {
    var values;
    ghost var shown;
    values, shown := PivotValues(conn, RowsOf(instances), model, rel, constraint);
    AttachEach(instances, name, values);
    forall x | x in instances
      ensures name in x.relations && x.relations - {name} == old(x.relations) - {name}
      ensures forall y <- Members(x.relations[name]) :: y in shown
      ensures Content(x.relations[name]) == Batched(conn.db, model, rel, constraint, RowsOf(instances), x.row)
    {
      PlacedShows(conn.db, model, rel, constraint, instances, values, x, name, x.relations, old(x.relations), shown);
    }
  }

  /** What the batch attaches to `row`, shown by instances among `pool`. */
  ghost predicate ShowsBatched(l: Loaded, db: Db, model: Model, rel: Relation, constraint: seq<Clause>, page: seq<Row>,
                               row: Row, pool: set<Instance>)
  {
    Content(l) == Batched(db, model, rel, constraint, page, row) && forall y <- Members(l) :: y in pool
  }

  lemma PlacedShows(db: Db, model: Model, rel: Relation, constraint: seq<Clause>, instances: seq<Instance>,
                    values: seq<Loaded>, x: Instance, name: string, after: map<string, Loaded>,
                    before: map<string, Loaded>, pool: set<Instance>)
    requires |values| == |instances| && PlacedAt(instances, values, x, name, after, before, |instances|)
    requires forall i :: 0 <= i < |values| ==>
      ShowsBatched(values[i], db, model, rel, constraint, RowsOf(instances), RowsOf(instances)[i], pool)
    ensures name in after && after - {name} == before - {name}
    ensures ShowsBatched(after[name], db, model, rel, constraint, RowsOf(instances), x.row, pool)
  {
    var i :| 0 <= i < |instances| && instances[i] == x && SetIn(after, before, name, values[i]);
    assert RowsOf(instances)[i] == x.row;
  }

  // ----------------------------------------------------------------- morphTo

  /** Two composite keys are the same only when both halves are, if one key or both discriminants hold no other NUL. */
  lemma CompositeInjective(a: string, b: string, c: string, d: string)
    requires a + [NUL] + b == c + [NUL] + d
    requires NUL !in c && (NUL !in d || NUL !in a)
    ensures a == c && b == d
  {
    var s := a + [NUL] + b;
    assert s[|a|] == NUL && s[|c|] == NUL;
    assert forall i :: 0 <= i < |c| ==> s[i] == c[i];
    assert forall i :: |c| < i < |s| ==> s[i] == d[i - |c| - 1];
    assert forall i :: 0 <= i < |a| ==> s[i] == a[i];
    assert |a| == |c|;
    assert a == s[..|a|] && c == s[..|c|];
    assert b == s[|a| + 1..] && d == s[|c| + 1..];
  }

  const NUL: char := '\0'

  function Composite(discriminant: string, id: string): string { discriminant + [NUL] + id }

  /** The discriminants that ask for an id, in order of first appearance. */
  function Appearing(m: MorphTo, page: seq<Row>): seq<string> {
    if page == [] then []
    else
      var before, row := Appearing(m, page[..|page| - 1]), page[|page| - 1];
      var t := Spell(Col(row, m.morphType));
      if Col(row, m.morphType) == Null || Col(row, m.morphId) == Null || t in before then before else before + [t]
  }

  /** The ids each discriminant of the page asks for. */
  method IdsByType(m: MorphTo, page: seq<Row>) returns (ids: map<string, set<Value>>, order: seq<string>)
    ensures Asks(ids, m, page) && Listed(order, ids.Keys) && order == Appearing(m, page)
  {
    ids, order := map[], [];
    for i := 0 to |page|
      invariant Asks(ids, m, page[..i]) && Listed(order, ids.Keys) && order == Appearing(m, page[..i])
    {
      assert page[..i + 1][..i] == page[..i];
      var typeValue, idValue := Col(page[i], m.morphType), Col(page[i], m.morphId);
      AsksSnoc(ids, m, page[..i], page[i]);
      assert page[..i + 1] == page[..i] + [page[i]];
      if typeValue != Null && idValue != Null {
        var t := Spell(typeValue);
        order := if t in ids then order else order + [t];
        ids := ids[t := (if t in ids then ids[t] else {}) + {idValue}];
      }
    }
    assert page[..|page|] == page;
  }

  ghost predicate Listed<T(!new)>(order: seq<T>, all: set<T>) {
    && (forall t :: t in order <==> t in all)
    && forall i, j :: 0 <= i < j < |order| ==> order[i] != order[j]
  }

  lemma AsksSnoc(ids: map<string, set<Value>>, m: MorphTo, page: seq<Row>, row: Row)
    requires Asks(ids, m, page)
    ensures
      var typeValue, idValue := Col(row, m.morphType), Col(row, m.morphId);
      var t := Spell(typeValue);
      Asks(if typeValue == Null || idValue == Null then ids
           else ids[t := (if t in ids then ids[t] else {}) + {idValue}], m, page + [row])
  {
    var typeValue, idValue := Col(row, m.morphType), Col(row, m.morphId);
    var t := Spell(typeValue);
    var more := if typeValue == Null || idValue == Null then ids
                else ids[t := (if t in ids then ids[t] else {}) + {idValue}];
    forall u ensures AsksAt(more, m, page + [row], u) {
      assert AsksAt(ids, m, page, u);
      IdsOfTypeSnoc(m, page, row, u);
    }
  }

  lemma IdsOfTypeSnoc(m: MorphTo, page: seq<Row>, row: Row, t: string)
    ensures IdsOfType(m, page + [row], t) == IdsOfType(m, page, t)
      + if Col(row, m.morphType) != Null && Spell(Col(row, m.morphType)) == t && Col(row, m.morphId) != Null
        then {Col(row, m.morphId)} else {}
  {
    var more := page + [row];
    assert more[|page|] == row && row in more;
    assert forall r :: r in more <==> r in page || r == row;
    forall v | v in IdsOfType(m, page, t) ensures v in IdsOfType(m, more, t) {
      var r :| r in page && Col(r, m.morphType) != Null && Spell(Col(r, m.morphType)) == t
               && Col(r, m.morphId) != Null && v == Col(r, m.morphId);
      assert r in more;
    }
  }

  ghost predicate NulFree(rows: seq<Row>, column: string) {
    forall r <- rows :: NUL !in Spell(Col(r, column))
  }

  /** No instance stands under two keys. */
  ghost predicate Apart(index: map<string, Instance>) {
    forall k, l :: k in index && l in index && index[k] == index[l] ==> k == l
  }

  ghost predicate ApartFrom(index: map<string, Instance>, found: seq<Instance>) {
    Apart(index) && Distinct(found) && forall k :: k in index ==> index[k] !in found
  }

  lemma ApartStep(index: map<string, Instance>, found: seq<Instance>, key: string)
    requires ApartFrom(index, found) && found != []
    ensures ApartFrom(index[key := found[0]], found[1..])
  {
  }

  /** `key` is a composite key of discriminant `t`, or continues that past a NUL. */
  predicate Under(key: string, t: string) { |t| < |key| && key[..|t|] == t && key[|t|] == NUL }

  /** The rows that come under the key as rows of discriminant `t`. */
  function FiledUnder(rows: seq<Row>, ownerKey: string, t: string, key: string): (filed: seq<Row>)
    ensures forall r <- filed :: r in rows && Composite(t, Spell(Col(r, ownerKey))) == key
  {
    if Under(key, t) then Filed(rows, ownerKey, key[|t| + 1..]) else []
  }

  lemma FiledUnderSnoc(rows: seq<Row>, row: Row, ownerKey: string, t: string, key: string)
    ensures FiledUnder(rows + [row], ownerKey, t, key)
         == FiledUnder(rows, ownerKey, t, key) + if Composite(t, Spell(Col(row, ownerKey))) == key then [row] else []
  {
    if Under(key, t) {
      FiledSnoc(rows, row, ownerKey, key[|t| + 1..]);
      CompositeParts(t, Spell(Col(row, ownerKey)));
      assert key == Composite(t, key[|t| + 1..]);
    } else {
      CompositeParts(t, Spell(Col(row, ownerKey)));
    }
  }

  lemma CompositeParts(t: string, id: string)
    ensures Under(Composite(t, id), t) && Composite(t, id)[|t| + 1..] == id
  {
  }

  /** Under `key` the index holds the last of the rows found that come under it, or else what it held before. */
  ghost predicate SetOver(index: map<string, Instance>, before: map<string, Instance>, found: seq<Instance>,
                          ownerKey: string, t: string, key: string)
  {
    SetTo(index, before, found, FiledUnder(RowsOf(found), ownerKey, t, key), key)
  }

  ghost predicate SetTo(index: map<string, Instance>, before: map<string, Instance>, found: seq<Instance>,
                        filed: seq<Row>, key: string)
  {
    if filed == [] then (key in index <==> key in before) && (key in before ==> index[key] == before[key])
    else key in index && index[key] in found && index[key].row == filed[|filed| - 1]
  }

  /** `index` holds the first `i` rows found for discriminant `t`, over what it held before. */
  ghost predicate IndexedTo(index: map<string, Instance>, before: map<string, Instance>, found: seq<Instance>, i: nat,
                            ownerKey: string, t: string)
    requires i <= |found|
  {
    && (forall key :: SetOver(index, before, found[..i], ownerKey, t, key))
    && (ApartFrom(before, found) ==> ApartFrom(index, found[i..]))
  }

  lemma SetOverStep(index: map<string, Instance>, before: map<string, Instance>, found: seq<Instance>, x: Instance,
                    ownerKey: string, t: string, key: string)
    requires SetOver(index, before, found, ownerKey, t, key)
    ensures SetOver(index[Composite(t, Spell(Col(x.row, ownerKey))) := x], before, found + [x], ownerKey, t, key)
  {
    FiledUnderSnoc(RowsOf(found), x.row, ownerKey, t, key);
    assert RowsOf(found + [x]) == RowsOf(found) + [x.row];
    if Composite(t, Spell(Col(x.row, ownerKey))) != key {
      assert FiledUnder(RowsOf(found + [x]), ownerKey, t, key) == FiledUnder(RowsOf(found), ownerKey, t, key);
    }
  }

  lemma IndexedStep(index: map<string, Instance>, before: map<string, Instance>, found: seq<Instance>, i: nat,
                    ownerKey: string, t: string)
    requires i < |found| && IndexedTo(index, before, found, i, ownerKey, t)
    ensures IndexedTo(index[Composite(t, Spell(Col(found[i].row, ownerKey))) := found[i]], before, found, i + 1,
                      ownerKey, t)
  {
    var more := index[Composite(t, Spell(Col(found[i].row, ownerKey))) := found[i]];
    var next := found[..i + 1];
    assert next == found[..i] + [found[i]];
    forall key ensures SetOver(more, before, next, ownerKey, t, key) {
      SetOverStep(index, before, found[..i], found[i], ownerKey, t, key);
    }
    if ApartFrom(before, found) {
      ApartStep(index, found[i..], Composite(t, Spell(Col(found[i].row, ownerKey))));
      assert found[i..][1..] == found[i + 1..];
    }
  }

  /** Sets every fetched row of one discriminant under its composite key; later rows win. */
  method IndexType(before: map<string, Instance>, found: seq<Instance>, ownerKey: string, t: string)
    returns (index: map<string, Instance>)
    ensures IndexedTo(index, before, found, |found|, ownerKey, t)
  {
    index := before;
    NothingIndexed(before, found, ownerKey, t);
    for i := 0 to |found|
      invariant IndexedTo(index, before, found, i, ownerKey, t)
    {
      IndexedStep(index, before, found, i, ownerKey, t);
      var key := Spell(Col(found[i].row, ownerKey));
      index := index[Composite(t, key) := found[i]];
    }
  }

  lemma NothingIndexed(before: map<string, Instance>, found: seq<Instance>, ownerKey: string, t: string)
    ensures IndexedTo(before, before, found, 0, ownerKey, t)
  {
    assert found[0..] == found;
  }

  lemma AllIndexed(index: map<string, Instance>, before: map<string, Instance>, found: seq<Instance>, ownerKey: string,
                   t: string)
    requires IndexedTo(index, before, found, |found|, ownerKey, t)
    ensures forall key :: SetOver(index, before, found, ownerKey, t, key)
    ensures ApartFrom(before, found) ==> Apart(index)
    ensures forall x <- index.Values :: x in found || x in before.Values
  {
    assert found[..|found|] == found;
    forall x | x in index.Values ensures x in found || x in before.Values {
      var key :| key in index && index[key] == x;
      assert SetOver(index, before, found, ownerKey, t, key);
    }
  }

  /** No discriminant of the declaration and no key of its tables holds a NUL. */
  ghost predicate NulFreeTypes(db: Db, m: MorphTo) {
    forall t <- m.types ::
      NUL !in t && NulFree(Table(db, m.types[t].table), Default(m.ownerKey, m.types[t].primaryKey))
  }

  /** The rows fetched for discriminant `t`. */
  function TypedRows(db: Db, m: MorphTo, constraints: string -> seq<Clause>, page: seq<Row>, t: string): seq<Row>
    requires t in m.types
  {
    Fetch(db, m.types[t], [], Default(m.ownerKey, m.types[t].primaryKey), IdsOfType(m, page, t), constraints(t))
  }

  /** Those of them that come under the key. */
  function TypedUnder(db: Db, m: MorphTo, constraints: string -> seq<Clause>, page: seq<Row>, t: string, key: string)
    : seq<Row>
  {
    if t !in m.types then []
    else FiledUnder(TypedRows(db, m, constraints, page, t), Default(m.ownerKey, m.types[t].primaryKey), t, key)
  }

  /** The discriminant whose row stands under the key in the end: the last of them that has one. */
  function Holder(db: Db, m: MorphTo, constraints: string -> seq<Clause>, page: seq<Row>, order: seq<string>,
                  key: string): (holder: Option<string>)
    ensures holder.Some? ==>
      && holder.value in order && holder.value in m.types
      && TypedUnder(db, m, constraints, page, holder.value, key) != []
    ensures holder.None? ==> forall t <- order :: TypedUnder(db, m, constraints, page, t, key) == []
  {
    if order == [] then None
    else if TypedUnder(db, m, constraints, page, order[|order| - 1], key) != [] then Some(order[|order| - 1])
    else
      assert order == order[..|order| - 1] + [order[|order| - 1]];
      Holder(db, m, constraints, page, order[..|order| - 1], key)
  }

  /** The index holds, under the key, the last row of its holder as an instance of the holder's model. */
  ghost predicate HoldsUnder(index: map<string, Instance>, db: Db, m: MorphTo, constraints: string -> seq<Clause>,
                             page: seq<Row>, order: seq<string>, key: string)
  {
    match Holder(db, m, constraints, page, order, key)
    case None => key !in index
    case Some(t) => Held(index, m.types[t], TypedUnder(db, m, constraints, page, t, key), key)
  }

  ghost predicate Held(index: map<string, Instance>, model: Model, rows: seq<Row>, key: string) {
    key in index && index[key].model == model && Single(index[key].row) == Last(rows)
  }

  lemma SetIsHeld(index: map<string, Instance>, before: map<string, Instance>, found: seq<Instance>, model: Model,
                  filed: seq<Row>, other: Model, rows: seq<Row>, key: string)
    requires SetTo(index, before, found, filed, key) && forall x <- found :: x.model == model
    ensures filed != [] ==> Held(index, model, filed, key)
    ensures filed == [] ==> (key in index <==> key in before)
    ensures filed == [] && Held(before, other, rows, key) ==> Held(index, other, rows, key)
  {
  }

  lemma HolderSnoc(db: Db, m: MorphTo, constraints: string -> seq<Clause>, page: seq<Row>, order: seq<string>,
                   t: string, key: string)
    ensures Holder(db, m, constraints, page, order + [t], key)
         == if TypedUnder(db, m, constraints, page, t, key) != [] then Some(t)
            else Holder(db, m, constraints, page, order, key)
  {
    assert (order + [t])[..|order|] == order;
  }

  ghost predicate HoldsAll(index: map<string, Instance>, db: Db, m: MorphTo, constraints: string -> seq<Clause>,
                           page: seq<Row>, order: seq<string>)
  {
    forall key :: HoldsUnder(index, db, m, constraints, page, order, key)
  }

  lemma NothingHeld(db: Db, m: MorphTo, constraints: string -> seq<Clause>, page: seq<Row>)
    ensures HoldsAll(map[], db, m, constraints, page, [])
  {
  }

  lemma HoldsStepAt(index: map<string, Instance>, before: map<string, Instance>, found: seq<Instance>, db: Db,
                    m: MorphTo, constraints: string -> seq<Clause>, page: seq<Row>, order: seq<string>, t: string,
                    key: string)
    requires HoldsUnder(before, db, m, constraints, page, order, key) && t in m.types
    requires RowsOf(found) == TypedRows(db, m, constraints, page, t) && forall x <- found :: x.model == m.types[t]
    requires SetOver(index, before, found, Default(m.ownerKey, m.types[t].primaryKey), t, key)
    ensures HoldsUnder(index, db, m, constraints, page, order + [t], key)
  {
    HolderSnoc(db, m, constraints, page, order, t, key);
    var filed, holder := TypedUnder(db, m, constraints, page, t, key), Holder(db, m, constraints, page, order, key);
    if holder.Some? {
      SetIsHeld(index, before, found, m.types[t], filed, m.types[holder.value],
                TypedUnder(db, m, constraints, page, holder.value, key), key);
    } else {
      SetIsHeld(index, before, found, m.types[t], filed, m.types[t], [], key);
    }
  }

  lemma HoldsStep(index: map<string, Instance>, before: map<string, Instance>, found: seq<Instance>, db: Db, m: MorphTo,
                  constraints: string -> seq<Clause>, page: seq<Row>, order: seq<string>, t: string)
    requires HoldsAll(before, db, m, constraints, page, order) && t in m.types
    requires RowsOf(found) == TypedRows(db, m, constraints, page, t) && forall x <- found :: x.model == m.types[t]
    requires forall key :: SetOver(index, before, found, Default(m.ownerKey, m.types[t].primaryKey), t, key)
    ensures HoldsAll(index, db, m, constraints, page, order + [t])
  {
    var more := order + [t];
    forall key ensures HoldsUnder(index, db, m, constraints, page, more, key) {
      HoldsStepAt(index, before, found, db, m, constraints, page, order, t, key);
    }
  }

  lemma HoldsUnresolved(index: map<string, Instance>, db: Db, m: MorphTo, constraints: string -> seq<Clause>,
                        page: seq<Row>, order: seq<string>, t: string)
    requires HoldsAll(index, db, m, constraints, page, order) && t !in m.types
    ensures HoldsAll(index, db, m, constraints, page, order + [t])
  {
    var more := order + [t];
    forall key ensures HoldsUnder(index, db, m, constraints, page, more, key) {
      assert HoldsUnder(index, db, m, constraints, page, order, key);
      HolderSnoc(db, m, constraints, page, order, t, key);
    }
  }

  /** The discriminants of the page that resolve to a model. */
  ghost function Discriminants(m: MorphTo, page: seq<Row>): set<string> {
    set t | t in m.types && IdsOfType(m, page, t) != {}
  }

  /** `ids` holds what each discriminant of the page asks for. */
  ghost predicate Asks(ids: map<string, set<Value>>, m: MorphTo, page: seq<Row>) {
    forall t {:trigger AsksAt(ids, m, page, t)} :: AsksAt(ids, m, page, t)
  }

  ghost predicate AsksAt(ids: map<string, set<Value>>, m: MorphTo, page: seq<Row>, t: string) {
    && (t in ids <==> IdsOfType(m, page, t) != {})
    && (t in ids ==> ids[t] == IdsOfType(m, page, t))
  }

  /** How many of the discriminants listed resolve to a model. */
  ghost function Resolved(order: seq<string>, m: MorphTo): nat {
    if order == [] then 0 else Resolved(order[..|order| - 1], m) + if order[|order| - 1] in m.types then 1 else 0
  }

  lemma ResolvedSnoc(order: seq<string>, t: string, m: MorphTo)
    ensures Resolved(order + [t], m) == Resolved(order, m) + if t in m.types then 1 else 0
  {
    assert (order + [t])[..|order|] == order;
  }

  lemma {:induction false} ResolvedCount(order: seq<string>, m: MorphTo)
    requires forall i, j :: 0 <= i < j < |order| ==> order[i] != order[j]
    ensures Resolved(order, m) == |set t | t in order && t in m.types|
  {
    if order != [] {
      var init, last := order[..|order| - 1], order[|order| - 1];
      ResolvedCount(init, m);
      var all, fewer := set t | t in order && t in m.types, set t | t in init && t in m.types;
      assert last !in fewer && order[|order| - 1] == last;
      forall t ensures t in all <==> t in fewer || (t == last && last in m.types) {
        assert t in order <==> t in init + [last];
      }
      assert all == if last in m.types then fewer + {last} else fewer;
    }
  }

  lemma ResolvedDiscriminants(ids: map<string, set<Value>>, order: seq<string>, m: MorphTo, page: seq<Row>)
    requires Asks(ids, m, page) && Listed(order, ids.Keys)
    ensures Resolved(order, m) == |Discriminants(m, page)|
  {
    ResolvedCount(order, m);
    forall t ensures t in order <==> IdsOfType(m, page, t) != {} {
      assert AsksAt(ids, m, page, t);
    }
    assert (set t | t in order && t in m.types) == Discriminants(m, page);
  }

  /** One query per distinct discriminant of the page that resolves to a model. */
  method FetchTypes(conn: Connection, page: seq<Row>, m: MorphTo, constraints: string -> seq<Clause>)
    returns (index: map<string, Instance>)
    modifies conn
    ensures HoldsAll(index, conn.db, m, constraints, page, Appearing(m, page))
    ensures fresh(index.Values) && Apart(index)
    ensures conn.queries == old(conn.queries) + |Discriminants(m, page)|
  {
    var ids, order := IdsByType(m, page);
    index := map[];
    ResolvedDiscriminants(ids, order, m, page);
    NothingHeld(conn.db, m, constraints, page);
    assert order[..0] == [];
    for i := 0 to |order|
      invariant conn.queries == old(conn.queries) + Resolved(order[..i], m)
      invariant fresh(index.Values) && Apart(index)
      invariant HoldsAll(index, conn.db, m, constraints, page, order[..i])
    {
      assert order[..i + 1] == order[..i] + [order[i]];
      ResolvedSnoc(order[..i], order[i], m);
      index := FetchType(conn, page, m, constraints, index, order[i], ids, order[..i]);
    }
    assert order[..|order|] == order;
  }

  /** Fetches and indexes what one discriminant asks for; one that resolves to no model asks nothing. */
  method FetchType(conn: Connection, page: seq<Row>, m: MorphTo, constraints: string -> seq<Clause>,
                   before: map<string, Instance>, t: string, ids: map<string, set<Value>>, ghost order: seq<string>)
    returns (index: map<string, Instance>)
    requires t in ids && Asks(ids, m, page) && HoldsAll(before, conn.db, m, constraints, page, order)
    modifies conn
    ensures HoldsAll(index, conn.db, m, constraints, page, order + [t])
    ensures fresh(index.Values - before.Values) && (Apart(before) ==> Apart(index))
    ensures conn.queries == old(conn.queries) + if t in m.types then 1 else 0
  {
    assert AsksAt(ids, m, page, t);
    if t !in m.types {
      index := before;
      HoldsUnresolved(index, conn.db, m, constraints, page, order, t);
      return;
    }
    var ownerKey := Default(m.ownerKey, m.types[t].primaryKey);
    var found := FetchPage(conn, m.types[t], [], ownerKey, ids[t], constraints(t));
    index := IndexType(before, found, ownerKey, t);
    AllIndexed(index, before, found, ownerKey, t);
    HoldsStep(index, before, found, conn.db, m, constraints, page, order, t);
  }

  function RowKey(m: MorphTo, row: Row): string {
    Composite(Spell(Col(row, m.morphType)), Spell(Col(row, m.morphId)))
  }

  function ByComposite(index: map<string, Instance>, m: MorphTo, row: Row): Loaded {
    var key := RowKey(m, row);
    if Col(row, m.morphType).Null? || Col(row, m.morphId).Null? || key !in index then Missing else One(index[key])
  }

  /** The discriminant that a row's parent is taken from. */
  function HolderOf(db: Db, m: MorphTo, constraints: string -> seq<Clause>, page: seq<Row>, row: Row): Option<string> {
    if Col(row, m.morphType).Null? || Col(row, m.morphId).Null? then None
    else Holder(db, m, constraints, page, Appearing(m, page), RowKey(m, row))
  }

  /** `value` is the last row of that discriminant under the row's key. */
  ghost predicate Taken(value: Loaded, db: Db, m: MorphTo, constraints: string -> seq<Clause>, page: seq<Row>,
                        row: Row)
  {
    match HolderOf(db, m, constraints, page, row)
    case None => value == Missing
    case Some(t) =>
      && value.One? && value.instance.model == m.types[t]
      && Content(value) == Last(TypedUnder(db, m, constraints, page, t, RowKey(m, row)))
  }

  /** A discriminant that is not the row's own holds its key. */
  ghost predicate Displaced(db: Db, m: MorphTo, constraints: string -> seq<Clause>, page: seq<Row>, row: Row) {
    var holder := HolderOf(db, m, constraints, page, row);
    holder.Some? && holder.value != Spell(Col(row, m.morphType))
  }

  /** Keys joined by NUL give each row what stands under its key; rows that share an instance share the key. */
  method FindMorphTo(conn: Connection, page: seq<Row>, m: MorphTo, constraints: string -> seq<Clause>)
    returns (find: Row -> Loaded)
    modifies conn
    ensures forall row :: forall y <- Members(find(row)) :: fresh(y)
    ensures forall row :: !find(row).Many? && Taken(find(row), conn.db, m, constraints, page, row)
    ensures forall r, s :: Share(find(r), find(s)) ==> RowKey(m, r) == RowKey(m, s)
    ensures conn.queries == old(conn.queries) + |Discriminants(m, page)|
  {
    var index := FetchTypes(conn, page, m, constraints);
    find := (row: Row) => ByComposite(index, m, row);
    forall row ensures forall y <- Members(find(row)) :: y in index.Values {
    }
    forall row ensures Taken(find(row), conn.db, m, constraints, page, row) {
      assert HoldsUnder(index, conn.db, m, constraints, page, Appearing(m, page), RowKey(m, row));
    }
  }

  lemma AppearingAsks(m: MorphTo, page: seq<Row>, t: string)
    ensures t in Appearing(m, page) <==> IdsOfType(m, page, t) != {}
  {
    if page != [] {
      var before, row := page[..|page| - 1], page[|page| - 1];
      AppearingAsks(m, before, t);
      IdsOfTypeSnoc(m, before, row, t);
      assert before + [row] == page;
    }
  }

  /** What its own discriminant has under the key of a row is what the batch attaches to it. */
  lemma OwnUnder(db: Db, m: MorphTo, constraints: string -> seq<Clause>, page: seq<Row>, row: Row)
    requires Col(row, m.morphType) != Null && Col(row, m.morphId) != Null
    ensures Last(TypedUnder(db, m, constraints, page, Spell(Col(row, m.morphType)), RowKey(m, row)))
         == BatchedMorphTo(db, m, constraints, page, row)
  {
    CompositeParts(Spell(Col(row, m.morphType)), Spell(Col(row, m.morphId)));
  }

  lemma UndisplacedFinds(value: Loaded, db: Db, m: MorphTo, constraints: string -> seq<Clause>, page: seq<Row>,
                         row: Row)
    requires Taken(value, db, m, constraints, page, row) && !Displaced(db, m, constraints, page, row)
    ensures Finds(value, db, m, constraints, page, row)
  {
    if Col(row, m.morphType) != Null && Col(row, m.morphId) != Null {
      OwnUnder(db, m, constraints, page, row);
      AppearingAsks(m, page, Spell(Col(row, m.morphType)));
    }
  }

  /**
   * A row is given what the batch attaches to it, as an instance of the model its discriminant names, if and only if
   * its key is not displaced, or is by a row that cannot be told from that.
   */
  lemma FindsUnlessDisplaced(value: Loaded, db: Db, m: MorphTo, constraints: string -> seq<Clause>, page: seq<Row>,
                             row: Row)
    requires Taken(value, db, m, constraints, page, row)
    ensures Finds(value, db, m, constraints, page, row) <==>
      || !Displaced(db, m, constraints, page, row)
      || (var own, holder := Spell(Col(row, m.morphType)), HolderOf(db, m, constraints, page, row).value;
          && own in m.types && m.types[own] == m.types[holder]
          && Last(TypedUnder(db, m, constraints, page, own, RowKey(m, row)))
          == Last(TypedUnder(db, m, constraints, page, holder, RowKey(m, row))))
  {
    if !Displaced(db, m, constraints, page, row) {
      UndisplacedFinds(value, db, m, constraints, page, row);
    } else {
      OwnUnder(db, m, constraints, page, row);
    }
  }

  /** Only a discriminant that continues the row's own past a NUL, or that the row's own continues, displaces it. */
  lemma DisplacedContinues(db: Db, m: MorphTo, constraints: string -> seq<Clause>, page: seq<Row>, row: Row)
    requires Displaced(db, m, constraints, page, row)
    ensures
      var own, holder := Spell(Col(row, m.morphType)), HolderOf(db, m, constraints, page, row).value;
      && holder in m.types && holder in Appearing(m, page)
      && (Under(own, holder) || (Under(holder, own) && own != holder))
  {
    var own, id := Spell(Col(row, m.morphType)), Spell(Col(row, m.morphId));
    var holder, key := HolderOf(db, m, constraints, page, row).value, Composite(own, id);
    assert Under(key, holder) && key[..|own|] == own;
    if |holder| < |own| {
      assert own[..|holder|] == key[..|holder|] && own[|holder|] == key[|holder|];
    } else if |holder| > |own| {
      assert holder[..|own|] == key[..|own|] && holder[|own|] == key[|own|];
    }
  }

  /** So none does where no declared discriminant and no owner key holds a NUL. */
  lemma NulFreeIsUndisplaced(db: Db, m: MorphTo, constraints: string -> seq<Clause>, page: seq<Row>, row: Row)
    requires NulFreeTypes(db, m)
    ensures !Displaced(db, m, constraints, page, row)
  {
    if Displaced(db, m, constraints, page, row) {
      DisplacedContinues(db, m, constraints, page, row);
      var own, id := Spell(Col(row, m.morphType)), Spell(Col(row, m.morphId));
      var holder := HolderOf(db, m, constraints, page, row).value;
      var r := TypedUnder(db, m, constraints, page, holder, RowKey(m, row))[0];
      CompositeInjective(own, id, holder, Spell(Col(r, Default(m.ownerKey, m.types[holder].primaryKey))));
    }
  }

  /** `value` is what the batch attaches to the row: nothing, or an instance of the model its discriminant names. */
  ghost predicate Finds(value: Loaded, db: Db, m: MorphTo, constraints: string -> seq<Clause>, page: seq<Row>,
                        row: Row) {
    && Content(value) == BatchedMorphTo(db, m, constraints, page, row)
    && (value.One? ==>
          Spell(Col(row, m.morphType)) in m.types && value.instance.model == m.types[Spell(Col(row, m.morphType))])
  }

  /** Both show the same instance. */
  predicate Share(a: Loaded, b: Loaded) { a.One? && b.One? && a.instance == b.instance }

  const PHOTO := Model("photos", "id", "photo", [])
  const CLIP := Model("clips", "id", "clip", [])

  /** A photo whose key, and a clip whose discriminant, holds a NUL; a row that points at each. */
  function NulTypes(a: string, b: string): MorphTo {
    MorphTo("type", "ref", None, map[a := PHOTO, Composite(a, b) := CLIP])
  }

  function NulDb(b: string, c: string): Db {
    map["photos" := [KeyedRow(Composite(b, c))], "clips" := [KeyedRow(c)]]
  }

  function KeyedRow(key: string): Row { map["id" := Str(key)] }

  function PointingRow(discriminant: string, id: string): Row { map["type" := Str(discriminant), "ref" := Str(id)] }

  function NulPage(a: string, b: string, c: string): seq<Row> {
    [PointingRow(a, Composite(b, c)), PointingRow(Composite(a, b), c)]
  }

  lemma OneFetched(db: Db, model: Model, row: Row, id: string)
    requires Table(db, model.table) == [row] && model.scopes == [] && row == KeyedRow(id)
    ensures Fetch(db, model, [], "id", {Str(id)}, []) == [row]
  {
    var among := In("id", {Str(id)});
    assert model.scopes + [] + [among] + [] == [among];
    assert among.test(row) == True;
    assert Holds([among], row) == True;
    assert [row][1..] == [] && Select([row], [among]) == [row];
  }

  lemma NulAsks(a: string, b: string, c: string)
    ensures Appearing(NulTypes(a, b), NulPage(a, b, c)) == [a, Composite(a, b)]
    ensures IdsOfType(NulTypes(a, b), NulPage(a, b, c), a) == {Str(Composite(b, c))}
    ensures IdsOfType(NulTypes(a, b), NulPage(a, b, c), Composite(a, b)) == {Str(c)}
  {
    var m, page := NulTypes(a, b), NulPage(a, b, c);
    assert |Composite(a, b)| > |a|;
    assert page[..1] == [page[0]] && page[..1][..0] == [];
    assert Appearing(m, []) == [] && Appearing(m, page[..1]) == [a];
    assert page[0] in page && page[1] in page;
  }

  lemma MatchesOwn(db: Db, model: Model, row: Row, id: string)
    requires Table(db, model.table) == [row] && model.scopes == [] && row == KeyedRow(id)
    ensures Matched(db, model, [], "id", [], Str(id)) == [row]
  {
    assert [row][1..] == [];
    assert model.scopes + [] + [ALWAYS] + [] == [ALWAYS] && Holds([ALWAYS], row) == True;
    assert Matching([row], model.scopes + [], "id", Str(id), []) == [row];
  }

  lemma NulHolder(a: string, b: string, c: string, constraints: string -> seq<Clause>)
    requires constraints(Composite(a, b)) == []
    ensures
      var db, m, page := NulDb(b, c), NulTypes(a, b), NulPage(a, b, c);
      && TypedUnder(db, m, constraints, page, Composite(a, b), Composite(a, Composite(b, c))) == [KeyedRow(c)]
      && HolderOf(db, m, constraints, page, page[0]) == Some(Composite(a, b))
  {
    var db, m, page := NulDb(b, c), NulTypes(a, b), NulPage(a, b, c);
    var clip, key := Composite(a, b), Composite(a, Composite(b, c));
    NulAsks(a, b, c);
    OneFetched(db, CLIP, KeyedRow(c), c);
    assert key == Composite(clip, c);
    FiledUnderSnoc([], KeyedRow(c), "id", clip, key);
    assert [] + [KeyedRow(c)] == [KeyedRow(c)];
    assert TypedUnder(db, m, constraints, page, clip, key) == [KeyedRow(c)];
    assert [a, clip][|[a, clip]| - 1] == clip;
  }

  lemma PhotoIsJoined(a: string, b: string, c: string, constraints: string -> seq<Clause>)
    requires constraints(a) == []
    ensures JoinedMorphTo(NulDb(b, c), NulTypes(a, b), constraints, PointingRow(a, Composite(b, c)))
         == Single(KeyedRow(Composite(b, c)))
  {
    assert |Composite(a, b)| > |a|;
    MatchesOwn(NulDb(b, c), PHOTO, KeyedRow(Composite(b, c)), Composite(b, c));
  }

  /**
   * With a NUL in a discriminant and in a key, one page of two rows is enough: the photo's row is given the clip, as an
   * instance of the clips' class.
   */
  lemma NulMisfiles(value: Loaded, a: string, b: string, c: string, constraints: string -> seq<Clause>)
    requires constraints(a) == [] && constraints(Composite(a, b)) == []
    requires Taken(value, NulDb(b, c), NulTypes(a, b), constraints, NulPage(a, b, c), NulPage(a, b, c)[0])
    ensures JoinedMorphTo(NulDb(b, c), NulTypes(a, b), constraints, NulPage(a, b, c)[0])
         == Single(KeyedRow(Composite(b, c)))
    ensures value.One? && value.instance.model == CLIP && value.instance.row == KeyedRow(c)
  {
    NulHolder(a, b, c, constraints);
    PhotoIsJoined(a, b, c, constraints);
  }

  /** The kinds whose fetched instances are looked up by the parent's row alone. */
  method FindShared(conn: Connection, model: Model, page: seq<Row>, rel: Relation, constraint: seq<Clause>)
    returns (find: Row -> Loaded)
    requires !IsPivot(rel)
    modifies conn
    ensures forall row :: Content(find(row)) == Batched(conn.db, model, rel, constraint, page, row)
    ensures forall row :: forall y <- Members(find(row)) :: fresh(y)
    ensures conn.queries <= old(conn.queries) + if IsThrough(rel) then 2 else 1
  {
    if rel.BelongsTo? {
      find := FindBelongsTo(conn, page, rel, constraint);
    } else if IsHas(rel) {
      find := FindHas(conn, model, page, rel, constraint);
    } else {
      find := FindThrough(conn, model, page, rel, constraint);
    }
  }

  method LoadShared(conn: Connection, model: Model, instances: seq<Instance>, name: string, rel: Relation,
                    constraint: seq<Clause>)
    requires !IsPivot(rel)
    modifies conn, set x | x in instances
    ensures forall x <- instances :: name in x.relations && x.relations - {name} == old(x.relations) - {name}
    ensures forall x <- instances :: forall y <- Members(x.relations[name]) :: fresh(y)
    ensures forall x <- instances ::
      Content(x.relations[name]) == Batched(conn.db, model, rel, constraint, RowsOf(instances), x.row)
    ensures conn.queries <= old(conn.queries) + if IsThrough(rel) then 2 else 1
  {
    var find := FindShared(conn, model, RowsOf(instances), rel, constraint);
    AttachAll(instances, name, find);
  }

  /** `loadOne` for every kind but `morphTo`. */
  method LoadRelation(conn: Connection, model: Model, instances: seq<Instance>, name: string, rel: Relation,
                      constraint: seq<Clause>)
    modifies conn, set x | x in instances
    ensures forall x <- instances :: name in x.relations && x.relations - {name} == old(x.relations) - {name}
    ensures forall x <- instances :: forall y <- Members(x.relations[name]) :: fresh(y)
    ensures forall x <- instances ::
      Content(x.relations[name]) == Batched(conn.db, model, rel, constraint, RowsOf(instances), x.row)
    ensures conn.queries <= old(conn.queries) + if IsThrough(rel) || IsPivot(rel) then 2 else 1
  {
    if IsPivot(rel) {
      LoadPivot(conn, model, instances, name, rel, constraint);
    } else {
      LoadShared(conn, model, instances, name, rel, constraint);
    }
  }

  /** `loadOne` for `morphTo`. */
  method LoadMorphTo(conn: Connection, instances: seq<Instance>, name: string, m: MorphTo,
                     constraints: string -> seq<Clause>)
    modifies conn, set x | x in instances
    ensures forall x <- instances ::
      name in x.relations && x.relations - {name} == old(x.relations) - {name} && !x.relations[name].Many?
    ensures forall x <- instances :: forall y <- Members(x.relations[name]) :: fresh(y)
    ensures forall x <- instances ::
      Taken(x.relations[name], conn.db, m, constraints, RowsOf(instances), x.row)
    ensures forall x, y :: x in instances && y in instances && Share(x.relations[name], y.relations[name]) ==>
      RowKey(m, x.row) == RowKey(m, y.row)
    ensures NulFreeTypes(conn.db, m) ==>
      forall x <- instances :: Finds(x.relations[name], conn.db, m, constraints, RowsOf(instances), x.row)
    ensures NulFreeTypes(conn.db, m) ==>
      forall x, y :: x in instances && y in instances && Share(x.relations[name], y.relations[name]) ==>
        Spell(Col(x.row, m.morphType)) == Spell(Col(y.row, m.morphType))
    ensures conn.queries == old(conn.queries) + |Discriminants(m, RowsOf(instances))|
  {
    var find := FindMorphTo(conn, RowsOf(instances), m, constraints);
    AttachAll(instances, name, find);
    if NulFreeTypes(conn.db, m) {
      forall x | x in instances
        ensures Finds(x.relations[name], conn.db, m, constraints, RowsOf(instances), x.row)
      {
        NulFreeIsUndisplaced(conn.db, m, constraints, RowsOf(instances), x.row);
        UndisplacedFinds(x.relations[name], conn.db, m, constraints, RowsOf(instances), x.row);
      }
      forall x, y | x in instances && y in instances && Share(x.relations[name], y.relations[name])
        ensures Spell(Col(x.row, m.morphType)) == Spell(Col(y.row, m.morphType))
      {
        NulFreeIsUndisplaced(conn.db, m, constraints, RowsOf(instances), x.row);
        NulFreeIsUndisplaced(conn.db, m, constraints, RowsOf(instances), y.row);
      }
    }
  }

  /** `collected` lists the members of the values, once each. */
  ghost predicate Collected(collected: seq<Instance>, values: seq<Loaded>) {
    && Distinct(collected)
    && (forall y <- collected :: exists i :: 0 <= i < |values| && y in Members(values[i]))
    && forall i, y :: 0 <= i < |values| && y in Members(values[i]) ==> y in collected
  }

  /** Everything attached, value by value. */
  function Flat(values: seq<Loaded>): seq<Instance> {
    if values == [] then [] else Flat(values[..|values| - 1]) + Members(values[|values| - 1])
  }

  lemma {:induction false} FlatHolds(values: seq<Loaded>, y: Instance)
    ensures y in Flat(values) <==> exists i :: 0 <= i < |values| && y in Members(values[i])
  {
    if values != [] {
      var init, last := values[..|values| - 1], |values| - 1;
      FlatHolds(init, y);
      if i :| 0 <= i < |values| && y in Members(values[i]) {
        assert i < last ==> init[i] == values[i];
      }
    }
  }

  lemma FirstsAreCollected(collected: seq<Instance>, values: seq<Loaded>)
    requires Firsts(collected, Flat(values))
    ensures Collected(collected, values)
  {
    forall y | y in collected ensures exists i :: 0 <= i < |values| && y in Members(values[i]) {
      FlatHolds(values, y);
    }
    forall i, y | 0 <= i < |values| && y in Members(values[i]) ensures y in collected {
      FlatHolds(values, y);
    }
  }

  /** The members not yet seen are added, in order. */
  method PushEach(members: seq<Instance>, before: seq<Instance>) returns (collected: seq<Instance>)
    ensures collected == Added(before, members)
  {
    var seen := set y | y in before;
    collected := before;
    for j := 0 to |members|
      invariant (forall y :: y in seen <==> y in collected) && collected == Added(before, members[..j])
    {
      assert members[..j + 1][..j] == members[..j];
      if members[j] !in seen {
        seen := seen + {members[j]};
        collected := collected + [members[j]];
      }
    }
    assert members[..|members|] == members;
  }

  /** Every instance attached across a page, once each, in order of first appearance. */
  method CollectRelated(values: seq<Loaded>) returns (collected: seq<Instance>)
    ensures Collected(collected, values) && Firsts(collected, Flat(values))
  {
    collected := [];
    for i := 0 to |values|
      invariant collected == Uniques(Flat(values[..i]))
    {
      assert values[..i + 1][..i] == values[..i];
      AddedIsUniques(Flat(values[..i]), Members(values[i]));
      collected := PushEach(Members(values[i]), collected);
    }
    assert values[..|values|] == values;
    UniquesAreFirsts(Flat(values));
    FirstsAreCollected(collected, values);
  }
}
