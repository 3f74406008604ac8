/** Relation declarations, what loading one for a page of parents fetches, and what each means as a join. */
module Relations {
  import opened Text
  import opened Rows

  /** A model class: its table, its primary key column, its polymorphic alias and its global scopes. */
  datatype Model = Model(table: string, primaryKey: string, alias: string, scopes: seq<Clause>)

  type Db = map<string, seq<Row>>

  function Table(db: Db, name: string): seq<Row> {
    if name in db then db[name] else []
  }

  datatype Relation =
    | BelongsTo(related: Model, foreignKey: string, ownerKey: Option<string>)
    | HasOne(related: Model, foreignKey: string, localKey: Option<string>)
    | HasMany(related: Model, foreignKey: string, localKey: Option<string>)
    | MorphOne(related: Model, morphType: string, morphId: string, localKey: Option<string>, typeName: Option<string>)
    | MorphMany(related: Model, morphType: string, morphId: string, localKey: Option<string>, typeName: Option<string>)
    | HasOneThrough(related: Model, through: Model, firstKey: string, secondKey: string,
                    localKey: Option<string>, secondLocalKey: Option<string>)
    | HasManyThrough(related: Model, through: Model, firstKey: string, secondKey: string,
                     localKey: Option<string>, secondLocalKey: Option<string>)
    | BelongsToMany(related: Model, pivotTable: string, foreignPivotKey: string, relatedPivotKey: string,
                    localKey: Option<string>, relatedKey: Option<string>, columns: seq<string>)
    | MorphToMany(related: Model, pivotTable: string, morphType: string, morphId: string, relatedPivotKey: string,
                  localKey: Option<string>, relatedKey: Option<string>, typeName: Option<string>, columns: seq<string>)
    | MorphedByMany(related: Model, pivotTable: string, morphType: string, morphId: string, foreignPivotKey: string,
                    localKey: Option<string>, relatedKey: Option<string>, typeName: Option<string>,
                    columns: seq<string>)

  /** A `morphTo`; `types` is the declaration's own map laid over the global morph map. */
  datatype MorphTo = MorphTo(morphType: string, morphId: string, ownerKey: Option<string>, types: map<string, Model>)

  function Default<T>(option: Option<T>, default: T): T {
    match option case Some(v) => v case None => default
  }

  /** A pivot-backed relation reduced to which pivot column points where. */
  datatype PivotSpec = PivotSpec(related: Model, pivotTable: string, thisPivotKey: string, relatedPivotKey: string,
                                 localKey: string, relatedKey: string, discriminant: Option<(string, string)>,
                                 columns: seq<string>)

  predicate IsPivot(rel: Relation) {
    rel.BelongsToMany? || rel.MorphToMany? || rel.MorphedByMany?
  }

  /** The loader's defaults for each pivot-backed kind on `model`. */
  function PivotOf(model: Model, rel: Relation): PivotSpec
    requires IsPivot(rel)
  {
    match rel
    case BelongsToMany(related, pivot, foreign, relatedPivot, localKey, relatedKey, columns) =>
      PivotSpec(related, pivot, foreign, relatedPivot, Default(localKey, model.primaryKey),
                Default(relatedKey, related.primaryKey),
                None, columns)
    case MorphToMany(related, pivot, morphType, morphId, relatedPivot, localKey, relatedKey, typeName, columns) =>
      PivotSpec(related, pivot, morphId, relatedPivot, Default(localKey, model.primaryKey),
                Default(relatedKey, related.primaryKey),
                Some((morphType, Default(typeName, model.alias))), columns)
    case MorphedByMany(related, pivot, morphType, morphId, foreign, localKey, relatedKey, typeName, columns) =>
      PivotSpec(related, pivot, foreign, morphId, Default(localKey, model.primaryKey),
                Default(relatedKey, related.primaryKey),
                Some((morphType, Default(typeName, related.alias))), columns)
  }

  function Discriminated(spec: PivotSpec): seq<Clause> {
    match spec.discriminant case None => [] case Some(d) => [Is(d.0, Str(d.1))]
  }

  /** What a relation attaches to one parent. */
  datatype Attached = Absent | Single(row: Row) | Several(rows: seq<Row>)

  function First(rows: seq<Row>): Attached { if rows == [] then Absent else Single(rows[0]) }

  function Last(rows: seq<Row>): Attached { if rows == [] then Absent else Single(rows[|rows| - 1]) }

  function AttachedRows(a: Attached): seq<Row> {
    match a case Absent => [] case Single(r) => [r] case Several(rs) => rs
  }

  // ------------------------------------------------------------ as a batch

  /** One batched query: nothing is asked for no keys. */
  function Fetch(db: Db, related: Model, before: seq<Clause>, column: string, keys: set<Value>, constraint: seq<Clause>)
    : seq<Row>
  {
    if keys == {} then []
    else Select(Table(db, related.table), related.scopes + before + [In(column, keys)] + constraint)
  }

  function Fetched(db: Db, related: Model, before: seq<Clause>, column: string, keys: set<Value>,
                   constraint: seq<Clause>, key: Value): seq<Row>
  {
    Filed(Fetch(db, related, before, column, keys, constraint), column, Spell(key))
  }

  function TypeClause(morphType: string, typeName: Option<string>, model: Model): seq<Clause> {
    [Is(morphType, Str(Default(typeName, model.alias)))]
  }

  /** The through or pivot rows fetched for a page of parents. */
  function LinkRows(db: Db, table: string, scopes: seq<Clause>, key: string, keys: set<Value>,
                    after: seq<Clause>): seq<Row> {
    if keys == {} then [] else Select(Table(db, table), scopes + [In(key, keys)] + after)
  }

  function FlatFetched(db: Db, links: seq<Row>, linkKey: string, related: Model, column: string, keys: set<Value>,
                       constraint: seq<Clause>): seq<Row>
  {
    if links == [] then []
    else
      Fetched(db, related, [], column, keys, constraint, Col(links[0], linkKey))
      + FlatFetched(db, links[1..], linkKey, related, column, keys, constraint)
  }

  /** A related row as one attachment shows it: with that attachment's pivot columns, when any are asked for. */
  function WithPivot(row: Row, link: Row, columns: seq<string>): Row {
    row + PivotColumns(link, columns)
  }

  function PivotColumns(link: Row, columns: seq<string>): Row {
    if columns == [] then map[]
    else
      var c := columns[|columns| - 1];
      PivotColumns(link, columns[..|columns| - 1])["pivot__" + c := Col(link, c)]
  }

  function FlatLinked(db: Db, links: seq<Row>, spec: PivotSpec, keys: set<Value>, constraint: seq<Clause>): seq<Row> {
    if links == [] then []
    else Linked(db, links[0], spec, keys, constraint) + FlatLinked(db, links[1..], spec, keys, constraint)
  }

  /** What one link adds: the last row fetched under its key, with the pivot columns. */
  function Linked(db: Db, link: Row, spec: PivotSpec, keys: set<Value>, constraint: seq<Clause>): seq<Row> {
    var found := Fetched(db, spec.related, [], spec.relatedKey, keys, constraint, Col(link, spec.relatedPivotKey));
    if found == [] then [] else [WithPivot(found[|found| - 1], link, spec.columns)]
  }

  predicate IsHas(rel: Relation) { rel.HasOne? || rel.HasMany? || rel.MorphOne? || rel.MorphMany? }

  /** The column of the related table that points back at the parent. */
  function HasKey(rel: Relation): string
    requires IsHas(rel)
  {
    if rel.HasOne? || rel.HasMany? then rel.foreignKey else rel.morphId
  }

  function HasLocal(model: Model, rel: Relation): string
    requires IsHas(rel)
  {
    Default(rel.localKey, model.primaryKey)
  }

  function HasBefore(model: Model, rel: Relation): seq<Clause>
    requires IsHas(rel)
  {
    if rel.HasOne? || rel.HasMany? then [] else TypeClause(rel.morphType, rel.typeName, model)
  }

  function BatchedBelongsTo(db: Db, rel: Relation, constraint: seq<Clause>, parents: seq<Row>, parent: Row): Attached
    requires rel.BelongsTo?
  {
    if Col(parent, rel.foreignKey).Null? then Absent
    else Last(Fetched(db, rel.related, [], Default(rel.ownerKey, rel.related.primaryKey),
                      Defined(parents, rel.foreignKey),
                      constraint, Col(parent, rel.foreignKey)))
  }

  function BatchedHas(db: Db, model: Model, rel: Relation, constraint: seq<Clause>, parents: seq<Row>,
                      parent: Row): seq<Row>
    requires IsHas(rel)
  {
    Fetched(db, rel.related, HasBefore(model, rel), HasKey(rel), Defined(parents, HasLocal(model, rel)), constraint,
            Col(parent, HasLocal(model, rel)))
  }

  function BatchedPivot(db: Db, spec: PivotSpec, constraint: seq<Clause>, parents: seq<Row>, parent: Row): seq<Row> {
    var links := LinkRows(db, spec.pivotTable, [], spec.thisPivotKey, Defined(parents, spec.localKey),
                          Discriminated(spec));
    FlatLinked(db, Filed(links, spec.thisPivotKey, Spell(Col(parent, spec.localKey))), spec,
               Defined(links, spec.relatedPivotKey), constraint)
  }

  predicate ToOne(rel: Relation) { rel.BelongsTo? || rel.HasOne? || rel.MorphOne? || rel.HasOneThrough? }

  /** What loading `rel` for the page `parents` attaches to `parent`. */
  function Batched(db: Db, model: Model, rel: Relation, constraint: seq<Clause>, parents: seq<Row>,
                   parent: Row): Attached {
    if rel.BelongsTo? then BatchedBelongsTo(db, rel, constraint, parents, parent)
    else if IsHas(rel) then Shape(rel, BatchedHas(db, model, rel, constraint, parents, parent))
    else if IsThrough(rel) then Shape(rel, BatchedThrough(db, model, rel, constraint, parents, parent))
    else Shape(rel, BatchedPivot(db, PivotOf(model, rel), constraint, parents, parent))
  }

  /** A to-one relation shows the first of its rows, a to-many relation all of them. */
  function Shape(rel: Relation, rows: seq<Row>): Attached {
    if ToOne(rel) then First(rows) else Several(rows)
  }

  predicate IsThrough(rel: Relation) { rel.HasOneThrough? || rel.HasManyThrough? }

  function BatchedThrough(db: Db, model: Model, rel: Relation, constraint: seq<Clause>, parents: seq<Row>, parent: Row)
    : seq<Row>
    requires IsThrough(rel)
  {
    var local, second := Default(rel.localKey, model.primaryKey), Default(rel.secondLocalKey, rel.through.primaryKey);
    var links := LinkRows(db, rel.through.table, rel.through.scopes, rel.firstKey, Defined(parents, local), []);
    FlatFetched(db, Filed(links, rel.firstKey, Spell(Col(parent, local))), second, rel.related, rel.secondKey,
                Defined(links, second), constraint)
  }

  // ------------------------------------------------------------- as a join

  function Matched(db: Db, related: Model, before: seq<Clause>, column: string, constraint: seq<Clause>,
                   key: Value): seq<Row> {
    Matching(Table(db, related.table), related.scopes + before, column, key, constraint)
  }

  function FlatMatched(db: Db, links: seq<Row>, linkKey: string, related: Model, column: string,
                       constraint: seq<Clause>)
    : seq<Row>
  {
    if links == [] then []
    else
      Matched(db, related, [], column, constraint, Col(links[0], linkKey))
      + FlatMatched(db, links[1..], linkKey, related, column, constraint)
  }

  function FlatJoined(db: Db, links: seq<Row>, spec: PivotSpec, constraint: seq<Clause>): seq<Row> {
    if links == [] then []
    else
      var found := Matched(db, spec.related, [], spec.relatedKey, constraint, Col(links[0], spec.relatedPivotKey));
      (if found == [] then [] else [WithPivot(found[|found| - 1], links[0], spec.columns)])
      + FlatJoined(db, links[1..], spec, constraint)
  }

  /** The through rows, or pivot rows, of one parent. */
  function Links(db: Db, table: string, scopes: seq<Clause>, key: string, parentKey: Value,
                 after: seq<Clause>): seq<Row> {
    Matching(Table(db, table), scopes, key, parentKey, after)
  }

  function ThroughLinks(db: Db, model: Model, rel: Relation, parent: Row): seq<Row>
    requires IsThrough(rel)
  {
    Links(db, rel.through.table, rel.through.scopes, rel.firstKey,
          Col(parent, Default(rel.localKey, model.primaryKey)), [])
  }

  function PivotLinks(db: Db, model: Model, rel: Relation, parent: Row): seq<Row>
    requires IsPivot(rel)
  {
    SpecLinks(db, PivotOf(model, rel), parent)
  }

  function SpecLinks(db: Db, spec: PivotSpec, parent: Row): seq<Row> {
    Links(db, spec.pivotTable, [], spec.thisPivotKey, Col(parent, spec.localKey), Discriminated(spec))
  }

  function JoinedHas(db: Db, model: Model, rel: Relation, constraint: seq<Clause>, parent: Row): seq<Row>
    requires IsHas(rel)
  {
    Matched(db, rel.related, HasBefore(model, rel), HasKey(rel), constraint, Col(parent, HasLocal(model, rel)))
  }

  function JoinedThrough(db: Db, model: Model, rel: Relation, constraint: seq<Clause>, parent: Row): seq<Row>
    requires IsThrough(rel)
  {
    FlatMatched(db, ThroughLinks(db, model, rel, parent), Default(rel.secondLocalKey, rel.through.primaryKey),
                rel.related, rel.secondKey, constraint)
  }

  /** What `rel` attaches to `parent`, from the tables alone: no page, no key map, no spelling. */
  function Joined(db: Db, model: Model, rel: Relation, constraint: seq<Clause>, parent: Row): Attached {
    if rel.BelongsTo? then
      Last(Matched(db, rel.related, [], Default(rel.ownerKey, rel.related.primaryKey), constraint,
                   Col(parent, rel.foreignKey)))
    else if IsHas(rel) then Shape(rel, JoinedHas(db, model, rel, constraint, parent))
    else if IsThrough(rel) then Shape(rel, JoinedThrough(db, model, rel, constraint, parent))
    else Shape(rel, FlatJoined(db, PivotLinks(db, model, rel, parent), PivotOf(model, rel), constraint))
  }

  // ----------------------------------------------------------------- morphTo

  /** The ids a page asks of one discriminant. */
  function IdsOfType(m: MorphTo, parents: seq<Row>, discriminant: string): (ids: set<Value>)
    ensures Null !in ids
  {
    set r | r in parents && Col(r, m.morphType) != Null && Spell(Col(r, m.morphType)) == discriminant
            && Col(r, m.morphId) != Null :: Col(r, m.morphId)
  }

  function BatchedMorphTo(db: Db, m: MorphTo, constraints: string -> seq<Clause>, parents: seq<Row>,
                          parent: Row): Attached {
    var discriminant := Spell(Col(parent, m.morphType));
    if Col(parent, m.morphType).Null? || Col(parent, m.morphId).Null? || discriminant !in m.types then Absent
    else
      var related := m.types[discriminant];
      Last(Fetched(db, related, [], Default(m.ownerKey, related.primaryKey), IdsOfType(m, parents, discriminant),
                   constraints(discriminant), Col(parent, m.morphId)))
  }

  function JoinedMorphTo(db: Db, m: MorphTo, constraints: string -> seq<Clause>, parent: Row): Attached {
    var discriminant := Spell(Col(parent, m.morphType));
    if Col(parent, m.morphType).Null? || discriminant !in m.types then Absent
    else
      var related := m.types[discriminant];
      Last(Matched(db, related, [], Default(m.ownerKey, related.primaryKey), constraints(discriminant),
                   Col(parent, m.morphId)))
  }
}
