/**
 * What each kind of relation attaches, in the words of its declaration: which column of which row must equal which
 * column of which other. Nothing here is shared with the loader or the query builder but the declarations, the
 * tables and the caller's clauses.
 */
module RelationMeaning {
  import opened Text
  import opened Rows
  import opened Relations
  import opened Batching
  import opened Subqueries
  import opened Agreement
  import opened MorphAgreement

  /** SQL's `=`: the same value on both sides, and NULL on neither. */
  predicate Meet(a: Value, b: Value) { a == b && a != Null }

  lemma EqualIsMeet(a: Value, b: Value)
    ensures Equal(a, b) == True <==> Meet(a, b)
  {
  }

  /** The columns that tie a row of the related table to a parent, for the kinds without a table in between. */
  predicate Tied(model: Model, rel: Relation, parent: Row, row: Row)
    requires rel.BelongsTo? || IsHas(rel)
  {
    match rel
    case BelongsTo(related, foreignKey, ownerKey) =>
      Meet(Col(parent, foreignKey), Col(row, Default(ownerKey, related.primaryKey)))
    case HasOne(_, foreignKey, localKey) =>
      Meet(Col(parent, Default(localKey, model.primaryKey)), Col(row, foreignKey))
    case HasMany(_, foreignKey, localKey) =>
      Meet(Col(parent, Default(localKey, model.primaryKey)), Col(row, foreignKey))
    case MorphOne(_, _, morphId, localKey, _) =>
      Meet(Col(parent, Default(localKey, model.primaryKey)), Col(row, morphId))
    case MorphMany(_, _, morphId, localKey, _) =>
      Meet(Col(parent, Default(localKey, model.primaryKey)), Col(row, morphId))
  }

  /** The discriminant of a morph row of the related table: it names the parent's class. */
  function Typed(model: Model, rel: Relation): seq<Clause> {
    match rel
    case MorphOne(_, morphType, _, _, typeName) => [Is(morphType, Str(Default(typeName, model.alias)))]
    case MorphMany(_, morphType, _, _, typeName) => [Is(morphType, Str(Default(typeName, model.alias)))]
    case _ => []
  }

  predicate HasLinks(rel: Relation) { IsThrough(rel) || IsPivot(rel) }

  /** The table in between. */
  function LinkTable(rel: Relation): string
    requires HasLinks(rel)
  {
    match rel
    case HasOneThrough(_, through, _, _, _, _) => through.table
    case HasManyThrough(_, through, _, _, _, _) => through.table
    case BelongsToMany(_, pivotTable, _, _, _, _, _) => pivotTable
    case MorphToMany(_, pivotTable, _, _, _, _, _, _, _) => pivotTable
    case MorphedByMany(_, pivotTable, _, _, _, _, _, _, _) => pivotTable
  }

  /** A row in between belongs to the parent. */
  predicate OwnedBy(model: Model, rel: Relation, parent: Row, link: Row)
    requires HasLinks(rel)
  {
    match rel
    case HasOneThrough(_, _, firstKey, _, localKey, _) =>
      Meet(Col(parent, Default(localKey, model.primaryKey)), Col(link, firstKey))
    case HasManyThrough(_, _, firstKey, _, localKey, _) =>
      Meet(Col(parent, Default(localKey, model.primaryKey)), Col(link, firstKey))
    case BelongsToMany(_, _, foreignPivotKey, _, localKey, _, _) =>
      Meet(Col(parent, Default(localKey, model.primaryKey)), Col(link, foreignPivotKey))
    case MorphToMany(_, _, morphType, morphId, _, localKey, _, typeName, _) =>
      // The discriminant names the parent's class.
      && Col(link, morphType) == Str(Default(typeName, model.alias))
      && Meet(Col(parent, Default(localKey, model.primaryKey)), Col(link, morphId))
    case MorphedByMany(related, _, morphType, _, foreignPivotKey, localKey, _, typeName, _) =>
      // The discriminant names the related class.
      && Col(link, morphType) == Str(Default(typeName, related.alias))
      && Meet(Col(parent, Default(localKey, model.primaryKey)), Col(link, foreignPivotKey))
  }

  /** It leads to a row of the related table. */
  predicate LeadsTo(rel: Relation, link: Row, row: Row)
    requires HasLinks(rel)
  {
    match rel
    case HasOneThrough(_, through, _, secondKey, _, secondLocalKey) =>
      Meet(Col(link, Default(secondLocalKey, through.primaryKey)), Col(row, secondKey))
    case HasManyThrough(_, through, _, secondKey, _, secondLocalKey) =>
      Meet(Col(link, Default(secondLocalKey, through.primaryKey)), Col(row, secondKey))
    case BelongsToMany(related, _, _, relatedPivotKey, _, relatedKey, _) =>
      Meet(Col(link, relatedPivotKey), Col(row, Default(relatedKey, related.primaryKey)))
    case MorphToMany(related, _, _, _, relatedPivotKey, _, relatedKey, _, _) =>
      Meet(Col(link, relatedPivotKey), Col(row, Default(relatedKey, related.primaryKey)))
    case MorphedByMany(related, _, _, morphId, _, _, relatedKey, _, _) =>
      Meet(Col(link, morphId), Col(row, Default(relatedKey, related.primaryKey)))
  }

  /** The scopes that a row in between must pass to be followed by the loader: a pivot table has none. */
  function LinkScopes(rel: Relation): seq<Clause> {
    match rel
    case HasOneThrough(_, through, _, _, _, _) => through.scopes
    case HasManyThrough(_, through, _, _, _, _) => through.scopes
    case _ => []
  }

  /** Scopes and discriminant of the related table, then, where the loader reads its `in`, the caller's constraint. */
  ghost predicate Admitted(model: Model, rel: Relation, constraint: seq<Clause>, row: Row) {
    Holds(rel.related.scopes + Typed(model, rel) + [ALWAYS] + constraint, row) == True
  }

  /** The rows of the related table tied to the parent, in table order. */
  ghost function TiedRows(db: Db, model: Model, rel: Relation, constraint: seq<Clause>, parent: Row): seq<Row>
    requires rel.BelongsTo? || IsHas(rel)
  {
    Filter(Table(db, rel.related.table),
           (r: Row) => Tied(model, rel, parent, r) && Admitted(model, rel, constraint, r))
  }

  /** The rows in between that belong to the parent, in table order. */
  ghost function OwnLinks(db: Db, model: Model, rel: Relation, parent: Row): seq<Row>
    requires HasLinks(rel)
  {
    Filter(Table(db, LinkTable(rel)),
           (l: Row) => OwnedBy(model, rel, parent, l) && Holds(LinkScopes(rel), l) == True)
  }

  /** What one row in between leads to, in table order. */
  ghost function LedTo(db: Db, model: Model, rel: Relation, constraint: seq<Clause>, link: Row): seq<Row>
    requires HasLinks(rel)
  {
    Filter(Table(db, rel.related.table), (r: Row) => LeadsTo(rel, link, r) && Admitted(model, rel, constraint, r))
  }

  function PivotColumnNames(rel: Relation): seq<string>
    requires IsPivot(rel)
  {
    rel.columns
  }

  /** What one row in between adds: all it leads to, or, for a pivot row, the last of them with its pivot columns. */
  ghost function Adds(db: Db, model: Model, rel: Relation, constraint: seq<Clause>): Row -> seq<Row>
    requires HasLinks(rel)
  {
    (l: Row) =>
      var led := LedTo(db, model, rel, constraint, l);
      if IsThrough(rel) || led == [] then led else [WithPivot(led[|led| - 1], l, PivotColumnNames(rel))]
  }

  /** What the declaration means for one parent. */
  ghost function Meant(db: Db, model: Model, rel: Relation, constraint: seq<Clause>, parent: Row): Attached {
    match rel
    case BelongsTo(_, _, _) => Last(TiedRows(db, model, rel, constraint, parent))
    case HasOne(_, _, _) => First(TiedRows(db, model, rel, constraint, parent))
    case MorphOne(_, _, _, _, _) => First(TiedRows(db, model, rel, constraint, parent))
    case HasMany(_, _, _) => Several(TiedRows(db, model, rel, constraint, parent))
    case MorphMany(_, _, _, _, _) => Several(TiedRows(db, model, rel, constraint, parent))
    case HasOneThrough(_, _, _, _, _, _) =>
      First(Gathered(OwnLinks(db, model, rel, parent), Adds(db, model, rel, constraint)))
    case _ => Several(Gathered(OwnLinks(db, model, rel, parent), Adds(db, model, rel, constraint)))
  }

  // ------------------------------------------------------- the join means it

  lemma TiedIsMatched(db: Db, model: Model, rel: Relation, constraint: seq<Clause>, parent: Row)
    requires rel.BelongsTo? || IsHas(rel)
    ensures
      var key := if rel.BelongsTo? then Col(parent, rel.foreignKey) else Col(parent, HasLocal(model, rel));
      TiedRows(db, model, rel, constraint, parent)
      == Matched(db, rel.related, Discriminating(model, rel), ReachedColumn(model, rel), constraint, key)
  {
    var key := if rel.BelongsTo? then Col(parent, rel.foreignKey) else Col(parent, HasLocal(model, rel));
    var rows, column, before := Table(db, rel.related.table), ReachedColumn(model, rel), Discriminating(model, rel);
    assert Typed(model, rel) == before;
    MatchingIsFilter(rows, rel.related, before, column, key, constraint);
    FilterCongruent(rows, (r: Row) => Tied(model, rel, parent, r) && Admitted(model, rel, constraint, r),
                    Keep(column, {key}, LoaderPasses(rel.related, before, constraint)));
  }

  lemma OwnLinksAreLinks(db: Db, model: Model, rel: Relation, parent: Row)
    requires HasLinks(rel)
    ensures IsThrough(rel) ==> OwnLinks(db, model, rel, parent) == ThroughLinks(db, model, rel, parent)
    ensures IsPivot(rel) ==> OwnLinks(db, model, rel, parent) == PivotLinks(db, model, rel, parent)
  {
    var own := (l: Row) => OwnedBy(model, rel, parent, l) && Holds(LinkScopes(rel), l) == True;
    var rows := Table(db, LinkTable(rel));
    if IsThrough(rel) {
      var key := Col(parent, Default(rel.localKey, model.primaryKey));
      MatchingIsFilter(rows, rel.through, [], rel.firstKey, key, []);
      assert rel.through.scopes + [] == rel.through.scopes;
      forall l | l in rows
        ensures own(l) <==> Keep(rel.firstKey, {key}, LoaderPasses(rel.through, [], []))(l)
      {
        HoldsAlways(rel.through.scopes, l);
      }
      FilterCongruent(rows, own, Keep(rel.firstKey, {key}, LoaderPasses(rel.through, [], [])));
    } else {
      OwnLinksArePivotLinks(db, model, rel, parent);
    }
  }

  lemma OwnLinksArePivotLinks(db: Db, model: Model, rel: Relation, parent: Row)
    requires IsPivot(rel)
    ensures OwnLinks(db, model, rel, parent) == PivotLinks(db, model, rel, parent)
  {
    var own := (l: Row) => OwnedBy(model, rel, parent, l) && Holds(LinkScopes(rel), l) == True;
    var spec, rows := PivotOf(model, rel), Table(db, LinkTable(rel));
    var key, bare := Col(parent, spec.localKey), Model(spec.pivotTable, "", "", []);
    MatchingIsFilter(rows, bare, [], spec.thisPivotKey, key, Discriminated(spec));
    assert bare.scopes + [] == [];
    forall l | l in rows
      ensures own(l) <==> Keep(spec.thisPivotKey, {key}, LoaderPasses(bare, [], Discriminated(spec)))(l)
    {
      LinkKept(spec.pivotTable, spec.thisPivotKey, key, spec.discriminant, Discriminated(spec), l);
    }
    FilterCongruent(rows, own, Keep(spec.thisPivotKey, {key}, LoaderPasses(bare, [], Discriminated(spec))));
  }

  lemma LedToIsMatched(db: Db, model: Model, rel: Relation, constraint: seq<Clause>, link: Row)
    requires HasLinks(rel)
    ensures IsThrough(rel) ==>
      LedTo(db, model, rel, constraint, link)
      == Matched(db, rel.related, [], rel.secondKey, constraint,
                 Col(link, Default(rel.secondLocalKey, rel.through.primaryKey)))
    ensures IsPivot(rel) ==>
      var spec := PivotOf(model, rel);
      LedTo(db, model, rel, constraint, link)
      == Matched(db, spec.related, [], spec.relatedKey, constraint, Col(link, spec.relatedPivotKey))
  {
    var rows := Table(db, rel.related.table);
    var led := (r: Row) => LeadsTo(rel, link, r) && Admitted(model, rel, constraint, r);
    var column := if IsThrough(rel) then rel.secondKey else PivotOf(model, rel).relatedKey;
    var key := if IsThrough(rel) then Col(link, Default(rel.secondLocalKey, rel.through.primaryKey))
               else Col(link, PivotOf(model, rel).relatedPivotKey);
    assert Typed(model, rel) == [];
    MatchingIsFilter(rows, rel.related, [], column, key, constraint);
    FilterCongruent(rows, led, Keep(column, {key}, LoaderPasses(rel.related, [], constraint)));
  }

  lemma {:induction false} GatheredCongruent(links: seq<Row>, give: Row -> seq<Row>, other: Row -> seq<Row>)
    requires forall l <- links :: give(l) == other(l)
    ensures Gathered(links, give) == Gathered(links, other)
  {
    if links != [] {
      GatheredCongruent(links[1..], give, other);
    }
  }

  lemma AddsWhatIsLooked(db: Db, model: Model, rel: Relation, constraint: seq<Clause>, link: Row)
    requires IsThrough(rel)
    ensures Adds(db, model, rel, constraint)(link) == ThroughLooks(db, rel, constraint, [])(link)
  {
    LedToIsMatched(db, model, rel, constraint, link);
  }

  lemma LookIsMatched(db: Db, spec: PivotSpec, constraint: seq<Clause>, link: Row)
    ensures PivotLook(db, spec, constraint, [], link)
         == Matched(db, spec.related, [], spec.relatedKey, constraint, Col(link, spec.relatedPivotKey))
  {
  }

  lemma AddsLast(db: Db, model: Model, rel: Relation, constraint: seq<Clause>, link: Row, spec: PivotSpec)
    requires IsPivot(rel) && spec.related == rel.related && spec.columns == rel.columns
    requires LedTo(db, model, rel, constraint, link) == PivotLook(db, spec, constraint, [], link)
    ensures Adds(db, model, rel, constraint)(link) == Pivots(db, spec, constraint, [])(link)
  {
  }

  lemma AddsWhatIsLinked(db: Db, model: Model, rel: Relation, constraint: seq<Clause>, link: Row)
    requires IsPivot(rel)
    ensures Adds(db, model, rel, constraint)(link) == Pivots(db, PivotOf(model, rel), constraint, [])(link)
  {
    LedToIsMatched(db, model, rel, constraint, link);
    LookIsMatched(db, PivotOf(model, rel), constraint, link);
    AddsLast(db, model, rel, constraint, link, PivotOf(model, rel));
  }

  /** The join of the relation is what its declaration means, for every kind, in this order and as often. */
  lemma JoinedIsMeant(db: Db, model: Model, rel: Relation, constraint: seq<Clause>, parent: Row)
    ensures Joined(db, model, rel, constraint, parent) == Meant(db, model, rel, constraint, parent)
  {
    if IsThrough(rel) {
      JoinedShows(db, model, rel, constraint, parent);
      OwnLinksAreLinks(db, model, rel, parent);
      forall l | l in OwnLinks(db, model, rel, parent)
        ensures Adds(db, model, rel, constraint)(l) == ThroughLooks(db, rel, constraint, [])(l)
      {
        AddsWhatIsLooked(db, model, rel, constraint, l);
      }
      GatheredCongruent(OwnLinks(db, model, rel, parent), Adds(db, model, rel, constraint),
                        ThroughLooks(db, rel, constraint, []));
    } else if IsPivot(rel) {
      PivotIsMeant(db, model, rel, constraint, parent);
    } else {
      TiedIsMatched(db, model, rel, constraint, parent);
    }
  }

  lemma PivotIsMeant(db: Db, model: Model, rel: Relation, constraint: seq<Clause>, parent: Row)
    requires IsPivot(rel)
    ensures Joined(db, model, rel, constraint, parent)
         == Several(Gathered(OwnLinks(db, model, rel, parent), Adds(db, model, rel, constraint)))
  {
    var spec, links := PivotOf(model, rel), OwnLinks(db, model, rel, parent);
    OwnLinksAreLinks(db, model, rel, parent);
    PivotGathers(db, links, spec, constraint);
    forall l | l in links ensures Adds(db, model, rel, constraint)(l) == Pivots(db, spec, constraint, [])(l) {
      AddsWhatIsLinked(db, model, rel, constraint, l);
    }
    GatheredCongruent(links, Adds(db, model, rel, constraint), Pivots(db, spec, constraint, []));
  }

  /** And so is what loading any page of parents attaches to one of them. */
  lemma LoadedIsMeant(db: Db, model: Model, rel: Relation, constraint: seq<Clause>, page: seq<Row>, parent: Row)
    requires parent in page && FaithfulKeys(db, model, rel, parent)
    requires NoStrays(db, model, rel, constraint, page, parent)
    ensures Batched(db, model, rel, constraint, page, parent) == Meant(db, model, rel, constraint, parent)
  {
    BatchedIsJoined(db, model, rel, constraint, page, parent);
    JoinedIsMeant(db, model, rel, constraint, parent);
  }

  // ----------------------------------------------------------- row by row

  lemma {:induction false} GatheredHolds(links: seq<Row>, give: Row -> seq<Row>, row: Row)
    ensures row in Gathered(links, give) <==> exists l :: l in links && row in give(l)
  {
    if links != [] {
      GatheredHolds(links[1..], give, row);
      assert forall l :: l in links <==> l == links[0] || l in links[1..];
    }
  }

  /** A row of the table in between belongs to the parent and leads to the row. */
  ghost predicate Connects(db: Db, model: Model, rel: Relation, parent: Row, scopes: seq<Clause>, link: Row, row: Row)
    requires HasLinks(rel)
  {
    && link in Table(db, LinkTable(rel)) && Holds(scopes, link) == True
    && OwnedBy(model, rel, parent, link) && LeadsTo(rel, link, row)
  }

  ghost predicate Connected(db: Db, model: Model, rel: Relation, parent: Row, scopes: seq<Clause>, row: Row)
    requires HasLinks(rel)
  {
    exists l :: Connects(db, model, rel, parent, scopes, l, row)
  }

  ghost predicate LedBy(db: Db, model: Model, rel: Relation, constraint: seq<Clause>, parent: Row, link: Row, row: Row)
    requires HasLinks(rel)
  {
    link in OwnLinks(db, model, rel, parent) && row in LedTo(db, model, rel, constraint, link)
  }

  ghost predicate Led(db: Db, model: Model, rel: Relation, constraint: seq<Clause>, parent: Row, row: Row)
    requires HasLinks(rel)
  {
    exists l :: LedBy(db, model, rel, constraint, parent, l, row)
  }

  lemma LedByIsConnecting(db: Db, model: Model, rel: Relation, constraint: seq<Clause>, parent: Row, link: Row,
                          row: Row)
    requires HasLinks(rel)
    ensures LedBy(db, model, rel, constraint, parent, link, row) <==>
      && row in Table(db, rel.related.table) && Admitted(model, rel, constraint, row)
      && Connects(db, model, rel, parent, LinkScopes(rel), link, row)
  {
  }

  lemma LedIsConnected(db: Db, model: Model, rel: Relation, constraint: seq<Clause>, parent: Row, row: Row)
    requires HasLinks(rel)
    ensures Led(db, model, rel, constraint, parent, row) <==>
      && row in Table(db, rel.related.table) && Admitted(model, rel, constraint, row)
      && Connected(db, model, rel, parent, LinkScopes(rel), row)
  {
    forall l
      ensures LedBy(db, model, rel, constraint, parent, l, row) <==>
        && row in Table(db, rel.related.table) && Admitted(model, rel, constraint, row)
        && Connects(db, model, rel, parent, LinkScopes(rel), l, row)
    {
      LedByIsConnecting(db, model, rel, constraint, parent, l, row);
    }
  }

  lemma GatheredIsLed(db: Db, model: Model, rel: Relation, constraint: seq<Clause>, parent: Row, row: Row)
    requires rel.HasManyThrough? || (IsPivot(rel) && rel.columns == [])
    requires IsPivot(rel) ==> Unique(Table(db, rel.related.table), Default(rel.relatedKey, rel.related.primaryKey))
    ensures row in Gathered(OwnLinks(db, model, rel, parent), Adds(db, model, rel, constraint))
       <==> Led(db, model, rel, constraint, parent, row)
  {
    var links, adds := OwnLinks(db, model, rel, parent), Adds(db, model, rel, constraint);
    GatheredHolds(links, adds, row);
    forall l
      ensures l in links && row in adds(l) <==> LedBy(db, model, rel, constraint, parent, l, row)
    {
      if IsPivot(rel) {
        OnlyOneLedTo(db, model, rel, constraint, l);
      }
    }
  }

  /** What a to-many relation over a table in between attaches: the admitted rows that some row of it leads to. */
  lemma ConnectedAreAttached(db: Db, model: Model, rel: Relation, constraint: seq<Clause>, parent: Row, row: Row)
    requires rel.HasManyThrough? || (IsPivot(rel) && rel.columns == [])
    requires IsPivot(rel) ==> Unique(Table(db, rel.related.table), Default(rel.relatedKey, rel.related.primaryKey))
    ensures row in AttachedRows(Joined(db, model, rel, constraint, parent)) <==>
      && row in Table(db, rel.related.table) && Admitted(model, rel, constraint, row)
      && Connected(db, model, rel, parent, LinkScopes(rel), row)
  {
    JoinedIsMeant(db, model, rel, constraint, parent);
    GatheredIsLed(db, model, rel, constraint, parent, row);
    LedIsConnected(db, model, rel, constraint, parent, row);
  }

  lemma AtMostOneLedTo(db: Db, model: Model, rel: Relation, constraint: seq<Clause>, link: Row, spec: PivotSpec)
    requires IsPivot(rel) && spec == PivotOf(model, rel) && Unique(Table(db, rel.related.table), spec.relatedKey)
    ensures |LedTo(db, model, rel, constraint, link)| <= 1
  {
    LedToIsMatched(db, model, rel, constraint, link);
    UniqueMatches(Table(db, rel.related.table), rel.related.scopes + [], spec.relatedKey,
                  Col(link, spec.relatedPivotKey), constraint);
  }

  lemma OnlyOneLedTo(db: Db, model: Model, rel: Relation, constraint: seq<Clause>, link: Row)
    requires IsPivot(rel) && rel.columns == []
    requires Unique(Table(db, rel.related.table), Default(rel.relatedKey, rel.related.primaryKey))
    ensures Adds(db, model, rel, constraint)(link) == LedTo(db, model, rel, constraint, link)
  {
    AtMostOneLedTo(db, model, rel, constraint, link, PivotOf(model, rel));
    LastOfOne(LedTo(db, model, rel, constraint, link), link);
  }

  lemma LastOfOne(led: seq<Row>, link: Row)
    requires |led| <= 1
    ensures led == [] || led == [WithPivot(led[|led| - 1], link, [])]
  {
    assert led != [] ==> WithPivot(led[0], link, []) == led[0];
  }

  /** An attachment of a pivot relation shows the pivot row's columns under their prefix. */
  lemma {:induction false} PivotColumnShows(row: Row, link: Row, columns: seq<string>, column: string)
    requires column in columns
    ensures Col(WithPivot(row, link, columns), "pivot__" + column) == Col(link, column)
  {
    var init, last := columns[..|columns| - 1], columns[|columns| - 1];
    assert columns == init + [last];
    if column != last {
      PivotColumnShows(row, link, init, column);
      assert column == ("pivot__" + column)[7..] && last == ("pivot__" + last)[7..];
    }
  }

  /** And otherwise the row's own. */
  lemma {:induction false} OtherColumnStays(row: Row, link: Row, columns: seq<string>, column: string)
    requires forall c <- columns :: column != "pivot__" + c
    ensures column in WithPivot(row, link, columns) <==> column in row
    ensures Col(WithPivot(row, link, columns), column) == Col(row, column)
  {
    if columns != [] {
      var init, last := columns[..|columns| - 1], columns[|columns| - 1];
      assert last in columns && forall c <- init :: c in columns;
      OtherColumnStays(row, link, init, column);
    }
  }

  // ------------------------------------------------------- the subquery too

  /**
   * The correlated subquery, too, selects what the declaration means, for every kind, but that it asks no scopes of a
   * through row and reads the caller's constraint before discriminant and correlation.
   */
  lemma SubqueryMeans(db: Db, model: Model, rel: Relation, constraint: seq<Clause>, parent: Row, row: Row)
    requires Visible(model, rel)
    ensures row in SubqueryRows(db, model, rel, constraint, parent) <==>
      && row in Table(db, rel.related.table)
      && Holds(rel.related.scopes + constraint, row) == True && AllTrue(Typed(model, rel), row)
      && if HasLinks(rel) then Connected(db, model, rel, parent, [], row) else Tied(model, rel, parent, row)
  {
    SubqueryKeeps(db, model, rel, constraint, parent);
    if HasLinks(rel) {
      ConnectedIsReached(db, model, rel, parent, row);
    } else {
      assert Typed(model, rel) == Discriminating(model, rel);
    }
  }

  lemma ConnectedIsReached(db: Db, model: Model, rel: Relation, parent: Row, row: Row)
    requires HasLinks(rel)
    ensures Connected(db, model, rel, parent, [], row) <==>
      && Col(row, ReachedColumn(model, rel)) != Null
      && Col(row, ReachedColumn(model, rel)) in ReachedKeys(db, model, rel, parent)
  {
    if IsThrough(rel) {
      ConnectedByThrough(db, model, rel, parent, row);
    } else {
      ConnectedByPivot(db, model, rel, parent, row, PivotOf(model, rel));
    }
  }

  lemma ConnectedByPivot(db: Db, model: Model, rel: Relation, parent: Row, row: Row, spec: PivotSpec)
    requires IsPivot(rel) && spec == PivotOf(model, rel)
    ensures Connected(db, model, rel, parent, [], row) <==>
      Col(row, spec.relatedKey) != Null
      && Col(row, spec.relatedKey) in Values(PivotLinks(db, model, rel, parent), spec.relatedPivotKey)
  {
    OwnLinksArePivotLinks(db, model, rel, parent);
    forall l
      ensures Connects(db, model, rel, parent, [], l, row) <==>
        l in PivotLinks(db, model, rel, parent) && Meet(Col(l, spec.relatedPivotKey), Col(row, spec.relatedKey))
    {
    }
  }

  lemma ConnectedByThrough(db: Db, model: Model, rel: Relation, parent: Row, row: Row)
    requires IsThrough(rel)
    ensures Connected(db, model, rel, parent, [], row) <==>
      Col(row, rel.secondKey) != Null
      && Col(row, rel.secondKey) in Values(BareLinks(db, model, rel, parent),
                                           Default(rel.secondLocalKey, rel.through.primaryKey))
  {
    BareLinksAreOwned(db, model, rel, parent);
    forall l
      ensures Connects(db, model, rel, parent, [], l, row) <==>
        && l in BareLinks(db, model, rel, parent)
        && Meet(Col(l, Default(rel.secondLocalKey, rel.through.primaryKey)), Col(row, rel.secondKey))
    {
    }
  }

  lemma BareLinksAreOwned(db: Db, model: Model, rel: Relation, parent: Row)
    requires IsThrough(rel)
    ensures forall l :: l in BareLinks(db, model, rel, parent) <==>
      l in Table(db, rel.through.table) && OwnedBy(model, rel, parent, l)
  {
    var key, none := Col(parent, Default(rel.localKey, model.primaryKey)), Model("", "", "", []);
    MatchingIsFilter(Table(db, rel.through.table), none, [], rel.firstKey, key, []);
    assert none.scopes + [] == [];
    forall l: Row ensures LoaderPasses(none, [], [])(l) {
      assert none.scopes + [] + [ALWAYS] + [] == [ALWAYS];
    }
  }

  // ----------------------------------------------------------------- morphTo

  /** The row is the one a `morphTo` row points at, in the table of a class its discriminant may name. */
  predicate PointedAt(m: MorphTo, related: Model, parent: Row, row: Row) {
    Meet(Col(parent, m.morphId), Col(row, Default(m.ownerKey, related.primaryKey)))
  }

  /** The last row pointed at in the table of the class that the discriminant is declared to name. */
  lemma MorphToIsMeant(db: Db, m: MorphTo, constraints: string -> seq<Clause>, parent: Row)
    ensures
      var t := Spell(Col(parent, m.morphType));
      JoinedMorphTo(db, m, constraints, parent)
      == if Col(parent, m.morphType) == Null || t !in m.types then Absent
         else Last(Filter(Table(db, m.types[t].table),
                          (r: Row) => PointedAt(m, m.types[t], parent, r)
                                      && Holds(m.types[t].scopes + [ALWAYS] + constraints(t), r) == True))
  {
    var t := Spell(Col(parent, m.morphType));
    if Col(parent, m.morphType) != Null && t in m.types {
      var related, rows := m.types[t], Table(db, m.types[t].table);
      var column, key := Default(m.ownerKey, related.primaryKey), Col(parent, m.morphId);
      MatchingIsFilter(rows, related, [], column, key, constraints(t));
      assert related.scopes + [] == related.scopes;
      FilterCongruent(rows, (r: Row) => PointedAt(m, related, parent, r)
                                        && Holds(related.scopes + [ALWAYS] + constraints(t), r) == True,
                      Keep(column, {key}, LoaderPasses(related, [], constraints(t))));
    }
  }

  /** A class listed under the row's discriminant has a passing row that is pointed at. */
  ghost predicate FoundInClass(db: Db, m: MorphTo, alias: string, related: Model, constraint: seq<Clause>,
                               parent: Row) {
    && Col(parent, m.morphType) == Str(alias)
    && exists r :: r in Table(db, related.table) && PointedAt(m, related, parent, r)
                   && Holds(related.scopes + constraint, r) == True
  }

  lemma PointedIsFound(db: Db, m: MorphTo, alias: string, related: Model, constraint: seq<Clause>, parent: Row)
    requires Col(parent, m.morphType) == Str(alias)
    ensures Pointed(db, m, related, constraint, parent) <==> FoundInClass(db, m, alias, related, constraint, parent)
  {
    var rows := PointedRows(db, m, related, constraint, parent);
    if rows != [] {
      assert rows[0] in rows;
    }
    if r :| r in Table(db, related.table) && PointedAt(m, related, parent, r)
            && Holds(related.scopes + constraint, r) == True {
      assert r in rows;
    }
  }

  /** `whereHasMorph` keeps a row if and only if some listed class is that class. */
  lemma HasMorphMeans(db: Db, model: Model, m: MorphTo, types: seq<(string, Model)>,
                      constraints: string -> seq<Clause>, parent: Row)
    requires Listable(model, types) && types != []
    ensures HasMorph(db, model, m, types, constraints, false, parent) == True <==>
      exists i :: 0 <= i < |types| && FoundInClass(db, m, types[i].0, types[i].1, constraints(types[i].0), parent)
  {
    DisjunctsEval(db, model, m, types, constraints, parent);
    var truths := Truths(db, m, types, constraints, parent);
    forall i | 0 <= i < |types|
      ensures truths[i] == True <==> FoundInClass(db, m, types[i].0, types[i].1, constraints(types[i].0), parent)
    {
      if Col(parent, m.morphType) == Str(types[i].0) {
        PointedIsFound(db, m, types[i].0, types[i].1, constraints(types[i].0), parent);
      }
    }
  }
}
