/** Batching is invisible: a page of parents gets what each parent would get alone, and that is the join. */
module Batching {
  import opened Text
  import opened Rows
  import opened Relations

  // -------------------------------------------------------------- conditions

  /** The values the loader turns into map keys when it loads `rel` for `parent`. */
  ghost predicate FaithfulKeys(db: Db, model: Model, rel: Relation, parent: Row) {
    if rel.BelongsTo? then
      Faithful(Values(Table(db, rel.related.table), Default(rel.ownerKey, rel.related.primaryKey))
               + {Col(parent, rel.foreignKey)})
    else if IsHas(rel) then
      Faithful(Values(Table(db, rel.related.table), HasKey(rel)) + {Col(parent, HasLocal(model, rel))})
    else if IsThrough(rel) then
      && Faithful(Values(Table(db, rel.through.table), rel.firstKey)
                  + {Col(parent, Default(rel.localKey, model.primaryKey))})
      && Faithful(Values(Table(db, rel.related.table), rel.secondKey)
                  + Values(Table(db, rel.through.table), Default(rel.secondLocalKey, rel.through.primaryKey)))
    else
      var spec := PivotOf(model, rel);
      && Faithful(Values(Table(db, spec.pivotTable), spec.thisPivotKey) + {Col(parent, spec.localKey)})
      && Faithful(Values(Table(db, spec.related.table), spec.relatedKey)
                  + Values(Table(db, spec.pivotTable), spec.relatedPivotKey))
  }

  /** The keys looked up against rows a caller's constraint may have let in. */
  function LookedUp(db: Db, model: Model, rel: Relation, parent: Row): set<Value> {
    if rel.BelongsTo? then {}
    else if IsHas(rel) then {Col(parent, HasLocal(model, rel))}
    else if IsThrough(rel) then
      Values(ThroughLinks(db, model, rel, parent), Default(rel.secondLocalKey, rel.through.primaryKey))
    else PivotKeys(db, PivotOf(model, rel), parent)
  }

  function PivotKeys(db: Db, spec: PivotSpec, parent: Row): set<Value> {
    Values(SpecLinks(db, spec, parent), spec.relatedPivotKey)
  }

  /** The rows with a NULL key that one batched query lets in. */
  function Stray(db: Db, related: Model, before: seq<Clause>, column: string, keys: set<Value>,
                 constraint: seq<Clause>): seq<Row>
  {
    if keys == {} then [] else Strays(Table(db, related.table), related.scopes + before, column, keys, constraint)
  }

  /** Those the page's batch for `rel` lets in. */
  function StrayRows(db: Db, model: Model, rel: Relation, constraint: seq<Clause>, parents: seq<Row>): seq<Row> {
    if rel.BelongsTo? then []
    else if IsHas(rel) then
      Stray(db, rel.related, HasBefore(model, rel), HasKey(rel), Defined(parents, HasLocal(model, rel)), constraint)
    else if IsThrough(rel) then
      Stray(db, rel.related, [], rel.secondKey,
            Defined(LinkRows(db, rel.through.table, rel.through.scopes, rel.firstKey,
                             Defined(parents, Default(rel.localKey, model.primaryKey)), []),
                    Default(rel.secondLocalKey, rel.through.primaryKey)), constraint)
    else PivotStrays(db, PivotOf(model, rel), constraint, parents)
  }

  function PivotStrays(db: Db, spec: PivotSpec, constraint: seq<Clause>, parents: seq<Row>): seq<Row> {
    Stray(db, spec.related, [], spec.relatedKey,
          Defined(LinkRows(db, spec.pivotTable, [], spec.thisPivotKey, Defined(parents, spec.localKey),
                           Discriminated(spec)), spec.relatedPivotKey), constraint)
  }

  /** No NULL key is looked up where rows with a NULL key have got in. */
  ghost predicate NoStrays(db: Db, model: Model, rel: Relation, constraint: seq<Clause>, parents: seq<Row>,
                           parent: Row) {
    Null in LookedUp(db, model, rel, parent) ==> StrayRows(db, model, rel, constraint, parents) == []
  }

  /** A caller need not look at the page: `and` alone lets none in, and keys that are there look up none. */
  lemma NoStraysWhen(db: Db, model: Model, rel: Relation, constraint: seq<Clause>, parents: seq<Row>, parent: Row)
    requires AndOnly(constraint) || Null !in LookedUp(db, model, rel, parent)
    ensures NoStrays(db, model, rel, constraint, parents, parent)
  {
    if AndOnly(constraint) {
      forall before, column, keys ensures Stray(db, rel.related, before, column, keys, constraint) == [] {
        NothingStrays(Table(db, rel.related.table), rel.related.scopes + before, column, keys, constraint);
      }
    }
  }

  // ---------------------------------------------------------------- one query

  lemma FetchedIsMatched(db: Db, related: Model, before: seq<Clause>, column: string, keys: set<Value>,
                         constraint: seq<Clause>, key: Value)
    requires Faithful(Values(Table(db, related.table), column) + {key})
    requires key != Null ==> key in keys
    ensures Fetched(db, related, before, column, keys, constraint, key)
         == if key.Null? then Stray(db, related, before, column, keys, constraint)
            else Matched(db, related, before, column, constraint, key)
  {
    var rows := Table(db, related.table);
    if key.Null? {
      FaithfulSubset(Values(rows, column) + {key}, Values(rows, column));
      if keys != {} {
        FiledUnderNull(rows, related.scopes + before, column, keys, constraint);
      }
    } else {
      FiledIsMatching(rows, related.scopes + before, column, keys, constraint, key);
    }
  }

  lemma LinkRowsAreLinks(db: Db, table: string, scopes: seq<Clause>, key: string, keys: set<Value>, after: seq<Clause>,
                         parentKey: Value)
    requires Faithful(Values(Table(db, table), key) + {parentKey})
    requires parentKey != Null ==> parentKey in keys
    requires AndOnly(after)
    ensures Filed(LinkRows(db, table, scopes, key, keys, after), key, Spell(parentKey))
         == Links(db, table, scopes, key, parentKey, after)
  {
    var rows := Table(db, table);
    if parentKey.Null? {
      FaithfulSubset(Values(rows, key) + {parentKey}, Values(rows, key));
      if keys != {} {
        FiledUnderNull(rows, scopes, key, keys, after);
        NothingStrays(rows, scopes, key, keys, after);
      }
    } else {
      FiledIsMatching(rows, scopes, key, keys, after, parentKey);
    }
  }

  // ----------------------------------------------------------- following links

  ghost function Gathered(links: seq<Row>, give: Row -> seq<Row>): seq<Row> {
    if links == [] then [] else give(links[0]) + Gathered(links[1..], give)
  }

  /** Where one give is nowhere the longer, the same is gathered if and only if the same is given for every link. */
  lemma {:induction false} GatheredSame(links: seq<Row>, give: Row -> seq<Row>, other: Row -> seq<Row>)
    requires forall l <- links :: |give(l)| <= |other(l)|
    ensures |Gathered(links, give)| <= |Gathered(links, other)|
    ensures Gathered(links, give) == Gathered(links, other) <==> forall l <- links :: give(l) == other(l)
  {
    if links != [] {
      var rest, n := links[1..], |give(links[0])|;
      assert links == [links[0]] + rest;
      GatheredSame(rest, give, other);
      var all, others := Gathered(links, give), Gathered(links, other);
      if all == others {
        assert |other(links[0])| == n;
        assert all[..n] == give(links[0]) && others[..n] == other(links[0]);
        assert all[n..] == Gathered(rest, give) && others[n..] == Gathered(rest, other);
      }
    }
  }

  /** What following a link gives: under NULL the strays, under any other key the rows that match. */
  ghost function Looks(db: Db, linkKey: string, related: Model, column: string, constraint: seq<Clause>,
                       strays: seq<Row>): Row -> seq<Row> {
    (l: Row) =>
      if Col(l, linkKey) == Null then strays else Matched(db, related, [], column, constraint, Col(l, linkKey))
  }

  /** The same for a pivot row, which keeps the last of them. */
  ghost function Pivots(db: Db, spec: PivotSpec, constraint: seq<Clause>, strays: seq<Row>): Row -> seq<Row> {
    (l: Row) => LastOf(PivotLook(db, spec, constraint, strays, l), l, spec.columns)
  }

  function PivotLook(db: Db, spec: PivotSpec, constraint: seq<Clause>, strays: seq<Row>, link: Row): seq<Row> {
    if Col(link, spec.relatedPivotKey) == Null then strays
    else Matched(db, spec.related, [], spec.relatedKey, constraint, Col(link, spec.relatedPivotKey))
  }

  function LastOf(found: seq<Row>, link: Row, columns: seq<string>): seq<Row> {
    if found == [] then [] else [WithPivot(found[|found| - 1], link, columns)]
  }

  lemma ValuesCons(rows: seq<Row>, column: string)
    requires rows != []
    ensures Values(rows, column) == {Col(rows[0], column)} + Values(rows[1..], column)
  {
    assert rows == [rows[0]] + rows[1..];
  }

  lemma {:induction false} FetchedGathers(db: Db, links: seq<Row>, linkKey: string, related: Model, column: string,
                                          keys: set<Value>, constraint: seq<Clause>)
    requires Faithful(Values(Table(db, related.table), column) + Values(links, linkKey))
    requires forall l <- links :: Col(l, linkKey) != Null ==> Col(l, linkKey) in keys
    ensures FlatFetched(db, links, linkKey, related, column, keys, constraint)
         == Gathered(links, Looks(db, linkKey, related, column, constraint,
                                  Stray(db, related, [], column, keys, constraint)))
  {
    if links != [] {
      var all := Values(Table(db, related.table), column) + Values(links, linkKey);
      ValuesCons(links, linkKey);
      FaithfulSubset(all, Values(Table(db, related.table), column) + {Col(links[0], linkKey)});
      FaithfulSubset(all, Values(Table(db, related.table), column) + Values(links[1..], linkKey));
      FetchedIsMatched(db, related, [], column, keys, constraint, Col(links[0], linkKey));
      FetchedGathers(db, links[1..], linkKey, related, column, keys, constraint);
    }
  }

  lemma {:induction false} MatchedGathers(db: Db, links: seq<Row>, linkKey: string, related: Model, column: string,
                                          constraint: seq<Clause>)
    ensures FlatMatched(db, links, linkKey, related, column, constraint)
         == Gathered(links, Looks(db, linkKey, related, column, constraint, []))
  {
    if links != [] {
      MatchedGathers(db, links[1..], linkKey, related, column, constraint);
    }
  }

  lemma LinkedGives(db: Db, link: Row, spec: PivotSpec, keys: set<Value>, constraint: seq<Clause>)
    requires Faithful(Values(Table(db, spec.related.table), spec.relatedKey) + {Col(link, spec.relatedPivotKey)})
    requires Col(link, spec.relatedPivotKey) != Null ==> Col(link, spec.relatedPivotKey) in keys
    ensures Linked(db, link, spec, keys, constraint)
         == Pivots(db, spec, constraint, Stray(db, spec.related, [], spec.relatedKey, keys, constraint))(link)
  {
    FetchedIsMatched(db, spec.related, [], spec.relatedKey, keys, constraint, Col(link, spec.relatedPivotKey));
  }

  lemma {:induction false} LinkedGathers(db: Db, links: seq<Row>, spec: PivotSpec, keys: set<Value>,
                                         constraint: seq<Clause>)
    requires Faithful(Values(Table(db, spec.related.table), spec.relatedKey) + Values(links, spec.relatedPivotKey))
    requires forall l <- links :: Col(l, spec.relatedPivotKey) != Null ==> Col(l, spec.relatedPivotKey) in keys
    ensures FlatLinked(db, links, spec, keys, constraint)
         == Gathered(links, Pivots(db, spec, constraint,
                                   Stray(db, spec.related, [], spec.relatedKey, keys, constraint)))
  {
    if links != [] {
      var table := Values(Table(db, spec.related.table), spec.relatedKey);
      var all := table + Values(links, spec.relatedPivotKey);
      ValuesCons(links, spec.relatedPivotKey);
      FaithfulSubset(all, table + {Col(links[0], spec.relatedPivotKey)});
      FaithfulSubset(all, table + Values(links[1..], spec.relatedPivotKey));
      LinkedGives(db, links[0], spec, keys, constraint);
      LinkedGathers(db, links[1..], spec, keys, constraint);
    }
  }

  lemma {:induction false} PivotGathers(db: Db, links: seq<Row>, spec: PivotSpec, constraint: seq<Clause>)
    ensures FlatJoined(db, links, spec, constraint) == Gathered(links, Pivots(db, spec, constraint, []))
  {
    if links != [] {
      PivotGathers(db, links[1..], spec, constraint);
    }
  }

  // ------------------------------------------------------------- what is shown

  /** What a relation shows of a parent when looking up NULL gives the strays. */
  ghost function Shown(db: Db, model: Model, rel: Relation, constraint: seq<Clause>, parent: Row,
                       strays: seq<Row>): Attached {
    if rel.BelongsTo? then Joined(db, model, rel, constraint, parent)
    else if IsHas(rel) then
      Shape(rel, if Null in LookedUp(db, model, rel, parent) then strays
                 else JoinedHas(db, model, rel, constraint, parent))
    else if IsThrough(rel) then
      Shape(rel, Gathered(ThroughLinks(db, model, rel, parent), ThroughLooks(db, rel, constraint, strays)))
    else Shape(rel, PivotShown(db, PivotOf(model, rel), constraint, parent, strays))
  }

  ghost function PivotShown(db: Db, spec: PivotSpec, constraint: seq<Clause>, parent: Row, strays: seq<Row>): seq<Row> {
    Gathered(SpecLinks(db, spec, parent), Pivots(db, spec, constraint, strays))
  }

  ghost function ThroughLooks(db: Db, rel: Relation, constraint: seq<Clause>, strays: seq<Row>): Row -> seq<Row>
    requires IsThrough(rel)
  {
    Looks(db, Default(rel.secondLocalKey, rel.through.primaryKey), rel.related, rel.secondKey, constraint, strays)
  }

  /** The join is what is shown without strays. */
  lemma JoinedShows(db: Db, model: Model, rel: Relation, constraint: seq<Clause>, parent: Row)
    ensures Joined(db, model, rel, constraint, parent) == Shown(db, model, rel, constraint, parent, [])
  {
    if IsThrough(rel) {
      MatchedGathers(db, ThroughLinks(db, model, rel, parent), Default(rel.secondLocalKey, rel.through.primaryKey),
                     rel.related, rel.secondKey, constraint);
    } else if IsPivot(rel) {
      PivotGathers(db, PivotLinks(db, model, rel, parent), PivotOf(model, rel), constraint);
    }
  }

  /** The batch is what is shown with the strays of the page. */
  lemma BatchedShows(db: Db, model: Model, rel: Relation, constraint: seq<Clause>, parents: seq<Row>, parent: Row)
    requires parent in parents && FaithfulKeys(db, model, rel, parent)
    ensures Batched(db, model, rel, constraint, parents, parent)
         == Shown(db, model, rel, constraint, parent, StrayRows(db, model, rel, constraint, parents))
  {
    if rel.BelongsTo? {
      if Col(parent, rel.foreignKey) != Null {
        FetchedIsMatched(db, rel.related, [], Default(rel.ownerKey, rel.related.primaryKey),
                         Defined(parents, rel.foreignKey), constraint, Col(parent, rel.foreignKey));
      }
    } else if IsHas(rel) {
      FetchedIsMatched(db, rel.related, HasBefore(model, rel), HasKey(rel), Defined(parents, HasLocal(model, rel)),
                       constraint, Col(parent, HasLocal(model, rel)));
    } else if IsThrough(rel) {
      ThroughShows(db, model, rel, constraint, parents, parent);
    } else {
      PivotShows(db, model, rel, constraint, parents, parent);
    }
  }

  lemma ThroughShows(db: Db, model: Model, rel: Relation, constraint: seq<Clause>, parents: seq<Row>, parent: Row)
    requires IsThrough(rel) && parent in parents && FaithfulKeys(db, model, rel, parent)
    ensures BatchedThrough(db, model, rel, constraint, parents, parent)
         == Gathered(ThroughLinks(db, model, rel, parent),
                     ThroughLooks(db, rel, constraint, StrayRows(db, model, rel, constraint, parents)))
  {
    var local, second := Default(rel.localKey, model.primaryKey), Default(rel.secondLocalKey, rel.through.primaryKey);
    var keys := Defined(parents, local);
    var fetched := LinkRows(db, rel.through.table, rel.through.scopes, rel.firstKey, keys, []);
    var links := ThroughLinks(db, model, rel, parent);
    LinksOfPage(db, rel.through.table, rel.through.scopes, rel.firstKey, keys, [], Col(parent, local), second);
    FaithfulNarrow(Values(Table(db, rel.related.table), rel.secondKey), Values(Table(db, rel.through.table), second),
                   Values(links, second));
    FetchedGathers(db, links, second, rel.related, rel.secondKey, Defined(fetched, second), constraint);
  }

  lemma PivotShows(db: Db, model: Model, rel: Relation, constraint: seq<Clause>, parents: seq<Row>, parent: Row)
    requires IsPivot(rel) && parent in parents && FaithfulKeys(db, model, rel, parent)
    ensures BatchedPivot(db, PivotOf(model, rel), constraint, parents, parent)
         == PivotShown(db, PivotOf(model, rel), constraint, parent, StrayRows(db, model, rel, constraint, parents))
  {
    SpecShows(db, PivotOf(model, rel), constraint, parents, parent);
  }

  lemma SpecShows(db: Db, spec: PivotSpec, constraint: seq<Clause>, parents: seq<Row>, parent: Row)
    requires parent in parents
    requires Faithful(Values(Table(db, spec.pivotTable), spec.thisPivotKey) + {Col(parent, spec.localKey)})
    requires Faithful(Values(Table(db, spec.related.table), spec.relatedKey)
                      + Values(Table(db, spec.pivotTable), spec.relatedPivotKey))
    ensures BatchedPivot(db, spec, constraint, parents, parent)
         == PivotShown(db, spec, constraint, parent, PivotStrays(db, spec, constraint, parents))
  {
    var keys := Defined(parents, spec.localKey);
    var fetched := LinkRows(db, spec.pivotTable, [], spec.thisPivotKey, keys, Discriminated(spec));
    var links := SpecLinks(db, spec, parent);
    LinksOfPage(db, spec.pivotTable, [], spec.thisPivotKey, keys, Discriminated(spec), Col(parent, spec.localKey),
                spec.relatedPivotKey);
    FaithfulNarrow(Values(Table(db, spec.related.table), spec.relatedKey),
                   Values(Table(db, spec.pivotTable), spec.relatedPivotKey), Values(links, spec.relatedPivotKey));
    LinkedGathers(db, links, spec, Defined(fetched, spec.relatedPivotKey), constraint);
  }

  lemma FaithfulNarrow(table: set<Value>, wide: set<Value>, narrow: set<Value>)
    requires Faithful(table + wide) && narrow <= wide
    ensures Faithful(table + narrow)
  {
    FaithfulSubset(table + wide, table + narrow);
  }

  /** A parent's links are fetched with its page, and so are the keys they lead to. */
  lemma LinksOfPage(db: Db, table: string, scopes: seq<Clause>, key: string, keys: set<Value>, after: seq<Clause>,
                    parentKey: Value, column: string)
    requires Faithful(Values(Table(db, table), key) + {parentKey})
    requires parentKey != Null ==> parentKey in keys
    requires AndOnly(after)
    ensures
      var fetched, links := LinkRows(db, table, scopes, key, keys, after),
                            Links(db, table, scopes, key, parentKey, after);
      && Filed(fetched, key, Spell(parentKey)) == links
      && (forall l <- links :: Col(l, column) != Null ==> Col(l, column) in Defined(fetched, column))
      && Values(links, column) <= Values(Table(db, table), column)
  {
    var fetched, links := LinkRows(db, table, scopes, key, keys, after),
                          Links(db, table, scopes, key, parentKey, after);
    LinkRowsAreLinks(db, table, scopes, key, keys, after, parentKey);
    forall l | l in links ensures l in fetched && l in Table(db, table) {
      assert l in Filed(fetched, key, Spell(parentKey));
    }
  }

  // ------------------------------------------------------- when strays show

  /** The first link that gives a has-one-through its row has a key: what looking up NULL gives comes too late. */
  predicate Sheltered(db: Db, links: seq<Row>, linkKey: string, related: Model, column: string,
                      constraint: seq<Clause>) {
    && links != [] && Col(links[0], linkKey) != Null
    && (Matched(db, related, [], column, constraint, Col(links[0], linkKey)) != []
        || Sheltered(db, links[1..], linkKey, related, column, constraint))
  }

  lemma {:induction false} MatchedHaveKeys(db: Db, links: seq<Row>, linkKey: string, related: Model, column: string,
                                           constraint: seq<Clause>)
    ensures forall r <- Gathered(links, Looks(db, linkKey, related, column, constraint, [])) :: Col(r, column) != Null
  {
    if links != [] {
      MatchedHaveKeys(db, links[1..], linkKey, related, column, constraint);
    }
  }

  lemma {:induction false} FirstGathered(db: Db, links: seq<Row>, linkKey: string, related: Model, column: string,
                                         constraint: seq<Clause>, strays: seq<Row>, others: seq<Row>)
    requires forall r <- strays + others :: Col(r, column) == Null
    ensures First(Gathered(links, Looks(db, linkKey, related, column, constraint, strays)))
         == First(Gathered(links, Looks(db, linkKey, related, column, constraint, others)))
       <==> || Null !in Values(links, linkKey) || Sheltered(db, links, linkKey, related, column, constraint)
            || First(strays) == First(others)
  {
    if links != [] {
      var look, other := Looks(db, linkKey, related, column, constraint, strays),
                         Looks(db, linkKey, related, column, constraint, others);
      ValuesCons(links, linkKey);
      if Col(links[0], linkKey) != Null {
        FirstGathered(db, links[1..], linkKey, related, column, constraint, strays, others);
      } else if strays == [] || others == [] {
        MatchedHaveKeys(db, links[1..], linkKey, related, column, constraint);
        assert strays != [] ==> strays[0] in strays + others;
        assert others != [] ==> others[0] in strays + others;
      }
    }
  }

  /** Strays that make no difference to a parent that looks up NULL. */
  ghost predicate ShowAlike(db: Db, model: Model, rel: Relation, constraint: seq<Clause>, parent: Row,
                            strays: seq<Row>, others: seq<Row>) {
    if rel.HasOne? || rel.MorphOne? then First(strays) == First(others)
    else if rel.HasOneThrough? then
      || First(strays) == First(others)
      || Sheltered(db, ThroughLinks(db, model, rel, parent), Default(rel.secondLocalKey, rel.through.primaryKey),
                   rel.related, rel.secondKey, constraint)
    else if IsPivot(rel) then
      PivotsAlike(db, PivotOf(model, rel), parent, strays, others)
    else strays == others
  }

  /** What is shown is the same if and only if NULL is not looked up or the strays make no difference. */
  lemma ShownSame(db: Db, model: Model, rel: Relation, constraint: seq<Clause>, parent: Row, strays: seq<Row>,
                  others: seq<Row>)
    requires IsThrough(rel) ==> forall r <- strays + others :: Col(r, rel.secondKey) == Null
    ensures Shown(db, model, rel, constraint, parent, strays) == Shown(db, model, rel, constraint, parent, others)
       <==> || Null !in LookedUp(db, model, rel, parent)
            || ShowAlike(db, model, rel, constraint, parent, strays, others)
  {
    if rel.HasOneThrough? {
      FirstGathered(db, ThroughLinks(db, model, rel, parent), Default(rel.secondLocalKey, rel.through.primaryKey),
                    rel.related, rel.secondKey, constraint, strays, others);
    } else if rel.HasManyThrough? {
      ManyThroughSame(db, model, rel, constraint, parent, strays, others);
    } else if IsPivot(rel) {
      PivotShownSame(db, model, rel, constraint, parent, strays, others);
    }
  }

  lemma PivotShownSame(db: Db, model: Model, rel: Relation, constraint: seq<Clause>, parent: Row, strays: seq<Row>,
                       others: seq<Row>)
    requires IsPivot(rel)
    ensures Shown(db, model, rel, constraint, parent, strays) == Shown(db, model, rel, constraint, parent, others)
       <==> || Null !in LookedUp(db, model, rel, parent)
            || ShowAlike(db, model, rel, constraint, parent, strays, others)
  {
    PivotSame(db, PivotOf(model, rel), constraint, parent, strays, others);
  }

  lemma ManyThroughSame(db: Db, model: Model, rel: Relation, constraint: seq<Clause>, parent: Row, strays: seq<Row>,
                        others: seq<Row>)
    requires rel.HasManyThrough?
    ensures Gathered(ThroughLinks(db, model, rel, parent), ThroughLooks(db, rel, constraint, strays))
         == Gathered(ThroughLinks(db, model, rel, parent), ThroughLooks(db, rel, constraint, others))
       <==> Null !in LookedUp(db, model, rel, parent) || strays == others
  {
    var links := ThroughLinks(db, model, rel, parent);
    var look, other := ThroughLooks(db, rel, constraint, strays), ThroughLooks(db, rel, constraint, others);
    if |strays| <= |others| {
      GatheredSame(links, look, other);
    } else {
      GatheredSame(links, other, look);
    }
  }

  lemma PivotSame(db: Db, spec: PivotSpec, constraint: seq<Clause>, parent: Row, strays: seq<Row>, others: seq<Row>)
    ensures PivotShown(db, spec, constraint, parent, strays) == PivotShown(db, spec, constraint, parent, others)
       <==> Null !in PivotKeys(db, spec, parent) || PivotsAlike(db, spec, parent, strays, others)
  {
    var links := SpecLinks(db, spec, parent);
    if others != [] || strays == [] {
      GatheredPivots(db, links, spec, constraint, strays, others);
    } else {
      GatheredPivots(db, links, spec, constraint, others, strays);
      assert forall l <- links :: GivesAlike(spec, strays, others, l) <==> GivesAlike(spec, others, strays, l);
    }
  }

  ghost predicate PivotsAlike(db: Db, spec: PivotSpec, parent: Row, strays: seq<Row>, others: seq<Row>) {
    forall l <- SpecLinks(db, spec, parent) :: GivesAlike(spec, strays, others, l)
  }

  ghost predicate GivesAlike(spec: PivotSpec, strays: seq<Row>, others: seq<Row>, link: Row) {
    Col(link, spec.relatedPivotKey) == Null ==> LastOf(strays, link, spec.columns) == LastOf(others, link, spec.columns)
  }

  lemma GatheredPivots(db: Db, links: seq<Row>, spec: PivotSpec, constraint: seq<Clause>, strays: seq<Row>,
                       others: seq<Row>)
    requires others != [] || strays == []
    ensures Gathered(links, Pivots(db, spec, constraint, strays))
         == Gathered(links, Pivots(db, spec, constraint, others))
       <==> forall l <- links :: GivesAlike(spec, strays, others, l)
  {
    var give, other := Pivots(db, spec, constraint, strays), Pivots(db, spec, constraint, others);
    forall l | l in links
      ensures |give(l)| <= |other(l)| && (GivesAlike(spec, strays, others, l) <==> give(l) == other(l))
    {
      PivotGives(db, spec, constraint, strays, others, l);
    }
    GatheredSame(links, give, other);
  }

  lemma PivotGives(db: Db, spec: PivotSpec, constraint: seq<Clause>, strays: seq<Row>, others: seq<Row>, link: Row)
    requires others != [] || strays == []
    ensures
      var given := Pivots(db, spec, constraint, strays)(link);
      var other := Pivots(db, spec, constraint, others)(link);
      |given| <= |other| && (given == other <==> GivesAlike(spec, strays, others, link))
  {
  }

  lemma StraysHaveNoKey(db: Db, model: Model, rel: Relation, constraint: seq<Clause>, parents: seq<Row>)
    ensures IsThrough(rel) ==>
      forall r <- StrayRows(db, model, rel, constraint, parents) :: Col(r, rel.secondKey) == Null
  {
  }

  // -------------------------------------------------------------- the theorem

  /**
   * For every relation kind, any tables and any page, what the batched loader attaches to a parent is
   * the relation's join for that parent.  The page does not occur on the right, so neither the other
   * parents nor their order can matter.
   */
  lemma BatchedIsJoined(db: Db, model: Model, rel: Relation, constraint: seq<Clause>, parents: seq<Row>, parent: Row)
    requires parent in parents && FaithfulKeys(db, model, rel, parent)
    requires NoStrays(db, model, rel, constraint, parents, parent)
    ensures Batched(db, model, rel, constraint, parents, parent) == Joined(db, model, rel, constraint, parent)
  {
    JoinedOnlyWithoutStrays(db, model, rel, constraint, parents, parent);
  }

  /** A has-one-through with a row that comes before any stray. */
  predicate ShelteredOne(db: Db, model: Model, rel: Relation, constraint: seq<Clause>, parent: Row) {
    && rel.HasOneThrough?
    && Sheltered(db, ThroughLinks(db, model, rel, parent), Default(rel.secondLocalKey, rel.through.primaryKey),
                 rel.related, rel.secondKey, constraint)
  }

  /**
   * The condition is exact: a NULL key looked up in a batch that rows with a NULL key have got into attaches
   * something the join does not have, but for a has-one-through whose row is found before.
   */
  lemma JoinedOnlyWithoutStrays(db: Db, model: Model, rel: Relation, constraint: seq<Clause>, parents: seq<Row>,
                                parent: Row)
    requires parent in parents && FaithfulKeys(db, model, rel, parent)
    ensures Batched(db, model, rel, constraint, parents, parent) == Joined(db, model, rel, constraint, parent)
       <==> || NoStrays(db, model, rel, constraint, parents, parent)
            || ShelteredOne(db, model, rel, constraint, parent)
  {
    var strays := StrayRows(db, model, rel, constraint, parents);
    BatchedShows(db, model, rel, constraint, parents, parent);
    JoinedShows(db, model, rel, constraint, parent);
    StraysHaveNoKey(db, model, rel, constraint, parents);
    ShownSame(db, model, rel, constraint, parent, strays, []);
    AlikeWithout(db, model, rel, constraint, parent, strays);
  }

  lemma AlikeWithout(db: Db, model: Model, rel: Relation, constraint: seq<Clause>, parent: Row, strays: seq<Row>)
    ensures Null in LookedUp(db, model, rel, parent) ==>
      (ShowAlike(db, model, rel, constraint, parent, strays, [])
       <==> strays == [] || ShelteredOne(db, model, rel, constraint, parent))
  {
    if IsPivot(rel) && Null in LookedUp(db, model, rel, parent) {
      PivotsAlikeWithout(db, PivotOf(model, rel), parent, strays);
    }
  }

  lemma PivotsAlikeWithout(db: Db, spec: PivotSpec, parent: Row, strays: seq<Row>)
    requires Null in PivotKeys(db, spec, parent)
    ensures PivotsAlike(db, spec, parent, strays, []) <==> strays == []
  {
    var l :| l in SpecLinks(db, spec, parent) && Col(l, spec.relatedPivotKey) == Null;
    assert GivesAlike(spec, strays, [], l) <==> strays == [];
  }

  /**
   * Loading a parent inside a page is loading it alone, if and only if it looks up no NULL key or what the page
   * lets in under NULL makes no difference to what it lets in alone.
   */
  lemma BatchingIsInvisible(db: Db, model: Model, rel: Relation, constraint: seq<Clause>, parents: seq<Row>,
                            parent: Row)
    requires parent in parents && FaithfulKeys(db, model, rel, parent)
    ensures Batched(db, model, rel, constraint, parents, parent)
         == Batched(db, model, rel, constraint, [parent], parent)
       <==> || Null !in LookedUp(db, model, rel, parent)
            || ShowAlike(db, model, rel, constraint, parent, StrayRows(db, model, rel, constraint, parents),
                         StrayRows(db, model, rel, constraint, [parent]))
  {
    BatchedShows(db, model, rel, constraint, parents, parent);
    BatchedShows(db, model, rel, constraint, [parent], parent);
    StraysHaveNoKey(db, model, rel, constraint, parents);
    StraysHaveNoKey(db, model, rel, constraint, [parent]);
    ShownSame(db, model, rel, constraint, parent, StrayRows(db, model, rel, constraint, parents),
              StrayRows(db, model, rel, constraint, [parent]));
  }

  /**
   * For a relation without links this is exact: a parent without a key, alone, asks nothing and gets nothing, so
   * the page shows if and only if it has a key and lets in a row without one.
   */
  lemma NullParentSeesStrays(db: Db, model: Model, rel: Relation, constraint: seq<Clause>, parents: seq<Row>,
                             parent: Row)
    requires IsHas(rel) && parent in parents && FaithfulKeys(db, model, rel, parent)
    requires Col(parent, HasLocal(model, rel)) == Null
    ensures AttachedRows(Batched(db, model, rel, constraint, [parent], parent)) == []
    ensures Batched(db, model, rel, constraint, parents, parent)
         == Batched(db, model, rel, constraint, [parent], parent)
       <==> || (forall p <- parents :: Col(p, HasLocal(model, rel)) == Null)
            || forall r <- Table(db, rel.related.table) :: Col(r, HasKey(rel)) == Null ==>
                 Holds(rel.related.scopes + HasBefore(model, rel)
                       + [In(HasKey(rel), Defined(parents, HasLocal(model, rel)))] + constraint, r) != True
  {
    NullParentGets(db, model, rel, constraint, parents, parent);
    NullParentGets(db, model, rel, constraint, [parent], parent);
    NoKeyAtAll(parents, HasLocal(model, rel));
    NoKeyAtAll([parent], HasLocal(model, rel));
    StraysAre(Table(db, rel.related.table), rel.related.scopes + HasBefore(model, rel), HasKey(rel),
              Defined(parents, HasLocal(model, rel)), constraint);
  }

  lemma NullParentGets(db: Db, model: Model, rel: Relation, constraint: seq<Clause>, parents: seq<Row>, parent: Row)
    requires IsHas(rel) && parent in parents && FaithfulKeys(db, model, rel, parent)
    requires Col(parent, HasLocal(model, rel)) == Null
    ensures Batched(db, model, rel, constraint, parents, parent)
         == Shape(rel, StrayRows(db, model, rel, constraint, parents))
  {
    BatchedShows(db, model, rel, constraint, parents, parent);
  }

  lemma NoKeyAtAll(rows: seq<Row>, column: string)
    ensures Defined(rows, column) == {} <==> forall r <- rows :: Col(r, column) == Null
  {
    if Defined(rows, column) != {} {
      var v :| v in Defined(rows, column);
    }
    forall r | r in rows && Col(r, column) != Null ensures Defined(rows, column) != {} {
      assert Col(r, column) in Defined(rows, column);
    }
  }

  lemma {:induction false} StraysAre(rows: seq<Row>, before: seq<Clause>, column: string, keys: set<Value>,
                                     after: seq<Clause>)
    ensures Strays(rows, before, column, keys, after) == [] <==>
      forall r <- rows :: Col(r, column) == Null ==> Holds(before + [In(column, keys)] + after, r) != True
  {
    if rows != [] {
      StraysAre(rows[1..], before, column, keys, after);
      assert rows == [rows[0]] + rows[1..];
    }
  }

  /** Spelling tells the row's id from every key of the table its discriminant names. */
  ghost predicate FaithfulIds(db: Db, m: MorphTo, row: Row) {
    var t := Spell(Col(row, m.morphType));
    t in m.types ==>
      Faithful(Values(Table(db, m.types[t].table), Default(m.ownerKey, m.types[t].primaryKey)) + {Col(row, m.morphId)})
  }

  /** The same for `morphTo`, whose parents live in the tables of several models. */
  lemma MorphToBatchedIsJoined(db: Db, m: MorphTo, constraints: string -> seq<Clause>, parents: seq<Row>, parent: Row)
    requires parent in parents && FaithfulIds(db, m, parent)
    ensures BatchedMorphTo(db, m, constraints, parents, parent) == JoinedMorphTo(db, m, constraints, parent)
  {
    var discriminant := Spell(Col(parent, m.morphType));
    if discriminant in m.types && Col(parent, m.morphType) != Null && Col(parent, m.morphId) != Null {
      var related := m.types[discriminant];
      FetchedIsMatched(db, related, [], Default(m.ownerKey, related.primaryKey), IdsOfType(m, parents, discriminant),
                       constraints(discriminant), Col(parent, m.morphId));
    }
  }

  // --------------------------------------------------------------- uniqueness

  /** No two rows share a non-null `column`. */
  ghost predicate Unique(rows: seq<Row>, column: string) {
    forall i, j :: 0 <= i < j < |rows| && Col(rows[i], column) != Null ==> Col(rows[i], column) != Col(rows[j], column)
  }

  lemma {:induction false} UniqueMatches(rows: seq<Row>, before: seq<Clause>, column: string, key: Value,
                                         after: seq<Clause>)
    requires Unique(rows, column)
    ensures |Matching(rows, before, column, key, after)| <= 1
  {
    if rows != [] && key != Null {
      var rest := rows[1..];
      UniqueMatches(rest, before, column, key, after);
      if Col(rows[0], column) == key {
        forall j | 0 <= j < |rest| ensures Col(rest[j], column) != key { assert rows[j + 1] == rest[j]; }
        NoMatch(rest, before, column, key, after);
      }
    }
  }

  lemma {:induction false} NoMatch(rows: seq<Row>, before: seq<Clause>, column: string, key: Value, after: seq<Clause>)
    requires forall j :: 0 <= j < |rows| ==> Col(rows[j], column) != key
    ensures Matching(rows, before, column, key, after) == []
  {
    if rows != [] {
      NoMatch(rows[1..], before, column, key, after);
    }
  }

  /** With unique keys, to-one relations attach all there is to attach: nothing was dropped by keeping one row. */
  lemma ToOneIsWholeJoin(db: Db, related: Model, before: seq<Clause>, column: string, constraint: seq<Clause>,
                         key: Value)
    requires Unique(Table(db, related.table), column)
    ensures
      var matched := Matched(db, related, before, column, constraint, key);
      AttachedRows(First(matched)) == matched && AttachedRows(Last(matched)) == matched
  {
    UniqueMatches(Table(db, related.table), related.scopes + before, column, key, constraint);
  }

  // ----------------------------------------------------------- the exception

  /** For instance, where a constraint written with `or` lets in a child that belongs to nobody. */
  lemma OrConstraintReachesNullParent()
    ensures
      var stray := map["id" := Num(7), "owner" := Null, "name" := Str("stray")];
      var model := Model("parents", "id", "parent", []);
      var db: Db := map["children" := [stray]];
      var rel := HasMany(Model("children", "id", "child", []), "owner", Some("code"));
      var constraint := [Clause(true, (row: Row) => Equal(Col(row, "name"), Str("stray")))];
      var orphan, other := map["id" := Num(1), "code" := Null], map["id" := Num(2), "code" := Str("b")];
      && Batched(db, model, rel, constraint, [orphan], orphan) == Several([])
      && Batched(db, model, rel, constraint, [orphan, other], orphan) == Several([stray])
  {
    var stray: Row := map["id" := Num(7), "owner" := Null, "name" := Str("stray")];
    var orphan: Row := map["id" := Num(1), "code" := Null];
    var other: Row := map["id" := Num(2), "code" := Str("b")];
    var clause := Clause(true, (row: Row) => Equal(Col(row, "name"), Str("stray")));
    var keys := Defined([orphan, other], "code");
    assert other in [orphan, other] && Str("b") in keys;
    StrayGetsIn(stray, clause, "owner", keys);
    assert Defined([orphan], "code") == {};
  }

  lemma StrayGetsIn(stray: Row, clause: Clause, column: string, keys: set<Value>)
    requires Col(stray, column) == Null && clause.isOr && clause.test(stray) == True
    ensures Select([stray], [] + [] + [In(column, keys)] + [clause]) == [stray]
  {
    HoldsSnoc([In(column, keys)], clause, stray);
    assert [] + [] + [In(column, keys)] + [clause] == [In(column, keys)] + [clause];
    assert [stray][1..] == [];
  }
}
