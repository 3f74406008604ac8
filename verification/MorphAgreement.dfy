/** `whereHasMorph` and `whereMorphedTo` against eager loading, and the cases in which the two compilers part ways. */
module MorphAgreement {
  import opened Text
  import opened Rows
  import opened Relations
  import opened Batching
  import opened Subqueries
  import opened Agreement

  // ------------------------------------------------------------ whereHasMorph

  /** The rows of `related` that have the parent's id as their key and pass. */
  ghost function PointedRows(db: Db, m: MorphTo, related: Model, constraint: seq<Clause>, parent: Row): seq<Row> {
    Filter(Table(db, related.table), Keep(Default(m.ownerKey, related.primaryKey), {Col(parent, m.morphId)},
                                          QueryPasses(related, [], constraint)))
  }

  ghost predicate Pointed(db: Db, m: MorphTo, related: Model, constraint: seq<Clause>, parent: Row) {
    PointedRows(db, m, related, constraint, parent) != []
  }

  lemma MorphQuerySelects(db: Db, model: Model, m: MorphTo, related: Model, constraint: seq<Clause>, parent: Row)
    requires model.table != SubAlias(related)
    ensures Result(db, Env(model, parent), MorphQuery(model, m, related, constraint))
         == PointedRows(db, m, related, constraint, parent)
  {
    var ownerKey, key := Default(m.ownerKey, related.primaryKey), Col(parent, m.morphId);
    var query, rows := MorphQuery(model, m, related, constraint), Table(db, related.table);
    var same := ColumnEq(false, Qualified(SubAlias(related), ownerKey), Qualified(model.table, m.morphId), true);
    var keep := Keep(ownerKey, {key}, QueryPasses(related, [], constraint));
    forall r | r in rows ensures Selects(db, Env(model, parent), query, r) <==> keep(r) {
      var here := [Frame(SubAlias(related), r)] + Env(model, parent);
      assert here[1..] == Env(model, parent);
      assert Read(here, Qualified(model.table, m.morphId)) == Read(here[1..], Qualified(model.table, m.morphId));
      assert Eval(db, related.table, Some(SubAlias(related)), here, same) == Equal(Col(r, ownerKey), key);
      EvalScoped(db, Env(model, parent), related, constraint, r);
      EvalSnoc(db, related.table, Some(SubAlias(related)), here, Tests(related.scopes) + Tests(constraint), same);
    }
    ResultIsFilter(db, Env(model, parent), query, rows, keep);
  }

  /** They are the rows loading finds if and only if the verdicts are one on the rows with the parent's id. */
  lemma PointedIsReached(db: Db, m: MorphTo, related: Model, constraint: seq<Clause>, parent: Row)
    ensures
      var ownerKey, key := Default(m.ownerKey, related.primaryKey), Col(parent, m.morphId);
      PointedRows(db, m, related, constraint, parent) == Reached(db, related, ownerKey, constraint, key)
      <==> SameVerdicts(Table(db, related.table), ownerKey, {key}, related, [], constraint)
  {
    var ownerKey, key := Default(m.ownerKey, related.primaryKey), Col(parent, m.morphId);
    ReachedIsReachedBy(db, related, ownerKey, constraint, key);
    FilterSame(Table(db, related.table), Keep(ownerKey, {key}, QueryPasses(related, [], constraint)),
               Keep(ownerKey, {key}, LoaderPasses(related, [], constraint)));
  }

  ghost function DisjunctTruth(db: Db, m: MorphTo, alias: string, related: Model, constraint: seq<Clause>,
                               parent: Row): Truth {
    And(Equal(Col(parent, m.morphType), Str(alias)),
        if Pointed(db, m, related, constraint, parent) then True else False)
  }

  lemma DisjunctEval(db: Db, model: Model, m: MorphTo, alias: string, related: Model, constraint: seq<Clause>,
                     parent: Row)
    requires model.table != SubAlias(related)
    ensures Eval(db, model.table, None, Env(model, parent), MorphDisjunct(model, m, alias, related, constraint))
         == DisjunctTruth(db, m, alias, related, constraint, parent)
  {
    MorphQuerySelects(db, model, m, related, constraint, parent);
    var typed := Basic(false, Bare(m.morphType), Str(alias));
    var exist := Exists(false, false, MorphQuery(model, m, related, constraint));
    assert [typed, exist][..1] == [typed];
    assert EvalAll(db, model.table, None, Env(model, parent), [typed])
        == Equal(Col(parent, m.morphType), Str(alias)) by {
      assert [typed][..0] == [];
    }
    assert EvalAll(db, model.table, None, Env(model, parent), [typed, exist])
        == And(EvalAll(db, model.table, None, Env(model, parent), [typed]),
               Eval(db, model.table, None, Env(model, parent), exist));
  }

  /** The types a caller may list: none of their subqueries hides the parent. */
  ghost predicate Listable(model: Model, types: seq<(string, Model)>) {
    forall i :: 0 <= i < |types| ==> model.table != SubAlias(types[i].1)
  }

  /** The predicate `whereHasMorph` pushes, evaluated on a parent's row. */
  function HasMorph(db: Db, model: Model, m: MorphTo, types: seq<(string, Model)>, constraints: string -> seq<Clause>,
                    not: bool, parent: Row): Truth
  {
    Eval(db, model.table, None, Env(model, parent), Group(false, not, MorphDisjuncts(model, m, types, constraints)))
  }

  /** What each listed type's disjunct says of the parent. */
  ghost function Truths(db: Db, m: MorphTo, types: seq<(string, Model)>, constraints: string -> seq<Clause>,
                        parent: Row)
    : (truths: seq<Truth>)
    ensures |truths| == |types|
    ensures forall i :: 0 <= i < |types| ==>
      truths[i] == DisjunctTruth(db, m, types[i].0, types[i].1, constraints(types[i].0), parent)
  {
    seq(|types|, i requires 0 <= i < |types| =>
      DisjunctTruth(db, m, types[i].0, types[i].1, constraints(types[i].0), parent))
  }

  /** The truth of a disjunction; one of nothing holds. */
  ghost predicate Disjoined(truth: Truth, truths: seq<Truth>) {
    && (truth == True <==> truths == [] || True in truths)
    && (truth == False <==> truths != [] && True !in truths && Unknown !in truths)
  }

  lemma DisjoinedSnoc(truth: Truth, truths: seq<Truth>, last: Truth)
    requires Disjoined(truth, truths)
    ensures Disjoined(if truths == [] then last else Or(truth, last), truths + [last])
  {
    var more := truths + [last];
    assert more[|truths|] == last && forall i :: 0 <= i < |truths| ==> more[i] == truths[i];
  }

  lemma OrEval(db: Db, table: string, env: seq<Frame>, init: seq<Node>, last: Node)
    requires IsOr(last)
    ensures EvalAll(db, table, None, env, init + [last])
         == if init == [] then Eval(db, table, None, env, last)
            else Or(EvalAll(db, table, None, env, init), Eval(db, table, None, env, last))
  {
    assert (init + [last])[..|init|] == init;
  }

  lemma DisjunctsSnoc(model: Model, m: MorphTo, types: seq<(string, Model)>, last: (string, Model),
                      constraints: string -> seq<Clause>)
    ensures MorphDisjuncts(model, m, types + [last], constraints)
         == MorphDisjuncts(model, m, types, constraints)
            + [MorphDisjunct(model, m, last.0, last.1, constraints(last.0))]
  {
  }

  lemma TruthsSnoc(db: Db, m: MorphTo, types: seq<(string, Model)>, last: (string, Model),
                   constraints: string -> seq<Clause>, parent: Row)
    ensures
      var truth := DisjunctTruth(db, m, last.0, last.1, constraints(last.0), parent);
      var truths, more := Truths(db, m, types, constraints, parent), Truths(db, m, types + [last], constraints, parent);
      more == truths + [truth]
  {
    assert Truths(db, m, types + [last], constraints, parent)
        == Truths(db, m, types, constraints, parent)
           + [DisjunctTruth(db, m, last.0, last.1, constraints(last.0), parent)];
  }

  lemma {:induction false} DisjunctsEval(db: Db, model: Model, m: MorphTo, types: seq<(string, Model)>,
                                         constraints: string -> seq<Clause>, parent: Row)
    requires Listable(model, types)
    ensures Disjoined(EvalAll(db, model.table, None, Env(model, parent), MorphDisjuncts(model, m, types, constraints)),
                      Truths(db, m, types, constraints, parent))
  {
    if types != [] {
      var init, last := types[..|types| - 1], types[|types| - 1];
      var nodes := MorphDisjuncts(model, m, init, constraints);
      DisjunctsEval(db, model, m, init, constraints, parent);
      DisjunctEval(db, model, m, last.0, last.1, constraints(last.0), parent);
      assert init + [last] == types;
      DisjunctsSnoc(model, m, init, last, constraints);
      TruthsSnoc(db, m, init, last, constraints, parent);
      OrEval(db, model.table, Env(model, parent), nodes, MorphDisjunct(model, m, last.0, last.1, constraints(last.0)));
      DisjoinedSnoc(EvalAll(db, model.table, None, Env(model, parent), nodes),
                    Truths(db, m, init, constraints, parent),
                    DisjunctTruth(db, m, last.0, last.1, constraints(last.0), parent));
    }
  }

  /** The list a caller gives as classes: each under its own alias. */
  function ByAlias(classes: seq<Model>): seq<(string, Model)> {
    seq(|classes|, i requires 0 <= i < |classes| => (classes[i].alias, classes[i]))
  }

  ghost predicate Listed(types: seq<(string, Model)>, related: Model) {
    exists i :: 0 <= i < |types| && types[i].1 == related
  }

  /** The classes whose subqueries a row of discriminant `t` is put to: those listed under that alias. */
  ghost function Queried(types: seq<(string, Model)>, t: string): (classes: set<Model>)
    ensures forall i :: 0 <= i < |types| && types[i].0 == t ==> types[i].1 in classes
    ensures forall c <- classes :: exists i :: 0 <= i < |types| && types[i] == (t, c)
  {
    set i | 0 <= i < |types| && types[i].0 == t :: types[i].1
  }

  /** The class the declaration resolves the discriminant to, if it is a listed one. */
  ghost function Resolving(m: MorphTo, types: seq<(string, Model)>, t: string): set<Model> {
    if t in m.types && Listed(types, m.types[t]) then {m.types[t]} else {}
  }

  /** Loading attaches an instance of a listed class. */
  ghost predicate LoadsListed(m: MorphTo, types: seq<(string, Model)>, parent: Row, attached: Attached) {
    var t := Spell(Col(parent, m.morphType));
    attached != Absent && t in m.types && Listed(types, m.types[t])
  }

  ghost predicate ReachedOne(db: Db, m: MorphTo, classes: set<Model>, constraint: seq<Clause>, parent: Row) {
    exists c <- classes ::
      Reached(db, c, Default(m.ownerKey, c.primaryKey), constraint, Col(parent, m.morphId)) != []
  }

  ghost predicate PointedOne(db: Db, m: MorphTo, classes: set<Model>, constraint: seq<Clause>, parent: Row) {
    exists c <- classes :: Pointed(db, m, c, constraint, parent)
  }

  /** For the parent's type the verdicts are one on the rows with its id. */
  ghost predicate MorphAgreeable(db: Db, m: MorphTo, types: seq<(string, Model)>, constraints: string -> seq<Clause>,
                                 parent: Row) {
    forall i :: 0 <= i < |types| && Col(parent, m.morphType) == Str(types[i].0) ==>
      SameVerdicts(Table(db, types[i].1.table), Default(m.ownerKey, types[i].1.primaryKey), {Col(parent, m.morphId)},
                   types[i].1, [], constraints(types[i].0))
  }

  lemma MorphAgreeableWhen(db: Db, m: MorphTo, types: seq<(string, Model)>, constraints: string -> seq<Clause>,
                           parent: Row)
    requires forall i :: 0 <= i < |types| ==> Conjoins(types[i].1, [], constraints(types[i].0))
    ensures MorphAgreeable(db, m, types, constraints, parent)
  {
    forall i, r | 0 <= i < |types| && r in Table(db, types[i].1.table)
      ensures LoaderPasses(types[i].1, [], constraints(types[i].0))(r)
         <==> QueryPasses(types[i].1, [], constraints(types[i].0))(r)
    {
      ConjoinedVerdicts(types[i].1, [], constraints(types[i].0), r);
    }
  }

  /** `whereHasMorph` asks the classes listed under the row's discriminant. */
  lemma HasMorphAsks(db: Db, model: Model, m: MorphTo, types: seq<(string, Model)>, constraints: string -> seq<Clause>,
                     parent: Row, t: string)
    requires Listable(model, types) && types != [] && Col(parent, m.morphType) == Str(t)
    ensures HasMorph(db, model, m, types, constraints, false, parent) == True
       <==> PointedOne(db, m, Queried(types, t), constraints(t), parent)
  {
    DisjunctsEval(db, model, m, types, constraints, parent);
    var truths := Truths(db, m, types, constraints, parent);
    if True in truths {
      var i :| 0 <= i < |truths| && truths[i] == True;
      assert types[i].1 in Queried(types, t) && Pointed(db, m, types[i].1, constraints(t), parent);
    }
    if PointedOne(db, m, Queried(types, t), constraints(t), parent) {
      var c :| c in Queried(types, t) && Pointed(db, m, c, constraints(t), parent);
      var i :| 0 <= i < |types| && types[i] == (t, c);
      assert truths[i] == True;
    }
  }

  /** Loading asks the class the declaration resolves it to. */
  lemma LoadingAsks(db: Db, m: MorphTo, types: seq<(string, Model)>, constraints: string -> seq<Clause>, parent: Row,
                    t: string)
    requires Col(parent, m.morphType) == Str(t)
    ensures LoadsListed(m, types, parent, JoinedMorphTo(db, m, constraints, parent))
       <==> ReachedOne(db, m, Resolving(m, types, t), constraints(t), parent)
  {
    if t in m.types {
      var c := m.types[t];
      assert c.scopes + [] == c.scopes;
      assert Listed(types, c) ==> c in Resolving(m, types, t);
    }
  }

  /**
   * The two compilers resolve a discriminant by different names: the query by the aliases of the listed classes,
   * loading by the declaration. They agree on a row if and only if each reaches something where the other does.
   */
  lemma HasMorphAgreesIff(db: Db, model: Model, m: MorphTo, types: seq<(string, Model)>,
                          constraints: string -> seq<Clause>, page: seq<Row>, parent: Row, t: string)
    requires Listable(model, types) && types != [] && Col(parent, m.morphType) == Str(t)
    requires parent in page && FaithfulIds(db, m, parent)
    ensures
      (HasMorph(db, model, m, types, constraints, false, parent) == True
       <==> LoadsListed(m, types, parent, BatchedMorphTo(db, m, constraints, page, parent)))
      <==> (PointedOne(db, m, Queried(types, t), constraints(t), parent)
            <==> ReachedOne(db, m, Resolving(m, types, t), constraints(t), parent))
  {
    HasMorphAsks(db, model, m, types, constraints, parent, t);
    LoadingAsks(db, m, types, constraints, parent, t);
    MorphToBatchedIsJoined(db, m, constraints, page, parent);
  }

  /** Both names of the discriminant stand for the same listed class, or for none. */
  ghost predicate NamesAgree(m: MorphTo, types: seq<(string, Model)>, parent: Row) {
    Col(parent, m.morphType).Str? ==>
      Queried(types, Col(parent, m.morphType).s) == Resolving(m, types, Col(parent, m.morphType).s)
  }

  /**
   * Over a list that is not empty, `whereHasMorph` keeps exactly the rows whose `morphTo` loads an instance of a
   * listed class.
   */
  lemma HasMorphIsEagerLoading(db: Db, model: Model, m: MorphTo, types: seq<(string, Model)>,
                               constraints: string -> seq<Clause>, page: seq<Row>, parent: Row)
    requires Listable(model, types) && types != [] && parent in page && !Col(parent, m.morphType).Num?
    requires NamesAgree(m, types, parent) && MorphAgreeable(db, m, types, constraints, parent)
    requires FaithfulIds(db, m, parent)
    ensures HasMorph(db, model, m, types, constraints, false, parent) == True
       <==> LoadsListed(m, types, parent, BatchedMorphTo(db, m, constraints, page, parent))
  {
    if Col(parent, m.morphType).Null? {
      DisjunctsEval(db, model, m, types, constraints, parent);
    } else {
      var t := Col(parent, m.morphType).s;
      HasMorphAgreesIff(db, model, m, types, constraints, page, parent, t);
      forall c | c in Queried(types, t)
        ensures Pointed(db, m, c, constraints(t), parent)
           <==> Reached(db, c, Default(m.ownerKey, c.primaryKey), constraints(t), Col(parent, m.morphId)) != []
      {
        var i :| 0 <= i < |types| && types[i] == (t, c);
        PointedIsReached(db, m, c, constraints(t), parent);
      }
    }
  }

  /** A class the one name stands for and the other does not. */
  ghost predicate NamedOnce(m: MorphTo, types: seq<(string, Model)>, t: string, c: Model) {
    c in Queried(types, t) <==> c !in Resolving(m, types, t)
  }

  lemma OnlyRow(db: Db, m: MorphTo, c: Model, row: Row, parent: Row, others: set<Model>)
    requires db == map[c.table := [row]] && forall k <- others :: k.table != c.table
    requires Col(row, Default(m.ownerKey, c.primaryKey)) == Col(parent, m.morphId) != Null
    requires Holds(c.scopes, row) == True
    ensures Pointed(db, m, c, [], parent)
    ensures Reached(db, c, Default(m.ownerKey, c.primaryKey), [], Col(parent, m.morphId)) != []
    ensures !PointedOne(db, m, others, [], parent) && !ReachedOne(db, m, others, [], parent)
  {
    var key := Default(m.ownerKey, c.primaryKey);
    assert Table(db, c.table) == [row] && c.scopes + [] == c.scopes;
    FilterOne(row, Keep(key, {Col(parent, m.morphId)}, QueryPasses(c, [], [])));
    MatchingOne(row, c.scopes, key, Col(parent, m.morphId));
    forall k | k in others
      ensures !Pointed(db, m, k, [], parent)
           && Reached(db, k, Default(m.ownerKey, k.primaryKey), [], Col(parent, m.morphId)) == []
    {
      assert Table(db, k.table) == [];
    }
  }

  /** The condition on names is needed: one row of such a class, in a table of its own, is found or loaded, not both. */
  lemma NamesMatter(model: Model, m: MorphTo, types: seq<(string, Model)>, constraints: string -> seq<Clause>,
                    parent: Row, t: string, c: Model, row: Row)
    requires Listable(model, types) && types != [] && Col(parent, m.morphType) == Str(t) && constraints(t) == []
    requires NamedOnce(m, types, t, c)
    requires forall k <- Queried(types, t) + Resolving(m, types, t) - {c} :: k.table != c.table
    requires Col(row, Default(m.ownerKey, c.primaryKey)) == Col(parent, m.morphId) != Null
    requires Holds(c.scopes, row) == True
    ensures
      var db: Db := map[c.table := [row]];
      HasMorph(db, model, m, types, constraints, false, parent) == True
      <==> !LoadsListed(m, types, parent, JoinedMorphTo(db, m, constraints, parent))
  {
    var db: Db := map[c.table := [row]];
    var queried, resolving := Queried(types, t), Resolving(m, types, t);
    HasMorphAsks(db, model, m, types, constraints, parent, t);
    LoadingAsks(db, m, types, constraints, parent, t);
    OnlyRow(db, m, c, row, parent, queried + resolving - {c});
    if c in queried {
      assert PointedOne(db, m, queried, [], parent);
      assert !ReachedOne(db, m, resolving, [], parent);
    } else {
      assert ReachedOne(db, m, resolving, [], parent);
      assert !PointedOne(db, m, queried, [], parent);
    }
  }

  const POST := Model("posts", "id", "posts", [])
  const NOTE := Model("notes", "id", "notes", [])
  const NOTABLE := MorphTo("note_type", "note_id", None, map["post" := POST])
  const POST_NOTE: Row := map["id" := Num(1), "note_type" := Str("post"), "note_id" := Num(7)]
  const SEVENTH_POST: Row := map["id" := Num(7)]

  /**
   * For instance, a declaration that calls posts "post" where their own alias is the table's name: rows of type
   * "post" load their posts, and `whereHasMorph` over the class finds none of them.
   */
  lemma LocalNameDisagrees(constraints: string -> seq<Clause>)
    requires constraints("post") == []
    ensures
      var db: Db := map["posts" := [SEVENTH_POST]];
      && JoinedMorphTo(db, NOTABLE, constraints, POST_NOTE) == Single(SEVENTH_POST)
      && HasMorph(db, NOTE, NOTABLE, ByAlias([POST]), constraints, false, POST_NOTE) != True
  {
    var db: Db := map["posts" := [SEVENTH_POST]];
    var types := ByAlias([POST]);
    assert types[0] == ("posts", POST) && Listed(types, POST);
    assert Queried(types, "post") == {};
    assert SubAlias(POST) != "notes" by {
      assert SubAlias(POST)[0] == 'p';
    }
    NamesMatter(NOTE, NOTABLE, types, constraints, POST_NOTE, "post", POST, SEVENTH_POST);
    MatchingOne(SEVENTH_POST, [], "id", Num(7));
  }

  /** A list that is empty does not match nothing: it keeps every row, and its negation none. */
  lemma EmptyTypeListKeepsAll(db: Db, model: Model, m: MorphTo, constraints: string -> seq<Clause>, parent: Row)
    ensures HasMorph(db, model, m, [], constraints, false, parent) == True
    ensures HasMorph(db, model, m, [], constraints, true, parent) == False
  {
    assert MorphDisjuncts(model, m, [], constraints) == [];
  }

  /**
   * `whereDoesntHaveMorph` is the complement of `whereHasMorph` except on rows with a NULL discriminant whose
   * id happens to be the key of a row of a listed type: neither keeps those.
   */
  lemma DoesntHaveMorph(db: Db, model: Model, m: MorphTo, types: seq<(string, Model)>,
                        constraints: string -> seq<Clause>,
                        parent: Row)
    requires Listable(model, types) && types != []
    ensures HasMorph(db, model, m, types, constraints, true, parent) == True <==>
      && HasMorph(db, model, m, types, constraints, false, parent) != True
      && !(Col(parent, m.morphType) == Null
           && exists i :: 0 <= i < |types| && Pointed(db, m, types[i].1, constraints(types[i].0), parent))
  {
    DisjunctsEval(db, model, m, types, constraints, parent);
    forall i | 0 <= i < |types|
      ensures DisjunctTruth(db, m, types[i].0, types[i].1, constraints(types[i].0), parent) == Unknown <==>
        Col(parent, m.morphType) == Null && Pointed(db, m, types[i].1, constraints(types[i].0), parent)
    {
    }
  }

  // ----------------------------------------------------------- whereMorphedTo

  function MorphedToTruth(db: Db, model: Model, m: MorphTo, related: Model, target: Row, not: bool,
                          parent: Row): Truth {
    Eval(db, model.table, None, Env(model, parent), Group(false, not, MorphedTo(m, related, target)))
  }

  /** A row is kept when it stores the target's alias and key; its negation also drops what it cannot tell. */
  lemma MorphedToKeeps(db: Db, model: Model, m: MorphTo, related: Model, target: Row, parent: Row)
    ensures
      var key := Col(target, Default(m.ownerKey, related.primaryKey));
      var typeValue, idValue := Col(parent, m.morphType), Col(parent, m.morphId);
      && (MorphedToTruth(db, model, m, related, target, false, parent) == True <==>
            typeValue == Str(related.alias) && idValue == key && key != Null)
      && (MorphedToTruth(db, model, m, related, target, true, parent) == True <==>
            || (typeValue != Null && typeValue != Str(related.alias))
            || (idValue != Null && key != Null && idValue != key))
  {
    var nodes := MorphedTo(m, related, target);
    assert nodes[..1] == [nodes[0]] && [nodes[0]][..0] == [];
    assert EvalAll(db, model.table, None, Env(model, parent), [nodes[0]])
        == Equal(Col(parent, m.morphType), Str(related.alias));
    assert EvalAll(db, model.table, None, Env(model, parent), nodes)
        == And(EvalAll(db, model.table, None, Env(model, parent), [nodes[0]]),
               Eval(db, model.table, None, Env(model, parent), nodes[1]));
    assert Eval(db, model.table, None, Env(model, parent), nodes[1])
        == Equal(Col(parent, m.morphId), Col(target, Default(m.ownerKey, related.primaryKey)));
  }

  // -------------------------------------------------------------- where not

  /** Scopes of the through model are applied by the loader only, so it never attaches more than the subquery finds. */
  lemma ThroughScopesOnlyNarrow(db: Db, model: Model, rel: Relation, constraint: seq<Clause>, parent: Row)
    requires Visible(model, rel) && IsThrough(rel) && Agreeable(db, model, rel, constraint, parent)
    requires AttachedRows(Joined(db, model, rel, constraint, parent)) != []
    ensures SubqueryRows(db, model, rel, constraint, parent) != []
  {
    SubqueryFinds(db, model, rel, constraint, parent);
    JoinedFinds(db, model, rel, constraint, parent);
    LoadedAreReached(db, model, rel, constraint, parent);
  }

  /**
   * And it attaches nothing where the subquery finds something exactly where the related rows that pass are all
   * reached through rejected rows.
   */
  lemma ThroughScopesDisagreeIff(db: Db, model: Model, rel: Relation, constraint: seq<Clause>, parent: Row)
    requires Visible(model, rel) && IsThrough(rel) && Agreeable(db, model, rel, constraint, parent)
    ensures
      var second := Default(rel.secondLocalKey, rel.through.primaryKey);
      var bare, scoped := BareLinks(db, model, rel, parent), ThroughLinks(db, model, rel, parent);
      SubqueryRows(db, model, rel, constraint, parent) != []
      && AttachedRows(Joined(db, model, rel, constraint, parent)) == []
      <==> ReachedBy(db, rel.related, rel.secondKey, constraint, Values(bare, second)) != []
           && ReachedBy(db, rel.related, rel.secondKey, constraint, Values(scoped, second)) == []
  {
    SubqueryFinds(db, model, rel, constraint, parent);
    JoinedFinds(db, model, rel, constraint, parent);
  }

  lemma MatchingCons(row: Row, rest: seq<Row>, column: string, key: Value)
    requires key != Null
    ensures Matching([row] + rest, [], column, key, [])
         == (if Col(row, column) == key then [row] else []) + Matching(rest, [], column, key, [])
  {
    assert ([row] + rest)[1..] == rest;
    assert [] + [ALWAYS] + [] == [ALWAYS] && Holds([ALWAYS], row) == True;
  }

  const SCOPED_MODEL := Model("users", "id", "user", [])
  const NOT_DELETED := Clause(false, (row: Row) => Equal(Col(row, "deleted"), Num(0)))
  const SCOPED_RELATION := HasManyThrough(Model("comments", "id", "comment", []),
                                          Model("posts", "id", "post", [NOT_DELETED]),
                                          "user_id", "post_id", None, None)
  const DELETED_POST: Row := map["id" := Num(2), "user_id" := Num(1), "deleted" := Num(1)]
  const COMMENT: Row := map["id" := Num(3), "post_id" := Num(2)]
  const SCOPED_DB: Db := map["posts" := [DELETED_POST], "comments" := [COMMENT]]

  /** One through row and one related row, connected, with the through row rejected by its model's scopes. */
  ghost predicate RejectedLink(model: Model, rel: Relation, parent: Row, link: Row, row: Row) {
    && IsThrough(rel) && Visible(model, rel) && rel.through.table != rel.related.table
    && Col(link, rel.firstKey) == Col(parent, Default(rel.localKey, model.primaryKey)) != Null
    && Col(row, rel.secondKey) == Col(link, Default(rel.secondLocalKey, rel.through.primaryKey)) != Null
    && Holds(rel.related.scopes, row) == True && Holds(rel.through.scopes, link) != True
  }

  function OneLink(rel: Relation, link: Row, row: Row): (db: Db)
    requires IsThrough(rel) && rel.through.table != rel.related.table
    ensures Table(db, rel.through.table) == [link] && Table(db, rel.related.table) == [row]
  {
    map[rel.through.table := [link], rel.related.table := [row]]
  }

  lemma RejectedLinkAttachesNothing(model: Model, rel: Relation, parent: Row, link: Row, row: Row)
    requires RejectedLink(model, rel, parent, link, row)
    ensures AttachedRows(Joined(OneLink(rel, link, row), model, rel, [], parent)) == []
  {
    MatchingOne(link, rel.through.scopes, rel.firstKey, Col(parent, Default(rel.localKey, model.primaryKey)));
  }

  lemma RejectedLinkIsFound(model: Model, rel: Relation, parent: Row, link: Row, row: Row)
    requires RejectedLink(model, rel, parent, link, row)
    ensures SubqueryRows(OneLink(rel, link, row), model, rel, [], parent) == [row]
  {
    var db := OneLink(rel, link, row);
    MatchingOne(link, [], rel.firstKey, Col(parent, Default(rel.localKey, model.primaryKey)));
    assert BareLinks(db, model, rel, parent) == [link];
    SubqueryKeeps(db, model, rel, [], parent);
    FilterOne(row, Keep(rel.secondKey, ReachedKeys(db, model, rel, parent), QueryPasses(rel.related, [], [])));
    assert rel.related.scopes + [] == rel.related.scopes;
  }

  /**
   * The condition is needed: let the scopes reject one through row that leads from a parent to a row of the
   * related table, and in a database of just these rows `whereHas` keeps the parent while loading attaches nothing.
   */
  lemma ScopedLinkDisagrees(model: Model, rel: Relation, parent: Row, link: Row, row: Row)
    requires RejectedLink(model, rel, parent, link, row)
    ensures
      var db := OneLink(rel, link, row);
      && AttachedRows(Joined(db, model, rel, [], parent)) == []
      && SubqueryRows(db, model, rel, [], parent) == [row]
  {
    RejectedLinkAttachesNothing(model, rel, parent, link, row);
    RejectedLinkIsFound(model, rel, parent, link, row);
  }

  lemma MatchingOne(row: Row, scopes: seq<Clause>, column: string, key: Value)
    ensures Matching([row], scopes, column, key, [])
         == if Col(row, column) == key && key != Null && Holds(scopes, row) == True then [row] else []
  {
    HoldsAlways(scopes, row);
    assert [row][1..] == [];
  }

  lemma FilterOne(row: Row, keep: Row -> bool)
    ensures Filter([row], keep) == if keep(row) then [row] else []
  {
    assert [row][1..] == [];
  }

  /** For instance, a soft-deleted through row still counts for `whereHas`. */
  lemma ThroughScopesDisagree()
    ensures
      var parent: Row := map["id" := Num(1)];
      && AttachedRows(Joined(SCOPED_DB, SCOPED_MODEL, SCOPED_RELATION, [], parent)) == []
      && SubqueryRows(SCOPED_DB, SCOPED_MODEL, SCOPED_RELATION, [], parent) != []
  {
    ScopedLinkDisagrees(SCOPED_MODEL, SCOPED_RELATION, map["id" := Num(1)], DELETED_POST, COMMENT);
  }

  /**
   * Only the related table is aliased. When the through or pivot table is the parent's own, the reference meant
   * for the parent reads the link row itself: the links found are those that point at themselves, whoever the
   * parent is.
   */
  lemma HiddenParentIsIgnored(db: Db, parentTable: string, select: string, key: string, localKey: string,
                              discriminant: Option<(string, string)>, env: seq<Frame>)
    ensures Result(db, env, LinkQuery(parentTable, parentTable, select, key, localKey, discriminant))
         == Filter(Table(db, parentTable), PointsAtItself(key, localKey, discriminant))
  {
    var query := LinkQuery(parentTable, parentTable, select, key, localKey, discriminant);
    forall r | r in Table(db, parentTable)
      ensures Selects(db, env, query, r) <==> PointsAtItself(key, localKey, discriminant)(r)
    {
      SelfLinked(db, parentTable, select, key, localKey, discriminant, env, r);
    }
    ResultIsFilter(db, env, query, Table(db, parentTable), PointsAtItself(key, localKey, discriminant));
  }

  lemma SelfLinked(db: Db, table: string, select: string, key: string, localKey: string,
                   discriminant: Option<(string, string)>, env: seq<Frame>, r: Row)
    ensures Selects(db, env, LinkQuery(table, table, select, key, localKey, discriminant), r)
       <==> PointsAtItself(key, localKey, discriminant)(r)
  {
    var query := LinkQuery(table, table, select, key, localKey, discriminant);
    var here := [Frame(table, r)] + env;
    var same := ColumnEq(false, Qualified(table, key), Qualified(table, localKey), true);
    EvalSnoc(db, table, None, here, [], same);
    assert [] + [same] == [same];
    match discriminant
    case None =>
      assert query.wheres == [same];
    case Some(d) =>
      var typed := Basic(false, Qualified(table, d.0), Str(d.1));
      assert query.wheres == [same] + [typed];
      EvalSnoc(db, table, None, here, [same], typed);
  }

  function PointsAtItself(key: string, localKey: string, discriminant: Option<(string, string)>): Row -> bool {
    (r: Row) => && Equal(Col(r, key), Col(r, localKey)) == True
                && match discriminant case None => true case Some(d) => Equal(Col(r, d.0), Str(d.1)) == True
  }

  /** The link table of the relation is the parent's own. */
  predicate Hidden(model: Model, rel: Relation) {
    if IsThrough(rel) then rel.through.table == model.table
    else IsPivot(rel) && PivotOf(model, rel).pivotTable == model.table
  }

  /** The keys its subquery reaches: those of the rows that point at themselves. */
  ghost function SelfKeys(db: Db, model: Model, rel: Relation): set<Value>
    requires Hidden(model, rel)
  {
    if IsThrough(rel) then
      Values(Filter(Table(db, model.table),
                    PointsAtItself(rel.firstKey, Default(rel.localKey, model.primaryKey), None)),
             Default(rel.secondLocalKey, rel.through.primaryKey))
    else
      var spec := PivotOf(model, rel);
      Values(Filter(Table(db, model.table), PointsAtItself(spec.thisPivotKey, spec.localKey, spec.discriminant)),
             spec.relatedPivotKey)
  }

  lemma HiddenCorrelation(db: Db, model: Model, rel: Relation, parent: Row, row: Row)
    requires Hidden(model, rel)
    ensures CorrelationHolds(db, model, rel, parent, row) <==>
      Col(row, ReachedColumn(model, rel)) != Null && Col(row, ReachedColumn(model, rel)) in SelfKeys(db, model, rel)
  {
    var sub := SubAlias(rel.related);
    var here := [Frame(sub, row)] + Env(model, parent);
    if IsThrough(rel) {
      var second, local := Default(rel.secondLocalKey, rel.through.primaryKey), Default(rel.localKey, model.primaryKey);
      var links := LinkQuery(model.table, model.table, second, rel.firstKey, local, None);
      HiddenParentIsIgnored(db, model.table, second, rel.firstKey, local, None, here);
      InLinksHolds(db, rel.related.table, sub, here, rel.secondKey, links, Result(db, here, links));
      assert Correlation(model, rel) == [InQuery(false, Qualified(sub, rel.secondKey), links)];
    } else {
      HiddenPivotCorrelation(db, model, rel, parent, row);
    }
  }

  lemma HiddenPivotCorrelation(db: Db, model: Model, rel: Relation, parent: Row, row: Row)
    requires IsPivot(rel) && Hidden(model, rel)
    ensures CorrelationHolds(db, model, rel, parent, row) <==>
      Col(row, ReachedColumn(model, rel)) != Null && Col(row, ReachedColumn(model, rel)) in SelfKeys(db, model, rel)
  {
    var sub, spec := SubAlias(rel.related), PivotOf(model, rel);
    var here := [Frame(sub, row)] + Env(model, parent);
    var links := LinkQuery(model.table, model.table, spec.relatedPivotKey, spec.thisPivotKey, spec.localKey,
                           spec.discriminant);
    HiddenParentIsIgnored(db, model.table, spec.relatedPivotKey, spec.thisPivotKey, spec.localKey, spec.discriminant,
                          here);
    InLinksHolds(db, rel.related.table, sub, here, spec.relatedKey, links, Result(db, here, links));
    assert Correlation(model, rel) == [InQuery(false, Qualified(sub, spec.relatedKey), links)];
  }

  /** The subquery selects the rows whose key is among these. The parent does not occur on the right. */
  lemma HiddenSubquery(db: Db, model: Model, rel: Relation, constraint: seq<Clause>, parent: Row)
    requires Hidden(model, rel)
    ensures SubqueryRows(db, model, rel, constraint, parent)
         == Filter(Table(db, rel.related.table),
                   Keep(ReachedColumn(model, rel), SelfKeys(db, model, rel), QueryPasses(rel.related, [], constraint)))
  {
    var keep := Keep(ReachedColumn(model, rel), SelfKeys(db, model, rel), QueryPasses(rel.related, [], constraint));
    forall r | r in Table(db, rel.related.table)
      ensures Selects(db, Env(model, parent), RelationQuery(model, rel, constraint), r) <==> keep(r)
    {
      SelectsBy(db, model, rel, constraint, parent, r);
      HiddenCorrelation(db, model, rel, parent, r);
    }
    ResultIsFilter(db, Env(model, parent), RelationQuery(model, rel, constraint), Table(db, rel.related.table), keep);
  }

  /** So no two parents are told apart, whatever loading attaches to either. */
  lemma HiddenParentsAreAlike(db: Db, model: Model, rel: Relation, constraint: seq<Clause>, parent: Row, other: Row)
    requires Hidden(model, rel)
    ensures SubqueryRows(db, model, rel, constraint, parent) == SubqueryRows(db, model, rel, constraint, other)
    ensures forall not ::
      WhereHas(db, model, rel, constraint, not, parent) == WhereHas(db, model, rel, constraint, not, other)
  {
    HiddenSubquery(db, model, rel, constraint, parent);
    HiddenSubquery(db, model, rel, constraint, other);
  }

  /** A row passes the one way under these keys if and only if it passes the other way under those. */
  ghost predicate KeptAlike(rows: seq<Row>, column: string, keys: set<Value>, passes: Row -> bool, others: set<Value>,
                            other: Row -> bool)
  {
    forall r <- rows :: Col(r, column) != Null ==>
      (Col(r, column) in keys && passes(r) <==> Col(r, column) in others && other(r))
  }

  /**
   * The rows selected are the rows loading finds for this parent if and only if no row passes the one way under the
   * keys of the rows that point at themselves and not the other way under the parent's own.
   */
  lemma HiddenAgreesIff(db: Db, model: Model, rel: Relation, constraint: seq<Clause>, parent: Row)
    requires Hidden(model, rel)
    ensures
      var column := ReachedColumn(model, rel);
      var own, followed := SelfKeys(db, model, rel), LoadedKeys(db, model, rel, parent);
      SubqueryRows(db, model, rel, constraint, parent) == FoundBy(db, model, rel, constraint, followed) <==>
      KeptAlike(Table(db, rel.related.table), column, own, QueryPasses(rel.related, [], constraint),
                followed, LoaderPasses(rel.related, [], constraint))
  {
    var column, rows := ReachedColumn(model, rel), Table(db, rel.related.table);
    var own, followed := SelfKeys(db, model, rel), LoadedKeys(db, model, rel, parent);
    var query, loader := QueryPasses(rel.related, [], constraint), LoaderPasses(rel.related, [], constraint);
    HiddenSubquery(db, model, rel, constraint, parent);
    FilterKeys(rows, column, own, query, followed, loader);
  }

  /** Some row passes under one of the keys. */
  ghost predicate Reaches(db: Db, related: Model, column: string, keys: set<Value>, passes: Row -> bool) {
    exists r :: r in Table(db, related.table) && Keep(column, keys, passes)(r)
  }

  /**
   * And `whereHas` keeps the parent when loading attaches something to it, and only then, if and only if a row
   * passes under either set of keys or under neither.
   */
  lemma HiddenWhereHasIff(db: Db, model: Model, rel: Relation, constraint: seq<Clause>, parent: Row)
    requires Hidden(model, rel)
    ensures
      var column := ReachedColumn(model, rel);
      (SubqueryRows(db, model, rel, constraint, parent) != []
       <==> AttachedRows(Joined(db, model, rel, constraint, parent)) != [])
      <==> (Reaches(db, rel.related, column, SelfKeys(db, model, rel), QueryPasses(rel.related, [], constraint))
            <==> Reaches(db, rel.related, column, LoadedKeys(db, model, rel, parent),
                         LoaderPasses(rel.related, [], constraint)))
  {
    var column, rows := ReachedColumn(model, rel), Table(db, rel.related.table);
    HiddenSubquery(db, model, rel, constraint, parent);
    JoinedFinds(db, model, rel, constraint, parent);
    SomeKept(rows, Keep(column, SelfKeys(db, model, rel), QueryPasses(rel.related, [], constraint)));
    SomeKept(rows, Keep(column, LoadedKeys(db, model, rel, parent), LoaderPasses(rel.related, [], constraint)));
  }

  lemma SomeKept(rows: seq<Row>, keep: Row -> bool)
    ensures Filter(rows, keep) != [] <==> exists r :: r in rows && keep(r)
  {
    if Filter(rows, keep) != [] {
      assert Filter(rows, keep)[0] in Filter(rows, keep);
    }
  }

  lemma FilterKeys(rows: seq<Row>, column: string, keys: set<Value>, passes: Row -> bool, others: set<Value>,
                   other: Row -> bool)
    ensures Filter(rows, Keep(column, keys, passes)) == Filter(rows, Keep(column, others, other)) <==>
      KeptAlike(rows, column, keys, passes, others, other)
  {
    FilterSame(rows, Keep(column, keys, passes), Keep(column, others, other));
    forall r | r in rows
      ensures (Keep(column, keys, passes)(r) <==> Keep(column, others, other)(r)) <==>
        (Col(r, column) != Null ==>
           (Col(r, column) in keys && passes(r) <==> Col(r, column) in others && other(r)))
    {
    }
  }

  const CATEGORY := Model("categories", "id", "category", [])
  const GRANDCHILDREN := HasManyThrough(CATEGORY, CATEGORY, "parent_id", "parent_id", None, None)
  const ROOT: Row := map["id" := Num(1)]
  const CHILD: Row := map["id" := Num(2), "parent_id" := Num(1)]
  const GRANDCHILD: Row := map["id" := Num(3), "parent_id" := Num(2)]
  const CATEGORIES: Db := map["categories" := [ROOT, CHILD, GRANDCHILD]]

  /** The categories whose parent is `key`. */
  lemma CategoriesUnder(key: Value)
    requires key != Null
    ensures Matching(CATEGORIES["categories"], [], "parent_id", key, [])
         == (if key == Num(1) then [CHILD] else []) + (if key == Num(2) then [GRANDCHILD] else [])
  {
    assert CATEGORIES["categories"] == [ROOT] + ([CHILD] + ([GRANDCHILD] + []));
    MatchingCons(ROOT, [CHILD] + ([GRANDCHILD] + []), "parent_id", key);
    MatchingCons(CHILD, [GRANDCHILD] + [], "parent_id", key);
    MatchingCons(GRANDCHILD, [], "parent_id", key);
  }

  /** So a relation through the parent's own table loads grandchildren that `whereHas` does not find. */
  lemma SelfThroughDisagrees()
    ensures GRANDCHILD in AttachedRows(Joined(CATEGORIES, CATEGORY, GRANDCHILDREN, [], ROOT))
    ensures SubqueryRows(CATEGORIES, CATEGORY, GRANDCHILDREN, [], ROOT) == []
  {
    SelfThroughAttaches();
    SelfThroughFindsNothing();
  }

  lemma SelfThroughAttaches()
    ensures GRANDCHILD in AttachedRows(Joined(CATEGORIES, CATEGORY, GRANDCHILDREN, [], ROOT))
  {
    CategoriesUnder(Num(1));
    CategoriesUnder(Num(2));
    assert CATEGORY.scopes + [] == [];
    var links := ThroughLinks(CATEGORIES, CATEGORY, GRANDCHILDREN, ROOT);
    assert links == [CHILD];
    assert FlatMatched(CATEGORIES, links[1..], "id", CATEGORY, "parent_id", []) == [];
  }

  lemma SelfThroughFindsNothing()
    ensures SubqueryRows(CATEGORIES, CATEGORY, GRANDCHILDREN, [], ROOT) == []
  {
    HiddenSubquery(CATEGORIES, CATEGORY, GRANDCHILDREN, [], ROOT);
    NothingKept(Table(CATEGORIES, "categories"), PointsAtItself("parent_id", "id", None));
    assert SelfKeys(CATEGORIES, CATEGORY, GRANDCHILDREN) == {};
    NothingKept(Table(CATEGORIES, "categories"), Keep("parent_id", {}, QueryPasses(CATEGORY, [], [])));
  }

  const AUTHOR := Model("users", "id", "user", [])
  const COMMENTS := HasMany(Model("comments", "id", "comment", []), "user_id", None)
  const OR_APPROVED := Clause(true, (row: Row) => Equal(Col(row, "approved"), Num(1)))
  const REJECTED: Row := map["user_id" := Num(1), "approved" := Num(0)]
  const REVIEWED: Db := map["comments" := [REJECTED]]

  /**
   * A constraint that starts with `or` means two things: the loader reads it after its own `in`, so it widens;
   * the subquery reads it first, so it narrows.
   */
  lemma OrConstraintDisagrees()
    ensures
      var parent: Row := map["id" := Num(1)];
      && AttachedRows(Joined(REVIEWED, AUTHOR, COMMENTS, [OR_APPROVED], parent)) == [REJECTED]
      && SubqueryRows(REVIEWED, AUTHOR, COMMENTS, [OR_APPROVED], parent) == []
  {
    OrWidensLoading();
    OrWidensNoSubquery();
  }

  lemma OrWidensNoSubquery()
    ensures SubqueryRows(REVIEWED, AUTHOR, COMMENTS, [OR_APPROVED], map["id" := Num(1)]) == []
  {
    SubqueryKeeps(REVIEWED, AUTHOR, COMMENTS, [OR_APPROVED], map["id" := Num(1)]);
    assert [] + [OR_APPROVED] == [OR_APPROVED];
    NothingKept([REJECTED], Keep("user_id", {Num(1)}, QueryPasses(COMMENTS.related, [], [OR_APPROVED])));
  }

  lemma OrWidensLoading()
    ensures JoinedHas(REVIEWED, AUTHOR, COMMENTS, [OR_APPROVED], map["id" := Num(1)]) == [REJECTED]
  {
    HoldsSnoc([ALWAYS], OR_APPROVED, REJECTED);
    assert [] + [ALWAYS] + [OR_APPROVED] == [ALWAYS] + [OR_APPROVED];
    assert COMMENTS.related.scopes + [] == [] && Holds([ALWAYS], REJECTED) == True;
    assert Matching([REJECTED][1..], [], "user_id", Num(1), [OR_APPROVED]) == [];
  }
}
