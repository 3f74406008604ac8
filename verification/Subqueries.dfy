/** Where trees with correlated subqueries, what they mean on rows, and the builder that accumulates them. */
module Subqueries {
  import opened Text
  import opened Rows
  import opened Relations

  /** A column reference, qualified by a table name or alias or not at all. */
  datatype Ref = Ref(qualifier: Option<string>, column: string)

  datatype Node =
    | Test(clause: Clause)
    | Basic(isOr: bool, column: Ref, value: Value)
    | ColumnEq(isOr: bool, first: Ref, second: Ref, secondIsOuter: bool)
    | InQuery(isOr: bool, column: Ref, sub: Query)
    | Exists(isOr: bool, not: bool, sub: Query)
    | Group(isOr: bool, not: bool, nested: seq<Node>)

  datatype Query = Query(table: string, alias: Option<string>, column: string, wheres: seq<Node>)

  /** One table in scope under the name it is selected as; the innermost frame comes first. */
  datatype Frame = Frame(name: string, row: Row)

  function IsOr(node: Node): bool { if node.Test? then node.clause.isOr else node.isOr }

  /** An aliased builder rewrites references to its real table. */
  function Qualify(table: string, alias: Option<string>, ref: Ref): Ref {
    if alias.Some? && ref.qualifier == Some(table) then ref.(qualifier := alias) else ref
  }

  /** A qualified reference reads the innermost frame of that name, a bare one the innermost frame. */
  function Read(env: seq<Frame>, ref: Ref): Value {
    if env == [] then Null
    else if ref.qualifier.None? || ref.qualifier == Some(env[0].name) then Col(env[0].row, ref.column)
    else Read(env[1..], ref)
  }

  /** SQL's `v in (values)`. */
  function InTruth(v: Value, values: seq<Value>): Truth {
    if values == [] then False
    else if v != Null && v in values then True
    else if v.Null? || Null in values then Unknown
    else False
  }

  function Eval(db: Db, table: string, alias: Option<string>, env: seq<Frame>, node: Node): Truth
    decreases node
  {
    match node
    case Test(clause) => if env == [] then Unknown else clause.test(env[0].row)
    case Basic(_, column, value) => Equal(Read(env, Qualify(table, alias, column)), value)
    case ColumnEq(_, first, second, outer) =>
      Equal(Read(env, Qualify(table, alias, first)), Read(env, if outer then second else Qualify(table, alias, second)))
    case InQuery(_, column, sub) =>
      InTruth(Read(env, Qualify(table, alias, column)), ColumnOf(Result(db, env, sub), sub.column))
    case Exists(_, not, sub) => if (Result(db, env, sub) != []) != not then True else False
    case Group(_, not, nested) =>
      if not then Not(EvalAll(db, table, alias, env, nested)) else EvalAll(db, table, alias, env, nested)
  }

  /** The nodes joined from the left; the first connector is ignored, and no nodes at all are true. */
  function EvalAll(db: Db, table: string, alias: Option<string>, env: seq<Frame>, nodes: seq<Node>): Truth
    decreases nodes
  {
    if nodes == [] then True
    else
      var init, last := nodes[..|nodes| - 1], nodes[|nodes| - 1];
      if init == [] then Eval(db, table, alias, env, last)
      else if IsOr(last) then Or(EvalAll(db, table, alias, env, init), Eval(db, table, alias, env, last))
      else And(EvalAll(db, table, alias, env, init), Eval(db, table, alias, env, last))
  }

  /** Whether the query, standing inside `env`, selects `row` of its table. */
  predicate Selects(db: Db, env: seq<Frame>, query: Query, row: Row)
    decreases query, 0
  {
    EvalAll(db, query.table, query.alias, [Frame(Default(query.alias, query.table), row)] + env, query.wheres) == True
  }

  function ResultFrom(db: Db, env: seq<Frame>, query: Query, rows: seq<Row>): (result: seq<Row>)
    ensures forall r <- result :: r in rows
    decreases query, 1, |rows|
  {
    if rows == [] then []
    else (if Selects(db, env, query, rows[0]) then [rows[0]] else []) + ResultFrom(db, env, query, rows[1..])
  }

  function Result(db: Db, env: seq<Frame>, query: Query): seq<Row>
    decreases query, 2
  {
    ResultFrom(db, env, query, Table(db, query.table))
  }

  function ColumnOf(rows: seq<Row>, column: string): (values: seq<Value>)
    ensures |values| == |rows| && forall i :: 0 <= i < |rows| ==> values[i] == Col(rows[i], column)
  {
    seq(|rows|, i requires 0 <= i < |rows| => Col(rows[i], column))
  }

  function Tests(clauses: seq<Clause>): (nodes: seq<Node>)
    ensures |nodes| == |clauses| && forall i :: 0 <= i < |nodes| ==> nodes[i] == Test(clauses[i])
  {
    seq(|clauses|, i requires 0 <= i < |clauses| => Test(clauses[i]))
  }

  /** The query builder: every chained call pushes one node in place. */
  class QueryBuilder {
    const table: string
    var alias: Option<string>
    var column: string
    var wheres: seq<Node>
    var counts: seq<(string, Query)>

    constructor (table: string)
      ensures this.table == table && Built() == Query(table, None, "*", []) && counts == []
    {
      this.table, alias, column, wheres, counts := table, None, "*", [], [];
    }

    function Built(): Query
      reads this
    {
      Query(table, alias, column, wheres)
    }

    method Push(node: Node)
      modifies this`wheres
      ensures wheres == old(wheres) + [node]
    {
      wheres := wheres + [node];
    }

    /** Global scopes and the caller's callback, clause by clause. */
    method Apply(clauses: seq<Clause>)
      modifies this`wheres
      ensures wheres == old(wheres) + Tests(clauses)
    {
      for i := 0 to |clauses|
        invariant wheres == old(wheres) + Tests(clauses[..i])
      {
        assert Tests(clauses[..i + 1]) == Tests(clauses[..i]) + [Test(clauses[i])];
        Push(Test(clauses[i]));
      }
      assert clauses[..|clauses|] == clauses;
    }
  }

  function Qualified(table: string, column: string): Ref { Ref(Some(table), column) }

  function Bare(column: string): Ref { Ref(None, column) }

  function SubAlias(related: Model): string { related.table + "__sub" }

  // ------------------------------------------------- the relation subquery

  /** The pivot or through query an `in` correlates with the parent. */
  function LinkQuery(parent: string, table: string, select: string, key: string, localKey: string,
                     discriminant: Option<(string, string)>): Query
  {
    Query(table, None, select,
          [ColumnEq(false, Qualified(table, key), Qualified(parent, localKey), true)]
          + match discriminant case None => [] case Some(d) => [Basic(false, Qualified(table, d.0), Str(d.1))])
  }

  /** The predicates that tie the related table's rows to the parent row. */
  function Correlation(model: Model, rel: Relation): seq<Node> {
    var sub := SubAlias(rel.related);
    if rel.BelongsTo? then
      [ColumnEq(false, Qualified(sub, Default(rel.ownerKey, rel.related.primaryKey)),
                Qualified(model.table, rel.foreignKey),
                true)]
    else if IsHas(rel) then
      (if rel.HasOne? || rel.HasMany? then []
       else [Basic(false, Bare(rel.morphType), Str(Default(rel.typeName, model.alias)))])
      + [ColumnEq(false, Qualified(sub, HasKey(rel)), Qualified(model.table, HasLocal(model, rel)), true)]
    else if IsThrough(rel) then
      [InQuery(false, Qualified(sub, rel.secondKey),
               LinkQuery(model.table, rel.through.table, Default(rel.secondLocalKey, rel.through.primaryKey),
                         rel.firstKey,
                         Default(rel.localKey, model.primaryKey), None))]
    else
      var localKey := Default(rel.localKey, model.primaryKey);
      [InQuery(false, Qualified(sub, Default(rel.relatedKey, rel.related.primaryKey)),
               if rel.BelongsToMany? then
                 LinkQuery(model.table, rel.pivotTable, rel.relatedPivotKey, rel.foreignPivotKey, localKey, None)
               else if rel.MorphToMany? then
                 LinkQuery(model.table, rel.pivotTable, rel.relatedPivotKey, rel.morphId, localKey,
                           Some((rel.morphType, Default(rel.typeName, model.alias))))
               else
                 LinkQuery(model.table, rel.pivotTable, rel.morphId, rel.foreignPivotKey, localKey,
                           Some((rel.morphType, Default(rel.typeName, rel.related.alias)))))]
  }

  function RelationQuery(model: Model, rel: Relation, constraint: seq<Clause>): Query {
    Query(rel.related.table, Some(SubAlias(rel.related)), "*",
          Tests(rel.related.scopes) + Tests(constraint) + Correlation(model, rel))
  }

  method BuildLinkQuery(parent: string, table: string, select: string, key: string, localKey: string,
                        discriminant: Option<(string, string)>) returns (q: QueryBuilder)
    ensures fresh(q) && q.Built() == LinkQuery(parent, table, select, key, localKey, discriminant)
  {
    q := new QueryBuilder(table);
    q.column := select;
    q.Push(ColumnEq(false, Qualified(table, key), Qualified(parent, localKey), true));
    match discriminant {
      case None =>
      case Some(d) => q.Push(Basic(false, Qualified(table, d.0), Str(d.1)));
    }
  }

  /** The scoped builder, the caller's constraint, the alias, then the correlation. */
  method BuildRelationSubquery(model: Model, rel: Relation, constraint: seq<Clause>) returns (base: QueryBuilder)
    ensures fresh(base) && base.Built() == RelationQuery(model, rel, constraint)
  {
    base := new QueryBuilder(rel.related.table);
    base.Apply(rel.related.scopes);
    base.Apply(constraint);
    base.alias := Some(SubAlias(rel.related));
    if rel.BelongsTo? || IsHas(rel) {
      CorrelateColumn(base, model, rel);
    } else {
      CorrelateLinks(base, model, rel);
    }
  }

  method CorrelateColumn(base: QueryBuilder, model: Model, rel: Relation)
    requires rel.BelongsTo? || IsHas(rel)
    modifies base`wheres
    ensures base.wheres == old(base.wheres) + Correlation(model, rel)
  {
    var parent, sub := model.table, SubAlias(rel.related);
    if rel.BelongsTo? {
      base.Push(ColumnEq(false, Qualified(sub, Default(rel.ownerKey, rel.related.primaryKey)),
                         Qualified(parent, rel.foreignKey), true));
    } else {
      if rel.MorphOne? || rel.MorphMany? {
        base.Push(Basic(false, Bare(rel.morphType), Str(Default(rel.typeName, model.alias))));
      }
      base.Push(ColumnEq(false, Qualified(sub, HasKey(rel)), Qualified(parent, HasLocal(model, rel)), true));
    }
  }

  method CorrelateLinks(base: QueryBuilder, model: Model, rel: Relation)
    requires IsThrough(rel) || IsPivot(rel)
    modifies base`wheres
    ensures base.wheres == old(base.wheres) + Correlation(model, rel)
  {
    var parent, sub := model.table, SubAlias(rel.related);
    if IsThrough(rel) {
      var q := BuildLinkQuery(parent, rel.through.table, Default(rel.secondLocalKey, rel.through.primaryKey),
                              rel.firstKey,
                              Default(rel.localKey, model.primaryKey), None);
      base.Push(InQuery(false, Qualified(sub, rel.secondKey), q.Built()));
    } else {
      var localKey := Default(rel.localKey, model.primaryKey);
      var q;
      if rel.BelongsToMany? {
        q := BuildLinkQuery(parent, rel.pivotTable, rel.relatedPivotKey, rel.foreignPivotKey, localKey, None);
      } else if rel.MorphToMany? {
        q := BuildLinkQuery(parent, rel.pivotTable, rel.relatedPivotKey, rel.morphId, localKey,
                            Some((rel.morphType, Default(rel.typeName, model.alias))));
      } else {
        q := BuildLinkQuery(parent, rel.pivotTable, rel.morphId, rel.foreignPivotKey, localKey,
                            Some((rel.morphType, Default(rel.typeName, rel.related.alias))));
      }
      base.Push(InQuery(false, Qualified(sub, Default(rel.relatedKey, rel.related.primaryKey)), q.Built()));
    }
  }

  /** `whereHas`, `orWhereHas`, `whereDoesntHave` and `orWhereDoesntHave`. */
  method PushHas(query: QueryBuilder, model: Model, rel: Relation, constraint: seq<Clause>, isOr: bool, not: bool)
    modifies query`wheres
    ensures query.wheres == old(query.wheres) + [Exists(isOr, not, RelationQuery(model, rel, constraint))]
  {
    var base := BuildRelationSubquery(model, rel, constraint);
    query.Push(Exists(isOr, not, base.Built()));
  }

  /** `withCount` for one relation. */
  method PushCount(query: QueryBuilder, model: Model, name: string, rel: Relation, constraint: seq<Clause>)
    modifies query`counts
    ensures query.counts == old(query.counts) + [(name + "_count", RelationQuery(model, rel, constraint))]
  {
    var base := BuildRelationSubquery(model, rel, constraint);
    query.counts := query.counts + [(name + "_count", base.Built())];
  }

  // ----------------------------------------------------------- morphTo queries

  function MorphQuery(model: Model, m: MorphTo, related: Model, constraint: seq<Clause>): Query {
    Query(related.table, Some(SubAlias(related)), "*",
          Tests(related.scopes) + Tests(constraint)
          + [ColumnEq(false, Qualified(SubAlias(related), Default(m.ownerKey, related.primaryKey)),
                      Qualified(model.table, m.morphId), true)])
  }

  /** The disjunct of one type: the discriminant guards its own subquery. */
  function MorphDisjunct(model: Model, m: MorphTo, alias: string, related: Model, constraint: seq<Clause>): Node {
    Group(true, false, [Basic(false, Bare(m.morphType), Str(alias)),
                        Exists(false, false, MorphQuery(model, m, related, constraint))])
  }

  function MorphDisjuncts(model: Model, m: MorphTo, types: seq<(string, Model)>,
                          constraints: string -> seq<Clause>): seq<Node> {
    seq(|types|,
        i requires 0 <= i < |types| => MorphDisjunct(model, m, types[i].0, types[i].1, constraints(types[i].0)))
  }

  method BuildMorphExistsSubquery(model: Model, m: MorphTo, related: Model, constraint: seq<Clause>)
    returns (base: QueryBuilder)
    ensures fresh(base) && base.Built() == MorphQuery(model, m, related, constraint)
  {
    base := new QueryBuilder(related.table);
    base.Apply(related.scopes);
    base.Apply(constraint);
    var sub := SubAlias(related);
    base.alias := Some(sub);
    base.Push(ColumnEq(false, Qualified(sub, Default(m.ownerKey, related.primaryKey)),
                       Qualified(model.table, m.morphId), true));
  }

  /** `whereHasMorph` and its three variants. */
  method PushHasMorph(query: QueryBuilder, model: Model, m: MorphTo, types: seq<(string, Model)>,
                      constraints: string -> seq<Clause>, isOr: bool, not: bool)
    modifies query`wheres
    ensures query.wheres == old(query.wheres) + [Group(isOr, not, MorphDisjuncts(model, m, types, constraints))]
  {
    var nested := new QueryBuilder(model.table);
    for i := 0 to |types|
      invariant nested.wheres == MorphDisjuncts(model, m, types[..i], constraints)
      invariant fresh(nested) && query.wheres == old(query.wheres)
    {
      var sub := BuildMorphExistsSubquery(model, m, types[i].1, constraints(types[i].0));
      nested.Push(Group(true, false,
                        [Basic(false, Bare(m.morphType), Str(types[i].0)), Exists(false, false, sub.Built())]));
    }
    assert types[..|types|] == types;
    query.Push(Group(isOr, not, nested.wheres));
  }

  /** `whereMorphedTo` and its three variants: both columns are the parent's own. */
  method PushMorphedTo(query: QueryBuilder, m: MorphTo, related: Model, target: Row, isOr: bool, not: bool)
    modifies query`wheres
    ensures query.wheres == old(query.wheres) + [Group(isOr, not, MorphedTo(m, related, target))]
  {
    var nested := new QueryBuilder(query.table);
    nested.Push(Basic(false, Bare(m.morphType), Str(related.alias)));
    nested.Push(Basic(false, Bare(m.morphId), Col(target, Default(m.ownerKey, related.primaryKey))));
    assert nested.wheres == MorphedTo(m, related, target);
    query.Push(Group(isOr, not, nested.wheres));
  }

  function MorphedTo(m: MorphTo, related: Model, target: Row): seq<Node> {
    [Basic(false, Bare(m.morphType), Str(related.alias)),
     Basic(false, Bare(m.morphId), Col(target, Default(m.ownerKey, related.primaryKey)))]
  }
}
