/** `with(...)` on a whole tree of relations: what every level shows, and what the tree costs in queries. */
module EagerTree {
  import opened Text
  import opened Rows
  import opened Relations
  import opened Batching
  import opened EagerLoading

  datatype Definition = Plain(rel: Relation) | Morph(m: MorphTo)

  /** The relations each model class declares. */
  type Declared = Model -> map<string, Definition>

  /** One requested relation; `perType` and `morphWith` are what a `morphTo`'s callback records. */
  datatype Node = Node(name: string, constraint: seq<Clause>, perType: string -> seq<Clause>, morphWith: seq<Branch>,
                       children: seq<Node>)
  datatype Branch = Branch(discriminant: string, tree: seq<Node>)

  ghost function Names(tree: seq<Node>): set<string> { set n | n in tree :: n.name }

  /** Siblings and branches are the keys of maps. */
  ghost predicate WellFormed(tree: seq<Node>)
    decreases tree
  {
    && (forall i, j :: 0 <= i < j < |tree| ==> tree[i].name != tree[j].name)
    && forall i :: 0 <= i < |tree| ==> WellFormedNode(tree[i])
  }

  ghost predicate WellFormedNode(node: Node)
    decreases node
  {
    && WellFormed(node.children)
    && (forall i :: 0 <= i < |node.morphWith| ==> WellFormed(node.morphWith[i].tree))
    && forall i, j :: 0 <= i < j < |node.morphWith| ==> node.morphWith[i].discriminant != node.morphWith[j].discriminant
  }

  /** Where the branch of a discriminant is, or the end. */
  function BranchIndex(branches: seq<Branch>, t: string): (i: nat)
    ensures i <= |branches| && (i < |branches| ==> branches[i].discriminant == t)
    ensures forall j :: 0 <= j < i ==> branches[j].discriminant != t
  {
    if branches == [] then 0 else if branches[0].discriminant == t then 0 else 1 + BranchIndex(branches[1..], t)
  }

  // ------------------------------------------------------- what it depends on

  /** The loader can tell the keys of this row's relation apart, and looks up no NULL that an `or` may have let in. */
  ghost predicate Told(db: Db, model: Model, rel: Relation, constraint: seq<Clause>, row: Row) {
    FaithfulKeys(db, model, rel, row) && (AndOnly(constraint) || Null !in LookedUp(db, model, rel, row))
  }

  /** Key columns that are told apart table by table tell the keys of every row of the parent's table. */
  lemma ColumnsTell(db: Db, model: Model, rel: Relation, row: Row)
    requires IsHas(rel) && row in Table(db, model.table)
    requires Faithful(Values(Table(db, rel.related.table), HasKey(rel))
                      + Values(Table(db, model.table), HasLocal(model, rel)))
    ensures FaithfulKeys(db, model, rel, row)
  {
    FaithfulSubset(Values(Table(db, rel.related.table), HasKey(rel))
                   + Values(Table(db, model.table), HasLocal(model, rel)),
                   Values(Table(db, rel.related.table), HasKey(rel)) + {Col(row, HasLocal(model, rel))});
  }

  /**
   * No `morphTo` of the tree has a NUL in its discriminants or in the keys they lead to; other relations do not
   * mind.
   */
  ghost predicate Calm(db: Db, declared: Declared, model: Model, tree: seq<Node>)
    decreases tree
  {
    forall i :: 0 <= i < |tree| ==> CalmNode(db, declared, model, tree[i])
  }

  ghost predicate CalmNode(db: Db, declared: Declared, model: Model, node: Node)
    decreases node, 2
  {
    node.name in declared(model) ==>
      match declared(model)[node.name]
      case Plain(rel) => Calm(db, declared, rel.related, node.children)
      case Morph(m) => CalmMorph(db, declared, m, node)
  }

  ghost predicate CalmMorph(db: Db, declared: Declared, m: MorphTo, node: Node)
    decreases node, 1
  {
    NulFreeTypes(db, m) && forall t <- m.types.Keys :: CalmBelow(db, declared, m, node, t)
  }

  ghost predicate CalmBelow(db: Db, declared: Declared, m: MorphTo, node: Node, t: string)
    decreases node, 0
  {
    t in m.types ==>
      && Calm(db, declared, m.types[t], node.children)
      && forall i :: 0 <= i < |node.morphWith| && node.morphWith[i].discriminant == t ==>
           Calm(db, declared, m.types[t], node.morphWith[i].tree)
  }

  // ------------------------------------------------------------ what it shows

  /**
   * The relations of a row of `model` are, level by level, the joins the tree asks for; `repr` holds every
   * instance below. Names in `hidden` are left open.
   */
  ghost predicate Shows(db: Db, declared: Declared, model: Model, tree: seq<Node>, hidden: set<string>, row: Row,
                        relations: map<string, Loaded>, repr: set<Instance>)
    reads repr
    decreases tree
  {
    forall i :: 0 <= i < |tree| && tree[i].name !in hidden ==>
      tree[i].name in relations && ShowsValue(db, declared, model, tree[i], row, relations[tree[i].name], repr)
  }

  ghost predicate ShowsValue(db: Db, declared: Declared, model: Model, node: Node, row: Row, value: Loaded,
                             repr: set<Instance>)
    reads repr
    decreases node, 1
  {
    && node.name in declared(model)
    && (forall y <- Members(value) :: y in repr)
    && match declared(model)[node.name]
       case Plain(rel) =>
         && (Told(db, model, rel, node.constraint, row) ==>
               Content(value) == Joined(db, model, rel, node.constraint, row))
         && forall y <- Members(value) ::
              y in repr && Shows(db, declared, rel.related, node.children, {}, y.row, y.relations, repr)
       case Morph(m) =>
         var t := Spell(Col(row, m.morphType));
         && (FaithfulIds(db, m, row) ==> Content(value) == JoinedMorphTo(db, m, node.perType, row))
         && forall y <- Members(value) :: y in repr && ShowsBelow(db, declared, m, node, t, y, repr)
  }

  /** What the parent `y` of a discriminant `t` shows below it. */
  ghost predicate ShowsBelow(db: Db, declared: Declared, m: MorphTo, node: Node, t: string, y: Instance,
                             repr: set<Instance>)
    reads y, repr
    decreases node, 0
  {
    && t in m.types
    && Shows(db, declared, m.types[t], node.children, {}, y.row, y.relations, repr)
    && forall i :: 0 <= i < |node.morphWith| && node.morphWith[i].discriminant == t ==>
         Shows(db, declared, m.types[t], node.morphWith[i].tree, Names(node.children), y.row, y.relations, repr)
  }

  lemma {:induction false} ShowsWider(db: Db, declared: Declared, model: Model, tree: seq<Node>, hidden: set<string>,
                                      row: Row,
                                      relations: map<string, Loaded>, repr: set<Instance>, wider: set<Instance>)
    requires Shows(db, declared, model, tree, hidden, row, relations, repr) && repr <= wider
    ensures Shows(db, declared, model, tree, hidden, row, relations, wider)
    decreases tree
  {
    forall i | 0 <= i < |tree| && tree[i].name !in hidden
      ensures ShowsValue(db, declared, model, tree[i], row, relations[tree[i].name], wider)
    {
      ShowsValueWider(db, declared, model, tree[i], row, relations[tree[i].name], repr, wider);
    }
  }

  lemma {:induction false} ShowsValueWider(db: Db, declared: Declared, model: Model, node: Node, row: Row,
                                           value: Loaded,
                                           repr: set<Instance>, wider: set<Instance>)
    requires ShowsValue(db, declared, model, node, row, value, repr) && repr <= wider
    ensures ShowsValue(db, declared, model, node, row, value, wider)
    decreases node, 1
  {
    match declared(model)[node.name]
    case Plain(rel) =>
      forall y | y in Members(value)
        ensures Shows(db, declared, rel.related, node.children, {}, y.row, y.relations, wider)
      {
        ShowsWider(db, declared, rel.related, node.children, {}, y.row, y.relations, repr, wider);
      }
    case Morph(m) =>
      var t := Spell(Col(row, m.morphType));
      forall y | y in Members(value) ensures ShowsBelow(db, declared, m, node, t, y, wider) {
        ShowsBelowWider(db, declared, m, node, t, y, repr, wider);
      }
  }

  lemma {:induction false} ShowsBelowWider(db: Db, declared: Declared, m: MorphTo, node: Node, t: string, y: Instance,
                                           repr: set<Instance>, wider: set<Instance>)
    requires ShowsBelow(db, declared, m, node, t, y, repr) && repr <= wider
    ensures ShowsBelow(db, declared, m, node, t, y, wider)
    decreases node, 0
  {
    ShowsWider(db, declared, m.types[t], node.children, {}, y.row, y.relations, repr, wider);
    forall i | 0 <= i < |node.morphWith| && node.morphWith[i].discriminant == t
      ensures Shows(db, declared, m.types[t], node.morphWith[i].tree, Names(node.children), y.row, y.relations, wider)
    {
      ShowsWider(db, declared, m.types[t], node.morphWith[i].tree, Names(node.children), y.row, y.relations, repr,
                 wider);
    }
  }

  /** Every name asked for is declared where it is asked for. */
  ghost predicate Resolves(declared: Declared, model: Model, tree: seq<Node>)
    decreases tree
  {
    forall i :: 0 <= i < |tree| ==> ResolvesNode(declared, model, tree[i])
  }

  ghost predicate ResolvesNode(declared: Declared, model: Model, node: Node)
    decreases node, 2
  {
    && node.name in declared(model)
    && match declared(model)[node.name]
       case Plain(rel) => Resolves(declared, rel.related, node.children)
       case Morph(m) => ResolvesTypes(declared, m, node, m.types.Keys)
  }

  ghost predicate ResolvesTypes(declared: Declared, m: MorphTo, node: Node, types: set<string>)
    decreases node, 1, 0
  {
    forall t <- types :: ResolvesBelow(declared, m, node, t)
  }

  /** The same below one discriminant of a `morphTo` node. */
  ghost predicate ResolvesBelow(declared: Declared, m: MorphTo, node: Node, t: string)
    decreases node, 0
  {
    t in m.types ==>
      && Resolves(declared, m.types[t], node.children)
      && forall i :: 0 <= i < |node.morphWith| && node.morphWith[i].discriminant == t ==>
           Resolves(declared, m.types[t], node.morphWith[i].tree)
  }

  // ------------------------------------------------------------- what it costs

  /** A bound on the queries of a tree that mentions no rows at all. */
  ghost function Cost(declared: Declared, model: Model, tree: seq<Node>): nat
    decreases tree
  {
    if tree == [] then 0
    else Cost(declared, model, tree[..|tree| - 1]) + NodeCost(declared, model, tree[|tree| - 1])
  }

  ghost function NodeCost(declared: Declared, model: Model, node: Node): nat
    decreases node
  {
    if node.name !in declared(model) then 0
    else
      match declared(model)[node.name]
      case Plain(rel) =>
        (if IsThrough(rel) || IsPivot(rel) then 2 else 1) + Cost(declared, rel.related, node.children)
      case Morph(m) => |m.types| + BelowCost(declared, m, node, m.types.Keys)
  }

  /** What a `morphTo` node's own branch and its children cost for one discriminant. */
  ghost function TypeCost(declared: Declared, m: MorphTo, node: Node, t: string): nat
    requires t in m.types
    decreases node, 0
  {
    var i := BranchIndex(node.morphWith, t);
    Cost(declared, m.types[t], node.children)
    + if i < |node.morphWith| then Cost(declared, m.types[t], node.morphWith[i].tree) else 0
  }

  ghost function BelowCost(declared: Declared, m: MorphTo, node: Node, types: set<string>): nat
    requires types <= m.types.Keys
    decreases node, 1, types
  {
    if types == {} then 0
    else var t :| t in types; TypeCost(declared, m, node, t) + BelowCost(declared, m, node, types - {t})
  }

  lemma {:induction false} BelowCostWithout(declared: Declared, m: MorphTo, node: Node, types: set<string>, t: string)
    requires types <= m.types.Keys && t in types
    ensures BelowCost(declared, m, node, types)
         == TypeCost(declared, m, node, t) + BelowCost(declared, m, node, types - {t})
    decreases types
  {
    var u :| u in types && BelowCost(declared, m, node, types)
                        == TypeCost(declared, m, node, u) + BelowCost(declared, m, node, types - {u});
    if u != t {
      BelowCostWithout(declared, m, node, types - {u}, t);
      BelowCostWithout(declared, m, node, types - {t}, u);
      assert types - {u} - {t} == types - {t} - {u};
    }
  }

  ghost function OrderCost(declared: Declared, m: MorphTo, node: Node, order: seq<string>): nat
    requires forall t <- order :: t in m.types
  {
    if order == [] then 0
    else OrderCost(declared, m, node, order[..|order| - 1]) + TypeCost(declared, m, node, order[|order| - 1])
  }

  lemma {:induction false} OrderCostBound(declared: Declared, m: MorphTo, node: Node, order: seq<string>,
                                          types: set<string>)
    requires types <= m.types.Keys && forall t <- order :: t in types
    requires forall i, j :: 0 <= i < j < |order| ==> order[i] != order[j]
    ensures OrderCost(declared, m, node, order) <= BelowCost(declared, m, node, types)
  {
    if order != [] {
      var init, last := order[..|order| - 1], order[|order| - 1];
      assert last in order && forall t <- init :: t in order;
      BelowCostWithout(declared, m, node, types, last);
      OrderCostBound(declared, m, node, init, types - {last});
    }
  }

  lemma FewerDiscriminants(m: MorphTo, page: seq<Row>)
    ensures |Discriminants(m, page)| <= |m.types|
  {
    var all, some := m.types.Keys, Discriminants(m, page);
    assert all == some + (all - some);
  }

  // ------------------------------------------------------------- loading it

  lemma ShowsSnoc(db: Db, declared: Declared, model: Model, tree: seq<Node>, i: nat, row: Row,
                  before: map<string, Loaded>, after: map<string, Loaded>, made: set<Instance>, deeper: set<Instance>)
    requires i < |tree| && WellFormed(tree)
    requires Shows(db, declared, model, tree[..i], {}, row, before, made)
    requires tree[i].name in after && after - {tree[i].name} == before - {tree[i].name}
    requires ShowsValue(db, declared, model, tree[i], row, after[tree[i].name], deeper)
    ensures Shows(db, declared, model, tree[..i + 1], {}, row, after, made + deeper)
  {
    forall j | 0 <= j < i + 1
      ensures tree[j].name in after && ShowsValue(db, declared, model, tree[j], row, after[tree[j].name], made + deeper)
    {
      if j < i {
        assert tree[..i][j] == tree[j] && tree[j].name != tree[i].name;
        assert tree[j].name in before - {tree[i].name};
        assert after[tree[j].name] == (after - {tree[i].name})[tree[j].name];
        ShowsValueWider(db, declared, model, tree[j], row, after[tree[j].name], made, made + deeper);
      } else {
        ShowsValueWider(db, declared, model, tree[j], row, after[tree[j].name], deeper, made + deeper);
      }
    }
  }

  lemma UntouchedSnoc(tree: seq<Node>, i: nat, first: map<string, Loaded>, before: map<string, Loaded>,
                      after: map<string, Loaded>)
    requires i < |tree|
    requires before - Names(tree[..i]) == first - Names(tree[..i])
    requires after - {tree[i].name} == before - {tree[i].name}
    ensures after - Names(tree[..i + 1]) == first - Names(tree[..i + 1])
  {
    assert tree[..i + 1] == tree[..i] + [tree[i]];
    assert Names(tree[..i + 1]) == Names(tree[..i]) + {tree[i].name};
    assert after - Names(tree[..i + 1]) == (after - {tree[i].name}) - Names(tree[..i]);
    assert first - Names(tree[..i + 1]) == (first - Names(tree[..i])) - {tree[i].name};
    assert (before - {tree[i].name}) - Names(tree[..i]) == (before - Names(tree[..i])) - {tree[i].name};
  }

  lemma UntouchedPrefix(tree: seq<Node>, i: nat, first: map<string, Loaded>, after: map<string, Loaded>)
    requires i <= |tree| && after - Names(tree[..i]) == first - Names(tree[..i])
    ensures after - Names(tree) == first - Names(tree)
  {
    assert Names(tree[..i]) <= Names(tree);
    assert after - Names(tree) == (after - Names(tree[..i])) - Names(tree);
    assert first - Names(tree) == (first - Names(tree[..i])) - Names(tree);
  }

  lemma {:induction false} CostPrefix(declared: Declared, model: Model, tree: seq<Node>, i: nat)
    requires i <= |tree|
    ensures Cost(declared, model, tree[..i]) <= Cost(declared, model, tree)
  {
    if i < |tree| {
      var init := tree[..|tree| - 1];
      CostPrefix(declared, model, init, i);
      assert init[..i] == tree[..i];
    } else {
      assert tree[..i] == tree;
    }
  }

  lemma CostSnoc(declared: Declared, model: Model, tree: seq<Node>, i: nat)
    requires i < |tree|
    ensures Cost(declared, model, tree[..i + 1])
         == Cost(declared, model, tree[..i]) + NodeCost(declared, model, tree[i])
  {
    assert tree[..i + 1][..i] == tree[..i];
  }

  /**
   * Loads every relation of `tree`, and below each what it asks for, on a page of instances of `model`. Nothing but
   * the names asked for is touched, whatever the data.
   */
  method LoadTree(conn: Connection, declared: Declared, model: Model, instances: seq<Instance>, tree: seq<Node>)
    returns (error: Option<string>, ghost made: set<Instance>)
    requires WellFormed(tree)
    modifies conn, set x | x in instances
    ensures forall x <- instances :: x.relations - Names(tree) == old(x.relations) - Names(tree)
    ensures fresh(made)
    ensures Calm(conn.db, declared, model, tree) && Resolves(declared, model, tree) ==> error.None?
    ensures Calm(conn.db, declared, model, tree) && error.None? ==>
      forall x <- instances :: Shows(conn.db, declared, model, tree, {}, x.row, x.relations, made)
    ensures Calm(conn.db, declared, model, tree) ==>
      conn.queries <= old(conn.queries) + Cost(declared, model, tree)
    decreases tree, 2
  {
    error, made := None, {};
    if instances == [] {
      return;
    }
    ghost var n;
    error, made, n := LoadSiblings(conn, declared, model, instances, tree, Calm(conn.db, declared, model, tree));
    CostPrefix(declared, model, tree, n);
    forall x | x in instances ensures x.relations - Names(tree) == old(x.relations) - Names(tree) {
      UntouchedPrefix(tree, n, old(x.relations), x.relations);
    }
    assert tree[..|tree|] == tree;
  }

  /** The nodes of a tree one after the other, up to the first that fails. */
  method LoadSiblings(conn: Connection, declared: Declared, model: Model, instances: seq<Instance>, tree: seq<Node>,
                      ghost calm: bool)
    returns (error: Option<string>, ghost made: set<Instance>, ghost n: nat)
    requires WellFormed(tree) && (calm ==> Calm(conn.db, declared, model, tree))
    modifies conn, set x | x in instances
    ensures n <= |tree| && (error.None? ==> n == |tree|)
    ensures forall x <- instances :: x.relations - Names(tree[..n]) == old(x.relations) - Names(tree[..n])
    ensures fresh(made)
    ensures calm && Resolves(declared, model, tree) ==> error.None?
    ensures calm && error.None? ==>
      forall x <- instances :: Shows(conn.db, declared, model, tree[..n], {}, x.row, x.relations, made)
    ensures calm ==> conn.queries <= old(conn.queries) + Cost(declared, model, tree[..n])
    decreases tree, 1
  {
    error, made, n := None, {}, 0;
    for i := 0 to |tree|
      invariant error.None? && n == i && fresh(made)
      invariant forall x <- instances :: x.relations - Names(tree[..i]) == old(x.relations) - Names(tree[..i])
      invariant calm ==>
        forall x <- instances :: Shows(conn.db, declared, model, tree[..i], {}, x.row, x.relations, made)
      invariant calm ==> conn.queries <= old(conn.queries) + Cost(declared, model, tree[..i])
    {
      CostSnoc(declared, model, tree, i);
      label Before:
      error, made := LoadSibling(conn, declared, model, instances, tree, i, calm, made);
      forall x | x in instances ensures x.relations - Names(tree[..i + 1]) == old(x.relations) - Names(tree[..i + 1]) {
        UntouchedSnoc(tree, i, old(x.relations), old@Before(x.relations), x.relations);
      }
      n := i + 1;
      if error.Some? {
        return;
      }
    }
  }

  /** The `i`-th node of a tree, after those before it. */
  method LoadSibling(conn: Connection, declared: Declared, model: Model, instances: seq<Instance>, tree: seq<Node>,
                     i: nat, ghost calm: bool, ghost before: set<Instance>)
    returns (error: Option<string>, ghost made: set<Instance>)
    requires i < |tree| && WellFormed(tree) && (calm ==> Calm(conn.db, declared, model, tree))
    requires forall x <- instances :: x !in before
    requires calm ==>
      forall x <- instances :: Shows(conn.db, declared, model, tree[..i], {}, x.row, x.relations, before)
    modifies conn, set x | x in instances
    ensures forall x <- instances :: x.relations - {tree[i].name} == old(x.relations) - {tree[i].name}
    ensures before <= made && fresh(made - before)
    ensures calm && ResolvesNode(declared, model, tree[i]) ==> error.None?
    ensures calm && error.None? ==>
      forall x <- instances :: Shows(conn.db, declared, model, tree[..i + 1], {}, x.row, x.relations, made)
    ensures calm ==> conn.queries <= old(conn.queries) + NodeCost(declared, model, tree[i])
    decreases tree, 0
  {
    ghost var deeper;
    error, deeper := LoadNode(conn, declared, model, instances, tree[i]);
    made := before + deeper;
    if calm && error.None? {
      forall x | x in instances ensures Shows(conn.db, declared, model, tree[..i + 1], {}, x.row, x.relations, made) {
        assert Shows(conn.db, declared, model, tree[..i], {}, x.row, old(x.relations), before);
        ShowsSnoc(conn.db, declared, model, tree, i, x.row, old(x.relations), x.relations, before, deeper);
      }
    }
  }

  /** One node on a page that is not empty. */
  method LoadNode(conn: Connection, declared: Declared, model: Model, instances: seq<Instance>, node: Node)
    returns (error: Option<string>, ghost made: set<Instance>)
    requires WellFormedNode(node)
    modifies conn, set x | x in instances
    ensures forall x <- instances :: x.relations - {node.name} == old(x.relations) - {node.name}
    ensures fresh(made)
    ensures CalmNode(conn.db, declared, model, node) && ResolvesNode(declared, model, node) ==> error.None?
    ensures CalmNode(conn.db, declared, model, node) && error.None? ==> forall x <- instances ::
      node.name in x.relations && ShowsValue(conn.db, declared, model, node, x.row, x.relations[node.name], made)
    ensures CalmNode(conn.db, declared, model, node) ==>
      conn.queries <= old(conn.queries) + NodeCost(declared, model, node)
    decreases node, 4
  {
    if node.name !in declared(model) {
      return Some(node.name), {};
    }
    match declared(model)[node.name]
    case Plain(rel) =>
      error, made := LoadPlain(conn, declared, model, instances, node, rel);
    case Morph(m) =>
      error, made := LoadMorph(conn, declared, model, instances, node, m);
  }

  lemma PlainContent(db: Db, model: Model, rel: Relation, constraint: seq<Clause>, page: seq<Row>, row: Row,
                     value: Loaded)
    requires row in page && Content(value) == Batched(db, model, rel, constraint, page, row)
    ensures Told(db, model, rel, constraint, row) ==> Content(value) == Joined(db, model, rel, constraint, row)
  {
    if Told(db, model, rel, constraint, row) {
      NoStraysWhen(db, model, rel, constraint, page, row);
      BatchedIsJoined(db, model, rel, constraint, page, row);
    }
  }

  /** A page's values under one name. */
  method LoadedValues(instances: seq<Instance>, name: string) returns (loaded: seq<Loaded>)
    requires forall x <- instances :: name in x.relations
    ensures |loaded| == |instances| && forall i :: 0 <= i < |loaded| ==> loaded[i] == instances[i].relations[name]
  {
    loaded := [];
    for i := 0 to |instances|
      invariant |loaded| == i && forall j :: 0 <= j < i ==> loaded[j] == instances[j].relations[name]
    {
      loaded := loaded + [instances[i].relations[name]];
    }
  }

  method LoadPlain(conn: Connection, declared: Declared, model: Model, instances: seq<Instance>, node: Node,
                   rel: Relation)
    returns (error: Option<string>, ghost made: set<Instance>)
    requires WellFormedNode(node)
    requires node.name in declared(model) && declared(model)[node.name] == Plain(rel)
    modifies conn, set x | x in instances
    ensures forall x <- instances :: x.relations - {node.name} == old(x.relations) - {node.name}
    ensures fresh(made)
    ensures CalmNode(conn.db, declared, model, node) && ResolvesNode(declared, model, node) ==> error.None?
    ensures CalmNode(conn.db, declared, model, node) && error.None? ==> forall x <- instances ::
      node.name in x.relations && ShowsValue(conn.db, declared, model, node, x.row, x.relations[node.name], made)
    ensures CalmNode(conn.db, declared, model, node) ==>
      conn.queries <= old(conn.queries) + NodeCost(declared, model, node)
    decreases node, 0
  {
    var collected := LoadRelated(conn, model, instances, node, rel);
    ghost var deeper;
    error, deeper := LoadTree(conn, declared, rel.related, collected, node.children);
    made := (set y | y in collected) + deeper;
    if CalmNode(conn.db, declared, model, node) && error.None? {
      forall x | x in instances
        ensures ShowsValue(conn.db, declared, model, node, x.row, x.relations[node.name], made)
      {
        forall y | y in Members(x.relations[node.name])
          ensures y in made && Shows(conn.db, declared, rel.related, node.children, {}, y.row, y.relations, made)
        {
          ShowsWider(conn.db, declared, rel.related, node.children, {}, y.row, y.relations, deeper, made);
        }
      }
    }
  }

  /** Loads one relation of a page and lists what it attached. */
  method LoadRelated(conn: Connection, model: Model, instances: seq<Instance>, node: Node, rel: Relation)
    returns (collected: seq<Instance>)
    modifies conn, set x | x in instances
    ensures forall x <- instances ::
      && node.name in x.relations && x.relations - {node.name} == old(x.relations) - {node.name}
      && (Told(conn.db, model, rel, node.constraint, x.row) ==>
            Content(x.relations[node.name]) == Joined(conn.db, model, rel, node.constraint, x.row))
      && forall y <- Members(x.relations[node.name]) :: y in collected
    ensures Distinct(collected) && forall y <- collected :: fresh(y)
    ensures conn.queries <= old(conn.queries) + if IsThrough(rel) || IsPivot(rel) then 2 else 1
  {
    LoadRelation(conn, model, instances, node.name, rel, node.constraint);
    var loaded := LoadedValues(instances, node.name);
    collected := CollectRelated(loaded);
    forall i | 0 <= i < |instances|
      ensures Told(conn.db, model, rel, node.constraint, instances[i].row) ==>
        Content(loaded[i]) == Joined(conn.db, model, rel, node.constraint, instances[i].row)
    {
      assert RowsOf(instances)[i] == instances[i].row;
      PlainContent(conn.db, model, rel, node.constraint, RowsOf(instances), instances[i].row, loaded[i]);
    }
  }

  // ---------------------------------------------------------------- morphTo

  /** Loading other names over a page leaves what it shows under the rest. */
  lemma ShowsBeside(db: Db, declared: Declared, model: Model, tree: seq<Node>, over: set<string>, row: Row,
                    before: map<string, Loaded>, after: map<string, Loaded>, repr: set<Instance>, wider: set<Instance>)
    requires Shows(db, declared, model, tree, {}, row, before, repr) && repr <= wider
    requires after - over == before - over
    ensures Shows(db, declared, model, tree, over, row, after, wider)
  {
    forall i | 0 <= i < |tree| && tree[i].name !in over
      ensures tree[i].name in after && ShowsValue(db, declared, model, tree[i], row, after[tree[i].name], wider)
    {
      assert tree[i].name in before - over && after[tree[i].name] == (after - over)[tree[i].name];
      ShowsValueWider(db, declared, model, tree[i], row, after[tree[i].name], repr, wider);
    }
  }

  /** What the discriminant's own branch shows of a parent's row. */
  ghost predicate ShowsBranch(db: Db, declared: Declared, m: MorphTo, node: Node, t: string, row: Row,
                              relations: map<string, Loaded>, repr: set<Instance>)
    requires t in m.types
    reads repr
  {
    var i := BranchIndex(node.morphWith, t);
    i < |node.morphWith| ==> Shows(db, declared, m.types[t], node.morphWith[i].tree, {}, row, relations, repr)
  }

  /** The branch declared for the discriminant, if there is one. */
  method LoadBranch(conn: Connection, declared: Declared, parents: seq<Instance>, node: Node, m: MorphTo, t: string,
                    ghost calm: bool)
    returns (error: Option<string>, ghost made: set<Instance>)
    requires parents != [] && WellFormedNode(node)
    requires calm ==> t in m.types && CalmBelow(conn.db, declared, m, node, t) && parents[0].model == m.types[t]
    modifies conn, set y | y in parents
    ensures fresh(made)
    ensures calm && ResolvesBelow(declared, m, node, t) ==> error.None?
    ensures calm && error.None? ==> 
      forall y <- parents :: ShowsBranch(conn.db, declared, m, node, t, y.row, y.relations, made)
    ensures calm ==>
      conn.queries + Cost(declared, m.types[t], node.children) <= old(conn.queries) + TypeCost(declared, m, node, t)
    decreases node, 0, 0
  {
    error, made := None, {};
    var i := BranchIndex(node.morphWith, t);
    if i < |node.morphWith| {
      error, made := LoadTree(conn, declared, parents[0].model, parents, node.morphWith[i].tree);
    }
  }

  /** What every discriminant gets may cover part of the branch; the rest of it still shows. */
  lemma ShowsBoth(db: Db, declared: Declared, m: MorphTo, node: Node, t: string, y: Instance,
                  between: map<string, Loaded>, branch: set<Instance>, below: set<Instance>)
    requires WellFormedNode(node) && t in m.types && ShowsBranch(db, declared, m, node, t, y.row, between, branch)
    requires y.relations - Names(node.children) == between - Names(node.children)
    requires Shows(db, declared, m.types[t], node.children, {}, y.row, y.relations, below)
    ensures ShowsBelow(db, declared, m, node, t, y, below + branch)
  {
    ShowsWider(db, declared, m.types[t], node.children, {}, y.row, y.relations, below, below + branch);
    var i := BranchIndex(node.morphWith, t);
    if i < |node.morphWith| {
      ShowsBeside(db, declared, m.types[t], node.morphWith[i].tree, Names(node.children), y.row, between, y.relations,
                  branch, below + branch);
    }
  }

  /** The parents of one discriminant, by their own class: first its own branch, then what every discriminant gets. */
  method LoadMorphType(conn: Connection, declared: Declared, parents: seq<Instance>, node: Node, m: MorphTo, t: string,
                       ghost calm: bool)
    returns (error: Option<string>, ghost made: set<Instance>)
    requires parents != [] && WellFormedNode(node)
    requires calm ==> t in m.types && CalmBelow(conn.db, declared, m, node, t) && parents[0].model == m.types[t]
    modifies conn, set y | y in parents
    ensures fresh(made)
    ensures calm && ResolvesBelow(declared, m, node, t) ==> error.None?
    ensures calm && error.None? ==> forall y <- parents :: ShowsBelow(conn.db, declared, m, node, t, y, made)
    ensures calm ==> conn.queries <= old(conn.queries) + TypeCost(declared, m, node, t)
    decreases node, 0, 1
  {
    var model := parents[0].model;
    ghost var branch, below;
    error, branch := LoadBranch(conn, declared, parents, node, m, t, calm);
    if error.Some? {
      return error, branch;
    }
    label Branched:
    error, below := LoadTree(conn, declared, model, parents, node.children);
    made := below + branch;
    if calm && error.None? {
      forall y | y in parents ensures ShowsBelow(conn.db, declared, m, node, t, y, made) {
        assert old@Branched(ShowsBranch(conn.db, declared, m, node, t, y.row, y.relations, branch));
        ShowsBoth(conn.db, declared, m, node, t, y, old@Branched(y.relations), branch, below);
      }
    }
  }

  /** One of the first `n` rows has discriminant `t` and parent `y`. */
  ghost predicate Owed(types: seq<string>, loaded: seq<Loaded>, n: nat, t: string, y: Instance)
    requires n <= |types| == |loaded|
  {
    exists i :: 0 <= i < n && types[i] == t && loaded[i] == One(y)
  }

  /** `parents` files the attached parents of the first `n` rows by their discriminants, once each. */
  ghost predicate Bucketed(parents: map<string, seq<Instance>>, types: seq<string>, loaded: seq<Loaded>, n: nat)
    requires n <= |types| == |loaded|
  {
    && (forall i :: 0 <= i < n && loaded[i].One? ==> loaded[i].instance in Group(parents, types[i]))
    && (forall t :: t in parents ==> parents[t] != [] && Distinct(parents[t]))
    && forall t, y :: t in parents && y in parents[t] ==> Owed(types, loaded, n, t, y)
  }

  function Bucket(parents: map<string, seq<Instance>>, t: string, y: Instance): map<string, seq<Instance>> {
    parents[t := if y in Group(parents, t) then Group(parents, t) else Group(parents, t) + [y]]
  }

  lemma BucketedStep(parents: map<string, seq<Instance>>, types: seq<string>, loaded: seq<Loaded>, n: nat)
    requires n < |types| == |loaded| && !loaded[n].Many? && Bucketed(parents, types, loaded, n)
    ensures Bucketed(if loaded[n].One? then Bucket(parents, types[n], loaded[n].instance) else parents, types, loaded,
                     n + 1)
  {
    var more := if loaded[n].One? then Bucket(parents, types[n], loaded[n].instance) else parents;
    forall t, y | t in more && y in more[t] ensures Owed(types, loaded, n + 1, t, y) {
      if t in parents && y in parents[t] {
        assert Owed(types, loaded, n, t, y);
      }
    }
  }

  method BucketParents(types: seq<string>, loaded: seq<Loaded>)
    returns (order: seq<string>, parents: map<string, seq<Instance>>)
    requires |types| == |loaded| && forall l <- loaded :: !l.Many?
    ensures Bucketed(parents, types, loaded, |loaded|) && Listed(order, parents.Keys)
  {
    order, parents := [], map[];
    for i := 0 to |loaded|
      invariant Bucketed(parents, types, loaded, i) && Listed(order, parents.Keys)
    {
      BucketedStep(parents, types, loaded, i);
      if loaded[i].One? {
        order := if types[i] in parents then order else order + [types[i]];
        parents := Bucket(parents, types[i], loaded[i].instance);
      }
    }
  }

  method LoadMorph(conn: Connection, declared: Declared, model: Model, instances: seq<Instance>, node: Node, m: MorphTo)
    returns (error: Option<string>, ghost made: set<Instance>)
    requires WellFormedNode(node)
    requires node.name in declared(model) && declared(model)[node.name] == Morph(m)
    modifies conn, set x | x in instances
    ensures forall x <- instances :: x.relations - {node.name} == old(x.relations) - {node.name}
    ensures fresh(made)
    ensures CalmNode(conn.db, declared, model, node) && ResolvesNode(declared, model, node) ==> error.None?
    ensures CalmNode(conn.db, declared, model, node) && error.None? ==> forall x <- instances ::
      node.name in x.relations && ShowsValue(conn.db, declared, model, node, x.row, x.relations[node.name], made)
    ensures CalmNode(conn.db, declared, model, node) ==>
      conn.queries <= old(conn.queries) + NodeCost(declared, model, node)
    decreases node, 3
  {
    ghost var calm := CalmMorph(conn.db, declared, m, node);
    var loaded, types := LoadParents(conn, instances, node, m);
    ghost var parents := set i | 0 <= i < |loaded| && loaded[i].One? :: loaded[i].instance;
    ghost var below;
    FewerDiscriminants(m, RowsOf(instances));
    error, below := LoadMorphChildren(conn, declared, types, loaded, node, m, calm);
    made := parents + below;
    if calm && error.None? {
      forall i | 0 <= i < |instances|
        ensures ShowsValue(conn.db, declared, model, node, instances[i].row, loaded[i], made)
      {
        MorphShown(conn.db, declared, model, node, m, instances[i].row, loaded[i], below, made);
      }
    }
  }

  lemma MorphShown(db: Db, declared: Declared, model: Model, node: Node, m: MorphTo, row: Row, value: Loaded,
                   below: set<Instance>, made: set<Instance>)
    requires node.name in declared(model) && declared(model)[node.name] == Morph(m) && !value.Many? && below <= made
    requires FaithfulIds(db, m, row) ==> Content(value) == JoinedMorphTo(db, m, node.perType, row)
    requires value.One? ==>
      && value.instance in made
      && ShowsBelow(db, declared, m, node, Spell(Col(row, m.morphType)), value.instance, below)
    ensures ShowsValue(db, declared, model, node, row, value, made)
  {
    if value.One? {
      ShowsBelowWider(db, declared, m, node, Spell(Col(row, m.morphType)), value.instance, below, made);
    }
  }

  /** Loads the parents of a page and lists them with their discriminants. */
  method LoadParents(conn: Connection, instances: seq<Instance>, node: Node, m: MorphTo)
    returns (loaded: seq<Loaded>, types: seq<string>)
    modifies conn, set x | x in instances
    ensures |loaded| == |types| == |instances|
    ensures forall i :: 0 <= i < |instances| ==>
      && node.name in instances[i].relations && instances[i].relations[node.name] == loaded[i]
      && instances[i].relations - {node.name} == old(instances[i].relations) - {node.name}
      && types[i] == Spell(Col(instances[i].row, m.morphType)) && !loaded[i].Many?
    ensures NulFreeTypes(conn.db, m) ==> Separate(types, loaded, m)
    ensures NulFreeTypes(conn.db, m) ==>
      forall i :: 0 <= i < |instances| && FaithfulIds(conn.db, m, instances[i].row) ==>
        Content(loaded[i]) == JoinedMorphTo(conn.db, m, node.perType, instances[i].row)
    ensures forall i :: 0 <= i < |loaded| && loaded[i].One? ==> fresh(loaded[i].instance)
    ensures conn.queries == old(conn.queries) + |Discriminants(m, RowsOf(instances))|
  {
    LoadMorphTo(conn, instances, node.name, m, node.perType);
    loaded := LoadedValues(instances, node.name);
    forall i | 0 <= i < |loaded| ensures !loaded[i].Many? && (loaded[i].One? ==> fresh(loaded[i].instance)) {
      assert instances[i] in instances;
      assert loaded[i].One? ==> loaded[i].instance in Members(instances[i].relations[node.name]);
    }
    types := seq(|instances|, i requires 0 <= i < |instances| => Spell(Col(instances[i].row, m.morphType)));
    if NulFreeTypes(conn.db, m) {
      ParentsAreJoined(conn.db, m, node.perType, RowsOf(instances), loaded, types);
    }
  }

  lemma ParentsAreJoined(db: Db, m: MorphTo, constraints: string -> seq<Clause>, page: seq<Row>, loaded: seq<Loaded>,
                         types: seq<string>)
    requires |page| == |loaded| == |types| && forall i :: 0 <= i < |loaded| ==> !loaded[i].Many?
    requires forall i :: 0 <= i < |page| ==>
      types[i] == Spell(Col(page[i], m.morphType)) && Finds(loaded[i], db, m, constraints, page, page[i])
    requires forall i, j :: 0 <= i < |loaded| && 0 <= j < |loaded| && Share(loaded[i], loaded[j]) ==>
      types[i] == types[j]
    ensures Separate(types, loaded, m)
    ensures forall i :: 0 <= i < |page| && FaithfulIds(db, m, page[i]) ==>
      Content(loaded[i]) == JoinedMorphTo(db, m, constraints, page[i])
  {
    forall i | 0 <= i < |page| && FaithfulIds(db, m, page[i])
      ensures Content(loaded[i]) == JoinedMorphTo(db, m, constraints, page[i])
    {
      MorphToBatchedIsJoined(db, m, constraints, page, page[i]);
    }
  }

  /** Attached parents have a discriminant that resolves to their own class, and only one. */
  ghost predicate Separate(types: seq<string>, loaded: seq<Loaded>, m: MorphTo) {
    && |types| == |loaded|
    && (forall i :: 0 <= i < |loaded| ==> !loaded[i].Many?)
    && (forall i :: 0 <= i < |loaded| && loaded[i].One? ==>
          types[i] in m.types && loaded[i].instance.model == m.types[types[i]])
    && forall i, j :: 0 <= i < |loaded| && 0 <= j < |loaded| && Share(loaded[i], loaded[j]) ==> types[i] == types[j]
  }

  /** Every bucket has a discriminant that resolves to its parents' class, and shares no parent with another. */
  ghost predicate Fit(parents: map<string, seq<Instance>>, m: MorphTo) {
    && (forall t :: t in parents ==> t in m.types && forall y <- parents[t] :: y.model == m.types[t])
    && forall t, u, y :: t in parents && u in parents && y in parents[t] && y in parents[u] ==> t == u
  }

  /** No bucket is empty, and all parents are in the pool. */
  ghost predicate Pooled(parents: map<string, seq<Instance>>, pool: set<Instance>) {
    && (forall t :: t in parents ==> parents[t] != [])
    && forall t, y :: t in parents && y in parents[t] ==> y in pool
  }

  lemma BucketsArePooled(parents: map<string, seq<Instance>>, types: seq<string>, loaded: seq<Loaded>)
    requires |types| == |loaded| && Bucketed(parents, types, loaded, |loaded|)
    ensures Pooled(parents, set i | 0 <= i < |loaded| && loaded[i].One? :: loaded[i].instance)
  {
    forall t, y | t in parents && y in parents[t]
      ensures y in (set i | 0 <= i < |loaded| && loaded[i].One? :: loaded[i].instance)
    {
      assert Owed(types, loaded, |loaded|, t, y);
    }
  }

  lemma BucketsFit(parents: map<string, seq<Instance>>, types: seq<string>, loaded: seq<Loaded>, m: MorphTo)
    requires Separate(types, loaded, m) && Bucketed(parents, types, loaded, |loaded|)
    ensures Fit(parents, m)
  {
    forall t, u, y | t in parents && u in parents && y in parents[t] && y in parents[u] ensures t == u {
      assert Owed(types, loaded, |loaded|, t, y) && Owed(types, loaded, |loaded|, u, y);
    }
    forall t, y | t in parents && y in parents[t] ensures t in m.types && y.model == m.types[t] {
      assert Owed(types, loaded, |loaded|, t, y);
    }
    forall t | t in parents ensures t in m.types {
      assert parents[t][0] in parents[t];
    }
  }

  /** Descends discriminant by discriminant. */
  method LoadMorphChildren(conn: Connection, declared: Declared, types: seq<string>, loaded: seq<Loaded>, node: Node,
                           m: MorphTo, ghost calm: bool)
    returns (error: Option<string>, ghost made: set<Instance>)
    requires WellFormedNode(node) && |types| == |loaded| && forall l <- loaded :: !l.Many?
    requires calm ==> CalmMorph(conn.db, declared, m, node) && Separate(types, loaded, m)
    modifies conn, set i | 0 <= i < |loaded| && loaded[i].One? :: loaded[i].instance
    ensures fresh(made)
    ensures calm && ResolvesTypes(declared, m, node, m.types.Keys) ==> error.None?
    ensures calm && error.None? ==> forall i :: 0 <= i < |loaded| && loaded[i].One? ==>
      ShowsBelow(conn.db, declared, m, node, types[i], loaded[i].instance, made)
    ensures calm ==> conn.queries <= old(conn.queries) + BelowCost(declared, m, node, m.types.Keys)
    decreases node, 2
  {
    var order, parents := BucketParents(types, loaded);
    BucketsArePooled(parents, types, loaded);
    if calm {
      BucketsFit(parents, types, loaded, m);
      OrderCostBound(declared, m, node, order, m.types.Keys);
    }
    ghost var pool := set i | 0 <= i < |loaded| && loaded[i].One? :: loaded[i].instance;
    error, made := LoadBuckets(conn, declared, order, parents, node, m, calm, pool);
  }

  lemma {:induction false} OrderCostPrefix(declared: Declared, m: MorphTo, node: Node, order: seq<string>, i: nat)
    requires i <= |order| && forall t <- order :: t in m.types
    ensures OrderCost(declared, m, node, order[..i]) <= OrderCost(declared, m, node, order)
  {
    if i < |order| {
      var init := order[..|order| - 1];
      OrderCostPrefix(declared, m, node, init, i);
      assert init[..i] == order[..i];
    } else {
      assert order[..i] == order;
    }
  }

  /** So many queries are within the cost of the first `i` discriminants, all of them declared. */
  ghost predicate Spent(declared: Declared, m: MorphTo, node: Node, order: seq<string>, i: nat, queries: int) {
    && i <= |order| && (forall t <- order :: t in m.types)
    && queries <= OrderCost(declared, m, node, order[..i])
  }

  lemma SpentMore(declared: Declared, m: MorphTo, node: Node, order: seq<string>, i: nat, queries: int, more: int)
    requires i < |order| && Spent(declared, m, node, order, i, queries)
    requires more <= queries + TypeCost(declared, m, node, order[i])
    ensures Spent(declared, m, node, order, i + 1, more)
  {
    assert order[..i + 1][..i] == order[..i];
  }

  lemma SpentInAll(declared: Declared, m: MorphTo, node: Node, order: seq<string>, i: nat, queries: int)
    requires Spent(declared, m, node, order, i, queries)
    ensures queries <= OrderCost(declared, m, node, order)
  {
    OrderCostPrefix(declared, m, node, order, i);
  }

  method LoadBuckets(conn: Connection, declared: Declared, order: seq<string>, parents: map<string, seq<Instance>>,
                     node: Node, m: MorphTo, ghost calm: bool, ghost pool: set<Instance>)
    returns (error: Option<string>, ghost made: set<Instance>)
    requires WellFormedNode(node) && Pooled(parents, pool) && Listed(order, parents.Keys)
    requires calm ==> CalmMorph(conn.db, declared, m, node) && Fit(parents, m)
    modifies conn, pool
    ensures fresh(made)
    ensures calm && ResolvesTypes(declared, m, node, m.types.Keys) ==> error.None?
    ensures calm && error.None? ==> BucketsShow(conn.db, declared, m, node, order, parents, made)
    ensures calm ==> conn.queries <= old(conn.queries) + OrderCost(declared, m, node, order)
    decreases node, 1
  {
    error, made := None, {};
    for i := 0 to |order|
      invariant error.None? && fresh(made)
      invariant calm ==> BucketsShow(conn.db, declared, m, node, order[..i], parents, made)
      invariant calm ==> Spent(declared, m, node, order, i, conn.queries - old(conn.queries))
    {
      ghost var queries := conn.queries;
      error, made := LoadBucket(conn, declared, order, i, parents, node, m, calm, pool, made);
      if calm {
        SpentMore(declared, m, node, order, i, queries - old(conn.queries), conn.queries - old(conn.queries));
        SpentInAll(declared, m, node, order, i + 1, conn.queries - old(conn.queries));
      }
      if error.Some? {
        return;
      }
    }
    assert order[..|order|] == order;
  }

  /** Every parent of the discriminants listed shows what it should. */
  ghost predicate BucketsShow(db: Db, declared: Declared, m: MorphTo, node: Node, order: seq<string>,
                              parents: map<string, seq<Instance>>, repr: set<Instance>)
    reads repr, set t, y | t in parents && y in parents[t] :: y
  {
    forall t, y :: t in order && t in parents && y in parents[t] ==> ShowsBelow(db, declared, m, node, t, y, repr)
  }

  method LoadBucket(conn: Connection, declared: Declared, order: seq<string>, i: nat,
                    parents: map<string, seq<Instance>>, node: Node, m: MorphTo, ghost calm: bool,
                    ghost pool: set<Instance>, ghost before: set<Instance>)
    returns (error: Option<string>, ghost made: set<Instance>)
    requires WellFormedNode(node) && Pooled(parents, pool) && Listed(order, parents.Keys)
    requires calm ==> CalmMorph(conn.db, declared, m, node) && Fit(parents, m)
    requires i < |order| && before !! pool
    requires calm ==> BucketsShow(conn.db, declared, m, node, order[..i], parents, before)
    modifies conn, pool
    ensures before <= made && fresh(made - before)
    ensures calm && ResolvesBelow(declared, m, node, order[i]) ==> error.None?
    ensures calm && error.None? ==> BucketsShow(conn.db, declared, m, node, order[..i + 1], parents, made)
    ensures calm ==> conn.queries <= old(conn.queries) + TypeCost(declared, m, node, order[i])
    decreases node, 0, 2
  {
    ghost var deeper;
    error, deeper := LoadMorphType(conn, declared, parents[order[i]], node, m, order[i], calm);
    made := before + deeper;
    if calm && error.None? {
      forall t, y | t in order[..i + 1] && t in parents && y in parents[t]
        ensures ShowsBelow(conn.db, declared, m, node, t, y, made)
      {
        if t in order[..i] {
          assert old(ShowsBelow(conn.db, declared, m, node, t, y, before));
          assert y !in parents[order[i]];
          ShowsBelowWider(conn.db, declared, m, node, t, y, before, made);
        } else {
          ShowsBelowWider(conn.db, declared, m, node, t, y, deeper, made);
        }
      }
    }
  }
}
