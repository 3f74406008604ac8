/** One migration run: discovery, the lock row, and migrations applied or undone one transaction at a time. */
module MigrationRunner {
  import opened Text
  import opened Migrations

  /** `up` and `down` on an arbitrary schema; no result means it threw. */
  datatype Migration<!S> = Migration(up: S -> Option<S>, down: S -> Option<S>)

  type Registry<!S> = map<string, Migration<S>>

  datatype State<S> = State(schema: S, rows: set<Entry>)

  datatype Outcome = Done(names: seq<string>) | Refused(holder: string) | Threw(name: string)

  function RowNames(rows: set<Entry>): set<string> { set e | e in rows :: e.name }

  /** Each name stands for the first source that registers it. */
  function Registered<S>(found: seq<(string, Migration<S>)>): Registry<S> {
    if found == [] then map[]
    else
      var (init, last) := (Registered(found[..|found| - 1]), found[|found| - 1]);
      if last.0 in init then init else init[last.0 := last.1]
  }

  /** The `i`-th source found is the first of its name. */
  ghost predicate IsFirst<S>(found: seq<(string, Migration<S>)>, i: nat) {
    i < |found| && forall j :: 0 <= j < i ==> found[j].0 != found[i].0
  }

  lemma {:induction false} FirstWins<S>(found: seq<(string, Migration<S>)>, i: nat)
    requires IsFirst(found, i)
    ensures found[i].0 in Registered(found) && Registered(found)[found[i].0] == found[i].1
  {
    var init, last := found[..|found| - 1], found[|found| - 1];
    if i < |found| - 1 {
      FirstWins(init, i);
    } else {
      NotRegistered(init, last.0);
    }
  }

  lemma {:induction false} RegisteredIsFirst<S>(found: seq<(string, Migration<S>)>, name: string) returns (i: nat)
    requires name in Registered(found)
    ensures IsFirst(found, i) && found[i].0 == name
  {
    var init, last := found[..|found| - 1], found[|found| - 1];
    if name in Registered(init) {
      i := RegisteredIsFirst(init, name);
    } else {
      i := |init|;
      forall j | 0 <= j < i ensures found[j].0 != name {
        if found[j].0 == name {
          FoundIsRegistered(init, j);
        }
      }
    }
  }

  lemma {:induction false} FoundIsRegistered<S>(found: seq<(string, Migration<S>)>, i: nat)
    requires i < |found|
    ensures found[i].0 in Registered(found)
  {
    if i < |found| - 1 {
      FoundIsRegistered(found[..|found| - 1], i);
    }
  }

  /** The names are those found, and each has the migration of the first source that registers it. */
  ghost predicate StandForFirsts<S>(registry: Registry<S>, found: seq<(string, Migration<S>)>) {
    && (forall i: nat :: IsFirst(found, i) ==> found[i].0 in registry && registry[found[i].0] == found[i].1)
    && forall name :: name in registry ==> exists i: nat :: IsFirst(found, i) && found[i].0 == name
  }

  lemma OnlyFirstsRegister<S>(found: seq<(string, Migration<S>)>)
    ensures StandForFirsts(Registered(found), found)
  {
    forall i: nat | IsFirst(found, i)
      ensures found[i].0 in Registered(found) && Registered(found)[found[i].0] == found[i].1
    {
      FirstWins(found, i);
    }
    forall name | name in Registered(found) ensures exists i: nat :: IsFirst(found, i) && found[i].0 == name {
      var i := RegisteredIsFirst(found, name);
    }
  }

  lemma {:induction false} NotRegistered<S>(found: seq<(string, Migration<S>)>, name: string)
    requires forall j :: 0 <= j < |found| ==> found[j].0 != name
    ensures name !in Registered(found)
  {
    if found != [] {
      NotRegistered(found[..|found| - 1], name);
    }
  }

  /** Applying `todo` in order, each migration with its row or not at all; stops at the first that throws. */
  function Ups<S>(st: State<S>, todo: seq<string>, batch: nat, registry: Registry<S>): (State<S>, Option<string>)
    requires forall n <- todo :: n in registry
    decreases |todo|
  {
    if todo == [] then (st, None)
    else
      match registry[todo[0]].up(st.schema)
      case None => (st, Some(todo[0]))
      case Some(s) => Ups(State(s, st.rows + {Entry(todo[0], batch)}), todo[1..], batch, registry)
  }

  function Without(rows: set<Entry>, name: string): set<Entry> { set e | e in rows && e.name != name }

  /** Undoing `todo` in order; stops at the first name no source knows or that throws. */
  function Downs<S>(st: State<S>, todo: seq<string>, registry: Registry<S>): (State<S>, Option<string>)
    decreases |todo|
  {
    if todo == [] then (st, None)
    else if todo[0] !in registry then (st, Some(todo[0]))
    else
      match registry[todo[0]].down(st.schema)
      case None => (st, Some(todo[0]))
      case Some(s) => Downs(State(s, Without(st.rows, todo[0])), todo[1..], registry)
  }

  /** The next batch number: one above the highest in use. */
  ghost predicate IsNext(rows: set<Entry>, batch: nat) {
    && (forall e <- rows :: e.batch < batch)
    && (batch == 1 || exists e :: e in rows && e.batch == batch - 1)
  }

  method NextBatch(rows: set<Entry>) returns (batch: nat)
    ensures IsNext(rows, batch)
  {
    var highest := 0;
    var rest := rows;
    while rest != {}
      invariant rest <= rows && forall e :: e in rows - rest ==> e.batch <= highest
      invariant highest == 0 || exists e :: e in rows && e.batch == highest
      decreases rest
    {
      var e :| e in rest;
      highest := if e.batch > highest then e.batch else highest;
      rest := rest - {e};
    }
    batch := highest + 1;
  }

  class Database<S> {
    var schema: S
    var rows: set<Entry>
    var holder: Option<string>

    constructor (schema: S)
      ensures this.schema == schema && rows == {} && holder == None
    {
      this.schema, rows, holder := schema, {}, None;
    }

    function Now(): State<S>
      reads this
    {
      State(schema, rows)
    }

    /** `runOne` around `up` and its row: both or neither. */
    method Apply(name: string, migration: Migration<S>, batch: nat) returns (ok: bool)
      modifies this`schema, this`rows
      ensures ok <==> migration.up(old(schema)).Some?
      ensures Now() == if ok then State(migration.up(old(schema)).value, old(rows) + {Entry(name, batch)})
                       else old(Now())
    {
      var schemaBefore, rowsBefore := schema, rows;
      match migration.up(schema) {
        case None =>
          ok := false;
        case Some(s) =>
          schema := s;
          rows := rows + {Entry(name, batch)};
          ok := true;
      }
      if !ok {
        schema, rows := schemaBefore, rowsBefore;
      }
    }

    method Revert(name: string, migration: Migration<S>) returns (ok: bool)
      modifies this`schema, this`rows
      ensures ok <==> migration.down(old(schema)).Some?
      ensures Now() == if ok then State(migration.down(old(schema)).value, Without(old(rows), name)) else old(Now())
    {
      match migration.down(schema) {
        case None =>
          ok := false;
        case Some(s) =>
          schema := s;
          rows := Without(rows, name);
          ok := true;
      }
    }
  }

  /** The names found, in code-unit order, and what each stands for. */
  method Discover<S>(found: seq<(string, Migration<S>)>) returns (order: seq<string>, registry: Registry<S>)
    ensures registry == Registered(found)
    ensures Ascending(order) && forall n :: n in order <==> n in registry
    ensures StandForFirsts(registry, found)
  {
    registry := map[];
    for i := 0 to |found|
      invariant registry == Registered(found[..i])
    {
      assert found[..i + 1][..i] == found[..i];
      if found[i].0 !in registry {
        registry := registry[found[i].0 := found[i].1];
      }
    }
    assert found[..|found|] == found;
    order := SortNames(registry.Keys);
    OnlyFirstsRegister(found);
  }

  method FilterPending(order: seq<string>, rows: set<Entry>) returns (todo: seq<string>)
    requires Ascending(order)
    ensures Ascending(todo) && forall n :: n in todo <==> n in order && n !in RowNames(rows)
  {
    todo := [];
    for i := 0 to |order|
      invariant forall n :: n in todo <==> n in order[..i] && n !in RowNames(rows)
      invariant Ascending(todo)
    {
      if order[i] !in RowNames(rows) {
        assert forall n <- todo :: Less(n, order[i]);
        todo := todo + [order[i]];
      }
    }
    assert order[..|order|] == order;
  }

  /**
   * `up`: refused while another run holds the lock, otherwise applies every pending migration in name order
   * under the next batch number and lets go of the lock, whether or not one throws.
   */
  method Up<S>(db: Database<S>, found: seq<(string, Migration<S>)>, owner: string)
    returns (outcome: Outcome, ghost todo: seq<string>, ghost batch: nat)
    modifies db
    ensures db.holder == old(db.holder)
    ensures old(db.holder).Some? ==> outcome == Refused(old(db.holder).value) && db.Now() == old(db.Now())
    ensures Ascending(todo) && IsNext(old(db.rows), batch)
    ensures forall n :: n in todo <==> n in Registered(found) && n !in RowNames(old(db.rows))
    ensures old(db.holder).None? ==>
      var (after, threw) := Ups(old(db.Now()), todo, batch, Registered(found));
      db.Now() == after && outcome == match threw case None => Done(todo) case Some(n) => Threw(n)
  {
    var order, registry := Discover(found);
    var pending := FilterPending(order, db.rows);
    var next := NextBatch(db.rows);
    todo, batch := pending, next;
    if db.holder.Some? {
      return Refused(db.holder.value), todo, batch;
    }
    db.holder := Some(owner);
    var threw := ApplyAll(db, pending, next, registry);
    outcome := match threw case None => Done(pending) case Some(n) => Threw(n);
    db.holder := None;
  }

  method ApplyAll<S>(db: Database<S>, todo: seq<string>, batch: nat, registry: Registry<S>)
    returns (threw: Option<string>)
    requires forall n <- todo :: n in registry
    modifies db`schema, db`rows
    ensures Ups(old(db.Now()), todo, batch, registry) == (db.Now(), threw)
  {
    for i := 0 to |todo|
      invariant Ups(old(db.Now()), todo, batch, registry) == Ups(db.Now(), todo[i..], batch, registry)
    {
      assert todo[i..][0] == todo[i] && todo[i..][1..] == todo[i + 1..];
      var ok := db.Apply(todo[i], registry[todo[i]], batch);
      if !ok {
        return Some(todo[i]);
      }
    }
    threw := None;
  }

  /**
   * `rollback`, and `reset` when no step is given: undoes the rows of the highest batches from the latest
   * back, and lets go of the lock whether or not it gets to the end.
   */
  method Rollback<S>(db: Database<S>, found: seq<(string, Migration<S>)>, owner: string, step: Option<nat>)
    returns (outcome: Outcome)
    modifies db
    ensures db.holder == old(db.holder)
    ensures old(db.holder).Some? ==> outcome == Refused(old(db.holder).value) && db.Now() == old(db.Now())
    ensures old(db.holder).None? ==>
      var todo := Names(Undo(old(db.rows), step));
      var (after, threw) := Downs(old(db.Now()), todo, Registered(found));
      db.Now() == after && outcome == match threw case None => Done(todo) case Some(n) => Threw(n)
  {
    var order, registry := Discover(found);
    if db.holder.Some? {
      return Refused(db.holder.value);
    }
    db.holder := Some(owner);
    var plan := Plan(db.rows, step);
    var threw := RevertAll(db, Names(plan), registry);
    outcome := match threw case None => Done(Names(plan)) case Some(n) => Threw(n);
    db.holder := None;
  }

  method RevertAll<S>(db: Database<S>, todo: seq<string>, registry: Registry<S>) returns (threw: Option<string>)
    modifies db`schema, db`rows
    ensures Downs(old(db.Now()), todo, registry) == (db.Now(), threw)
  {
    for i := 0 to |todo|
      invariant Downs(old(db.Now()), todo, registry) == Downs(db.Now(), todo[i..], registry)
    {
      assert todo[i..][0] == todo[i] && todo[i..][1..] == todo[i + 1..];
      if todo[i] !in registry {
        return Some(todo[i]);
      }
      var ok := db.Revert(todo[i], registry[todo[i]]);
      if !ok {
        return Some(todo[i]);
      }
    }
    threw := None;
  }

  // --------------------------------------------------------------------- laws

  /** The rows a batch of these names makes, in application order. */
  function Batch(names: seq<string>, batch: nat): (h: seq<Entry>)
    ensures |h| == |names| && forall i :: 0 <= i < |h| ==> h[i] == Entry(names[i], batch)
  {
    seq(|names|, i requires 0 <= i < |names| => Entry(names[i], batch))
  }

  /** The schema that applying these rows in order to `base` gives. */
  function Build<S>(base: S, h: seq<Entry>, registry: Registry<S>): Option<S>
    requires forall e <- h :: e.name in registry
  {
    if h == [] then Some(base)
    else
      match Build(base, h[..|h| - 1], registry)
      case None => None
      case Some(s) => registry[h[|h| - 1].name].up(s)
  }

  ghost predicate UniqueNames(h: seq<Entry>) {
    forall i, j :: 0 <= i < j < |h| ==> h[i].name != h[j].name
  }

  /** What is left to apply comes after everything in the history. */
  ghost predicate Ahead(h: seq<Entry>, todo: seq<string>, batch: nat) {
    forall e, m :: e in h && m in todo ==> e.name != m && Before(e, Entry(m, batch))
  }

  lemma StillAhead(h: seq<Entry>, todo: seq<string>, batch: nat)
    requires Ahead(h, todo, batch) && Ascending(todo) && todo != []
    ensures Ahead(h + [Entry(todo[0], batch)], todo[1..], batch) && Ascending(todo[1..])
  {
    forall e, m | e in h + [Entry(todo[0], batch)] && m in todo[1..]
      ensures e.name != m && Before(e, Entry(m, batch))
    {
      var i :| 0 <= i < |todo[1..]| && todo[1..][i] == m;
      assert todo[i + 1] == m && Less(todo[0], todo[i + 1]) && m in todo;
      LessIsStrict(todo[0], m);
    }
  }

  /** How many of `todo` are applied before one throws. */
  function Progress<S>(schema: S, todo: seq<string>, registry: Registry<S>): (n: nat)
    requires forall m <- todo :: m in registry
    ensures n <= |todo|
    decreases |todo|
  {
    if todo == [] || registry[todo[0]].up(schema).None? then 0
    else 1 + Progress(registry[todo[0]].up(schema).value, todo[1..], registry)
  }

  /** A run, finished or not, leaves the rows of a history that goes on from the one before. */
  lemma {:induction false} UpsExtendHistory<S>(st: State<S>, todo: seq<string>, batch: nat, registry: Registry<S>,
                                               h: seq<Entry>)
    requires IsHistory(h, st.rows) && UniqueNames(h) && Ascending(todo) && (forall m <- todo :: m in registry)
    requires Ahead(h, todo, batch)
    ensures
      var done := h + Batch(todo[..Progress(st.schema, todo, registry)], batch);
      IsHistory(done, Ups(st, todo, batch, registry).0.rows) && UniqueNames(done)
    decreases |todo|
  {
    if todo == [] || registry[todo[0]].up(st.schema).None? {
      assert h + Batch(todo[..0], batch) == h;
    } else {
      var e, s := Entry(todo[0], batch), registry[todo[0]].up(st.schema).value;
      assert todo[0] in todo;
      AppendKeepsHistory(h, st.rows, e);
      StillAhead(h, todo, batch);
      UpsExtendHistory(State(s, st.rows + {e}), todo[1..], batch, registry, h + [e]);
      var n := Progress(s, todo[1..], registry);
      assert h + [e] + Batch(todo[1..][..n], batch) == h + Batch(todo[..n + 1], batch);
    }
  }

  /** ... and the schema those rows build. */
  lemma {:induction false} UpsBuild<S>(st: State<S>, todo: seq<string>, batch: nat, registry: Registry<S>)
    requires forall m <- todo :: m in registry
    ensures
      var (after, threw) := Ups(st, todo, batch, registry);
      var n := Progress(st.schema, todo, registry);
      && threw == (if n == |todo| then None else Some(todo[n]))
      && Build(st.schema, Batch(todo[..n], batch), registry) == Some(after.schema)
    decreases |todo|
  {
    if todo == [] || registry[todo[0]].up(st.schema).None? {
      assert Batch(todo[..0], batch) == [];
    } else {
      var e, s := Entry(todo[0], batch), registry[todo[0]].up(st.schema).value;
      UpsBuild(State(s, st.rows + {e}), todo[1..], batch, registry);
      var n := Progress(s, todo[1..], registry);
      BuildCons(st.schema, e, Batch(todo[1..][..n], batch), registry);
      assert [e] + Batch(todo[1..][..n], batch) == Batch(todo[..n + 1], batch);
    }
  }

  lemma {:induction false} BuildCons<S>(base: S, e: Entry, h: seq<Entry>, registry: Registry<S>)
    requires e.name in registry && (forall f <- h :: f.name in registry) && registry[e.name].up(base).Some?
    ensures Build(base, [e] + h, registry) == Build(registry[e.name].up(base).value, h, registry)
  {
    if h == [] {
      assert [e] + h == [e] && [e][..0] == [];
    } else {
      BuildCons(base, e, h[..|h| - 1], registry);
      assert ([e] + h)[..|h|] == [e] + h[..|h| - 1];
    }
  }

  lemma AppendKeepsHistory(h: seq<Entry>, rows: set<Entry>, e: Entry)
    requires IsHistory(h, rows) && UniqueNames(h)
    requires forall f <- h :: Before(f, e) && f.name != e.name
    ensures IsHistory(h + [e], rows + {e}) && UniqueNames(h + [e])
  {
  }

  /** Every `down` that follows its own `up` undoes it. */
  ghost predicate Inverts<S(!new)>(registry: Registry<S>) {
    forall n, s :: n in registry && registry[n].up(s).Some? ==> registry[n].down(registry[n].up(s).value) == Some(s)
  }

  lemma UndoneFirst(h: seq<Entry>, c: nat)
    requires c < |h|
    ensures
      var todo := Names(Reversed(h[c..]));
      todo != [] && todo[0] == h[|h| - 1].name && todo[1..] == Names(Reversed(h[..|h| - 1][c..]))
  {
  }

  lemma WithoutLast(older: set<Entry>, h: seq<Entry>)
    requires h != [] && UniqueNames(h) && h[|h| - 1].name !in RowNames(older)
    ensures Without(older + Elements(h), h[|h| - 1].name) == older + Elements(h[..|h| - 1])
  {
    var init, last := h[..|h| - 1], h[|h| - 1];
    assert h == init + [last];
    forall e | e in older ensures e.name != last.name {
      assert e.name in RowNames(older);
    }
    assert forall e <- init :: e.name != last.name;
  }

  /** Undoing the latest rows from the end back leads exactly to the schema and the rows before them. */
  lemma {:induction false} DownsInvert<S(!new)>(base: S, older: set<Entry>, h: seq<Entry>, c: nat,
                                                registry: Registry<S>,
                                                st: State<S>)
    requires c <= |h| && Inverts(registry) && UniqueNames(h) && (forall e <- h :: e.name in registry)
    requires forall e <- h :: e.name !in RowNames(older)
    requires Build(base, h, registry) == Some(st.schema) && st.rows == older + Elements(h)
    ensures Build(base, h[..c], registry).Some?
    ensures Downs(st, Names(Reversed(h[c..])), registry)
         == (State(Build(base, h[..c], registry).value, older + Elements(h[..c])), None)
    decreases |h|
  {
    if c == |h| {
      assert h[..c] == h && Names(Reversed(h[c..])) == [];
    } else {
      var init, last := h[..|h| - 1], h[|h| - 1];
      UndoneFirst(h, c);
      WithoutLast(older, h);
      DownsInvert(base, older, init, c, registry, State(Build(base, init, registry).value, older + Elements(init)));
      assert init[..c] == h[..c];
    }
  }

  /**
   * `up`, finished or stopped by a migration that throws, followed by `rollback` of one batch restores schema and rows,
   * if and only if it applied something or there is nothing that `rollback` could take for its batch.
   */
  lemma UpThenRollbackRestores<S(!new)>(st: State<S>, todo: seq<string>, batch: nat, registry: Registry<S>)
    requires UniqueNames(Order(st.rows)) && Ascending(todo)
    requires (forall m <- todo :: m in registry && m !in RowNames(st.rows)) && IsNext(st.rows, batch)
    requires Inverts(registry)
    ensures
      var after := Ups(st, todo, batch, registry).0;
      Downs(after, Names(Undo(after.rows, Some(1))), registry) == (st, None)
      <==> Progress(st.schema, todo, registry) > 0 || st.rows == {}
  {
    if Progress(st.schema, todo, registry) > 0 {
      AppliedIsUndone(st, todo, batch, registry);
    } else {
      NothingApplied(st, todo, batch, registry);
      RollbackOfNothing(st, registry);
    }
  }

  lemma NothingApplied<S>(st: State<S>, todo: seq<string>, batch: nat, registry: Registry<S>)
    requires forall m <- todo :: m in registry
    requires Progress(st.schema, todo, registry) == 0
    ensures Ups(st, todo, batch, registry).0 == st
  {
  }

  lemma RollbackOfNothing<S>(st: State<S>, registry: Registry<S>)
    ensures Downs(st, Names(Undo(st.rows, Some(1))), registry) == (st, None) <==> st.rows == {}
  {
    if st.rows == {} {
      assert Order(st.rows) == [];
    } else {
      RollbackUndoes(st, registry);
    }
  }

  lemma AppliedIsUndone<S(!new)>(st: State<S>, todo: seq<string>, batch: nat, registry: Registry<S>)
    requires UniqueNames(Order(st.rows)) && Ascending(todo) && Inverts(registry)
    requires (forall m <- todo :: m in registry && m !in RowNames(st.rows)) && IsNext(st.rows, batch)
    requires Progress(st.schema, todo, registry) > 0
    ensures
      var after := Ups(st, todo, batch, registry).0;
      Downs(after, Names(Undo(after.rows, Some(1))), registry) == (st, None)
  {
    var done := todo[..Progress(st.schema, todo, registry)];
    UpAppends(st, todo, batch, registry, Order(st.rows));
    AscendingIsUnique(done, batch);
    assert forall m <- done :: m in todo;
    LatestIsUndone(st, Batch(done, batch), batch, registry, Ups(st, todo, batch, registry).0);
  }

  /** The rows of a batch of their own, and the schema they built. */
  lemma LatestIsUndone<S(!new)>(st: State<S>, latest: seq<Entry>, batch: nat, registry: Registry<S>, after: State<S>)
    requires Inverts(registry) && latest != [] && UniqueNames(latest)
    requires forall e <- latest :: e.batch == batch && e.name in registry && e.name !in RowNames(st.rows)
    requires forall e <- st.rows :: e.batch < batch
    requires IsHistory(Order(st.rows) + latest, after.rows) && after.rows == st.rows + Elements(latest)
    requires Build(st.schema, latest, registry) == Some(after.schema)
    ensures Downs(after, Names(Undo(after.rows, Some(1))), registry) == (st, None)
  {
    UndoIsLatest(Order(st.rows), latest, after.rows, batch);
    DownsInvert(st.schema, st.rows, latest, 0, registry, after);
    assert latest[0..] == latest && latest[..0] == [] && st.rows + Elements([]) == st.rows;
  }

  /** `rollback` of one batch never leaves the rows of a table that has any as they were, unless it throws. */
  lemma RollbackUndoes<S>(st: State<S>, registry: Registry<S>)
    requires st.rows != {}
    ensures
      var (after, threw) := Downs(st, Names(Undo(st.rows, Some(1))), registry);
      threw == None ==> after.rows != st.rows
  {
    var h := Order(st.rows);
    var last, todo := h[|h| - 1], Names(Undo(st.rows, Some(1)));
    forall e | e in st.rows ensures e.batch <= last.batch {
      var i :| 0 <= i < |h| && h[i] == e;
      assert i < |h| - 1 ==> Before(h[i], h[|h| - 1]);
    }
    assert last in h && last in st.rows;
    assert Higher(st.rows, last.batch) == {};
    assert last.batch in Top(st.rows, Some(1));
    assert todo[0] == last.name;
    if todo[0] in registry && registry[todo[0]].down(st.schema).Some? {
      var s := registry[todo[0]].down(st.schema).value;
      DownsOnlyRemove(State(s, Without(st.rows, todo[0])), todo[1..], registry);
    }
  }

  lemma {:induction false} DownsOnlyRemove<S>(st: State<S>, todo: seq<string>, registry: Registry<S>)
    ensures Downs(st, todo, registry).0.rows <= st.rows
    decreases |todo|
  {
    if todo != [] && todo[0] in registry && registry[todo[0]].down(st.schema).Some? {
      var s := registry[todo[0]].down(st.schema).value;
      DownsOnlyRemove(State(s, Without(st.rows, todo[0])), todo[1..], registry);
    }
  }

  lemma UndoIsLatest(h: seq<Entry>, latest: seq<Entry>, rows: set<Entry>, batch: nat)
    requires IsHistory(h + latest, rows) && latest != []
    requires (forall e <- h :: e.batch < batch) && forall e <- latest :: e.batch == batch
    ensures Undo(rows, Some(1)) == Reversed(latest)
  {
    HistoryIsUnique(h + latest, Order(rows), rows);
    OnlyNewestOnTop(h, latest, rows, batch);
    assert (h + latest)[|h|..] == latest;
  }

  /** A run appends what it applied. */
  lemma UpAppends<S>(st: State<S>, todo: seq<string>, batch: nat, registry: Registry<S>, h: seq<Entry>)
    requires IsHistory(h, st.rows) && UniqueNames(h) && Ascending(todo)
    requires (forall m <- todo :: m in registry && m !in RowNames(st.rows)) && IsNext(st.rows, batch)
    ensures
      var after := Ups(st, todo, batch, registry).0;
      var latest := Batch(todo[..Progress(st.schema, todo, registry)], batch);
      && IsHistory(h + latest, after.rows) && UniqueNames(h + latest) && after.rows == st.rows + Elements(latest)
      && Build(st.schema, latest, registry) == Some(after.schema)
  {
    forall e, m | e in h && m in todo ensures e.name != m && Before(e, Entry(m, batch)) {
      assert e in st.rows && e.name in RowNames(st.rows);
    }
    UpsExtendHistory(st, todo, batch, registry, h);
    UpsBuild(st, todo, batch, registry);
  }

  lemma AscendingIsUnique(todo: seq<string>, batch: nat)
    requires Ascending(todo)
    ensures UniqueNames(Batch(todo, batch))
  {
    forall i, j | 0 <= i < j < |todo| ensures todo[i] != todo[j] {
      LessIsStrict(todo[i], todo[j]);
    }
  }

  lemma OnlyNewestOnTop(h: seq<Entry>, latest: seq<Entry>, rows: set<Entry>, batch: nat)
    requires IsHistory(h + latest, rows) && latest != []
    requires (forall e <- h :: e.batch < batch) && forall e <- latest :: e.batch == batch
    ensures Cut(h + latest, Top(rows, Some(1))) == |h|
  {
    var all, top := h + latest, Top(rows, Some(1));
    assert latest[0] in all && latest[0] in rows;
    forall b | b in Batches(rows) ensures b <= batch {
      var e :| e in rows && e.batch == b;
      assert e in all;
    }
    assert Higher(rows, batch) == {};
    assert batch in top;
    forall i | 0 <= i < |h| ensures all[i].batch !in top {
      assert h[i] in h && h[i] in all && h[i] in rows && batch in Higher(rows, h[i].batch);
      FewerElements({batch}, Higher(rows, h[i].batch));
    }
    assert all[|h|] == latest[0] && latest[0] in latest && latest[0].batch in top;
  }

  // ---------------------------------------------------- where a run comes to a stop

  /** What moves the schema: nothing for a name no source knows. */
  function UpOf<S>(registry: Registry<S>): (string, S) -> Option<S> {
    (name, schema) => if name in registry then registry[name].up(schema) else None
  }

  function DownOf<S>(registry: Registry<S>): (string, S) -> Option<S> {
    (name, schema) => if name in registry then registry[name].down(schema) else None
  }

  /** The schema went through `steps` by the first of the names, up to the end or to the first that moves nothing. */
  ghost predicate Ran<S>(steps: seq<S>, last: S, names: seq<string>, move: (string, S) -> Option<S>) {
    && 0 < |steps| <= |names| + 1 && steps[|steps| - 1] == last
    && (forall i :: 0 <= i < |steps| - 1 ==> move(names[i], steps[i]) == Some(steps[i + 1]))
    && (|steps| <= |names| ==> move(names[|steps| - 1], last) == None)
  }

  /** The name a run ended at. */
  function Halted(names: seq<string>, n: nat): Option<string> { if n < |names| then Some(names[n]) else None }

  lemma RanFurther<S>(first: S, steps: seq<S>, last: S, names: seq<string>, move: (string, S) -> Option<S>)
    requires names != [] && Ran(steps, last, names[1..], move) && move(names[0], first) == Some(steps[0])
    ensures Ran([first] + steps, last, names, move)
  {
  }

  /**
   * A rollback stops at the first name no source knows or whose `down` throws, and names it: everything
   * before is undone, its row gone, and everything from there on is as it was.
   */
  lemma {:induction false} DownsStop<S>(st: State<S>, todo: seq<string>, registry: Registry<S>) returns (steps: seq<S>)
    ensures
      var (after, threw) := Downs(st, todo, registry);
      && Ran(steps, after.schema, todo, DownOf(registry)) && steps[0] == st.schema
      && after.rows == (set e | e in st.rows && e.name !in todo[..|steps| - 1])
      && threw == Halted(todo, |steps| - 1)
    decreases |todo|
  {
    steps := [st.schema];
    if todo != [] && todo[0] in registry && registry[todo[0]].down(st.schema).Some? {
      var s := registry[todo[0]].down(st.schema).value;
      var rest := DownsStop(State(s, Without(st.rows, todo[0])), todo[1..], registry);
      RanFurther(st.schema, rest, Downs(st, todo, registry).0.schema, todo, DownOf(registry));
      steps := steps + rest;
      assert todo[..|rest|] == [todo[0]] + todo[1..][..|rest| - 1];
    }
  }

  /** A run of `up` stops at the first migration that throws, and keeps what it had applied. */
  lemma {:induction false} UpsStop<S>(st: State<S>, todo: seq<string>, batch: nat, registry: Registry<S>)
    returns (steps: seq<S>)
    requires forall n <- todo :: n in registry
    ensures
      var (after, threw) := Ups(st, todo, batch, registry);
      && Ran(steps, after.schema, todo, UpOf(registry)) && steps[0] == st.schema
      && after.rows == st.rows + Elements(Batch(todo[..|steps| - 1], batch))
      && threw == Halted(todo, |steps| - 1)
    decreases |todo|
  {
    steps := [st.schema];
    if todo != [] && registry[todo[0]].up(st.schema).Some? {
      var s := registry[todo[0]].up(st.schema).value;
      var rest := UpsStop(State(s, st.rows + {Entry(todo[0], batch)}), todo[1..], batch, registry);
      RanFurther(st.schema, rest, Ups(st, todo, batch, registry).0.schema, todo, UpOf(registry));
      steps := steps + rest;
      assert Batch(todo[..|rest|], batch) == [Entry(todo[0], batch)] + Batch(todo[1..][..|rest| - 1], batch);
    } else {
      assert Batch([], batch) == [] && st.rows + Elements([]) == st.rows;
    }
  }

  // ------------------------------------------------------- several batches

  /** One `up`: what it has to do and the batch it does it under. */
  datatype UpRun = UpRun(todo: seq<string>, batch: nat)

  ghost predicate AllRegistered<S>(runs: seq<UpRun>, registry: Registry<S>) {
    forall run <- runs :: forall m <- run.todo :: m in registry
  }

  ghost function AfterRuns<S>(st: State<S>, runs: seq<UpRun>, registry: Registry<S>): State<S>
    requires AllRegistered(runs, registry)
  {
    if runs == [] then st
    else
      var last := runs[|runs| - 1];
      Ups(AfterRuns(st, runs[..|runs| - 1], registry), last.todo, last.batch, registry).0
  }

  /** Each run starts on the next batch with names not yet applied, and applies something. */
  ghost predicate EachApplies<S>(st: State<S>, runs: seq<UpRun>, registry: Registry<S>)
    requires AllRegistered(runs, registry)
  {
    runs == [] ||
    var init, last := runs[..|runs| - 1], runs[|runs| - 1];
    && EachApplies(st, init, registry) && Applies(AfterRuns(st, init, registry), last, registry)
  }

  ghost predicate Applies<S>(st: State<S>, run: UpRun, registry: Registry<S>)
    requires forall m <- run.todo :: m in registry
  {
    && Ascending(run.todo) && (forall m <- run.todo :: m !in RowNames(st.rows))
    && IsNext(st.rows, run.batch) && Progress(st.schema, run.todo, registry) > 0
  }

  ghost predicate AllKnown<S>(entries: seq<Entry>, registry: Registry<S>) { forall e <- entries :: e.name in registry }

  ghost predicate AllNewer(rows: set<Entry>, latest: seq<Entry>) {
    forall e, f | e in latest && f in rows :: f.batch < e.batch
  }

  /** The rows `latest` on top of the history `h`, in batches of their own, and the schema they built. */
  ghost predicate Extends<S>(st: State<S>, h: seq<Entry>, after: State<S>, latest: seq<Entry>, registry: Registry<S>) {
    && IsHistory(h + latest, after.rows) && UniqueNames(h + latest) && after.rows == st.rows + Elements(latest)
    && AllKnown(latest, registry) && AllNewer(st.rows, latest) && Builds(st.schema, latest, after.schema, registry)
  }

  ghost predicate Builds<S>(base: S, entries: seq<Entry>, schema: S, registry: Registry<S>)
    requires AllKnown(entries, registry)
  {
    Build(base, entries, registry) == Some(schema)
  }

  lemma {:induction false} BuildConcat<S>(base: S, a: seq<Entry>, b: seq<Entry>, registry: Registry<S>)
    requires (forall e <- a :: e.name in registry) && (forall e <- b :: e.name in registry)
    requires Build(base, a, registry).Some?
    ensures Build(base, a + b, registry) == Build(Build(base, a, registry).value, b, registry)
  {
    if b == [] {
      assert a + b == a;
    } else {
      assert (a + b)[..|a + b| - 1] == a + b[..|b| - 1];
      BuildConcat(base, a, b[..|b| - 1], registry);
    }
  }

  ghost predicate OfBatch(entries: seq<Entry>, batch: nat) { forall e <- entries :: e.batch == batch }

  lemma RunAppends<S>(st: State<S>, run: UpRun, h: seq<Entry>, registry: Registry<S>) returns (more: seq<Entry>)
    requires forall m <- run.todo :: m in registry
    requires IsHistory(h, st.rows) && UniqueNames(h) && Applies(st, run, registry)
    ensures more != [] && OfBatch(more, run.batch)
    ensures Extends(st, h, Ups(st, run.todo, run.batch, registry).0, more, registry)
  {
    more := Batch(run.todo[..Progress(st.schema, run.todo, registry)], run.batch);
    UpAppends(st, run.todo, run.batch, registry, h);
  }

  lemma BuildsConcat<S>(base: S, a: seq<Entry>, mid: S, b: seq<Entry>, last: S, registry: Registry<S>)
    requires AllKnown(a, registry) && AllKnown(b, registry)
    requires Builds(base, a, mid, registry) && Builds(mid, b, last, registry)
    ensures AllKnown(a + b, registry) && Builds(base, a + b, last, registry)
  {
    BuildConcat(base, a, b, registry);
  }

  lemma NewerConcat(rows: set<Entry>, a: seq<Entry>, b: seq<Entry>)
    requires AllNewer(rows, a) && AllNewer(rows + Elements(a), b)
    ensures AllNewer(rows, a + b)
  {
  }

  lemma ElementsConcat(a: seq<Entry>, b: seq<Entry>)
    ensures Elements(a + b) == Elements(a) + Elements(b)
  {
  }

  lemma ExtendsExtends<S>(st: State<S>, h: seq<Entry>, mid: State<S>, latest: seq<Entry>, after: State<S>,
                          more: seq<Entry>, registry: Registry<S>)
    requires Extends(st, h, mid, latest, registry) && Extends(mid, h + latest, after, more, registry)
    ensures Extends(st, h, after, latest + more, registry)
  {
    assert h + latest + more == h + (latest + more);
    ElementsConcat(latest, more);
    NewerConcat(st.rows, latest, more);
    BuildsConcat(st.schema, latest, mid.schema, more, after.schema, registry);
  }

  lemma OneRunExtends<S>(st: State<S>, mid: State<S>, latest: seq<Entry>, run: UpRun, registry: Registry<S>)
    returns (more: seq<Entry>)
    requires forall m <- run.todo :: m in registry
    requires Extends(st, Order(st.rows), mid, latest, registry) && Applies(mid, run, registry)
    ensures more != [] && OfBatch(more, run.batch)
    ensures Extends(st, Order(st.rows), Ups(mid, run.todo, run.batch, registry).0, latest + more, registry)
  {
    var h := Order(st.rows);
    more := RunAppends(mid, run, h + latest, registry);
    ExtendsExtends(st, h, mid, latest, Ups(mid, run.todo, run.batch, registry).0, more, registry);
  }

  lemma BatchesMore(latest: seq<Entry>, more: seq<Entry>, batch: nat)
    requires more != [] && OfBatch(more, batch) && forall e <- latest :: e.batch < batch
    ensures |Batches(Elements(latest + more))| == |Batches(Elements(latest))| + 1
  {
    var all, before := Batches(Elements(latest + more)), Batches(Elements(latest));
    assert more[0] in latest + more;
    forall b ensures b in all <==> b in before + {batch} {
      if b in before {
        var e :| e in Elements(latest) && e.batch == b;
        assert e in Elements(latest + more);
      }
      if b == batch {
        assert more[0] in Elements(latest + more);
      }
    }
    assert all == before + {batch};
  }

  lemma {:induction false} RunsExtend<S>(st: State<S>, runs: seq<UpRun>, registry: Registry<S>)
    returns (latest: seq<Entry>)
    requires UniqueNames(Order(st.rows)) && AllRegistered(runs, registry) && EachApplies(st, runs, registry)
    ensures Extends(st, Order(st.rows), AfterRuns(st, runs, registry), latest, registry)
    ensures |Batches(Elements(latest))| == |runs|
  {
    latest := [];
    if runs == [] {
      assert Order(st.rows) + [] == Order(st.rows) && st.rows + Elements([]) == st.rows;
      assert Batches(Elements([])) == {};
    } else {
      var init, last := runs[..|runs| - 1], runs[|runs| - 1];
      var mid := AfterRuns(st, init, registry);
      latest := RunsExtend(st, init, registry);
      var more := OneRunExtends(st, mid, latest, last, registry);
      forall e | e in latest ensures e.batch < last.batch {
        assert e in mid.rows;
      }
      BatchesMore(latest, more, last.batch);
      latest := latest + more;
    }
  }

  lemma UndoIsThese<S>(st: State<S>, after: State<S>, latest: seq<Entry>, registry: Registry<S>)
    requires Extends(st, Order(st.rows), after, latest, registry)
    ensures Undo(after.rows, Some(|Batches(Elements(latest))|)) == Reversed(latest)
  {
    var k := |Batches(Elements(latest))|;
    var plan := Undo(after.rows, Some(k));
    FewerElements(Batches(Elements(latest)), Batches(after.rows));
    UndoTakesBatches(after.rows, Some(k));
    SameBatches(after.rows, Elements(plan), Elements(latest));
    LatestIsHistory(Order(st.rows), latest, after.rows);
    HistoryIsUnique(Reversed(plan), latest, Elements(latest));
    assert plan == Reversed(Reversed(plan));
  }

  lemma LatestIsHistory(h: seq<Entry>, latest: seq<Entry>, rows: set<Entry>)
    requires IsHistory(h + latest, rows)
    ensures IsHistory(latest, Elements(latest))
  {
    forall i, j | 0 <= i < j < |latest| ensures Before(latest[i], latest[j]) {
      assert (h + latest)[|h| + i] == latest[i] && (h + latest)[|h| + j] == latest[j];
    }
  }

  /** Any number of runs of `up` that each applied something, and `rollback` of as many batches, restore everything. */
  lemma UpsThenRollbackRestores<S(!new)>(st: State<S>, runs: seq<UpRun>, registry: Registry<S>)
    requires UniqueNames(Order(st.rows)) && AllRegistered(runs, registry) && EachApplies(st, runs, registry)
    requires Inverts(registry)
    ensures
      var after := AfterRuns(st, runs, registry);
      Downs(after, Names(Undo(after.rows, Some(|runs|))), registry) == (st, None)
  {
    var after := AfterRuns(st, runs, registry);
    var latest := RunsExtend(st, runs, registry);
    UndoIsThese(st, after, latest, registry);
    LatestAreApart(Order(st.rows), latest, st.rows);
    DownsInvert(st.schema, st.rows, latest, 0, registry, after);
    assert latest[0..] == latest && latest[..0] == [] && st.rows + Elements([]) == st.rows;
  }

  lemma LatestAreApart(h: seq<Entry>, latest: seq<Entry>, rows: set<Entry>)
    requires IsHistory(h, rows) && UniqueNames(h + latest)
    ensures UniqueNames(latest) && forall e <- latest :: e.name !in RowNames(rows)
  {
    var all := h + latest;
    forall i, j | 0 <= i < j < |latest| ensures latest[i].name != latest[j].name {
      assert all[|h| + i] == latest[i] && all[|h| + j] == latest[j];
    }
    forall e, f | e in latest && f in rows ensures e.name != f.name {
      var i, j :| 0 <= i < |h| && h[i] == f && 0 <= j < |latest| && latest[j] == e;
      assert all[i] == f && all[|h| + j] == e;
    }
  }

  /** `reset` empties the table and takes the schema back to the one the first migration met. */
  lemma ResetEmpties<S(!new)>(base: S, h: seq<Entry>, registry: Registry<S>, st: State<S>)
    requires IsHistory(h, st.rows) && UniqueNames(h) && (forall e <- h :: e.name in registry) && Inverts(registry)
    requires Build(base, h, registry) == Some(st.schema)
    ensures Downs(st, Names(Undo(st.rows, None)), registry) == (State(base, {}), None)
  {
    TopIsSuffix(h, st.rows, None);
    if h != [] {
      assert h[0] in h && h[0].batch in Top(st.rows, None);
    }
    assert Cut(h, Top(st.rows, None)) == 0;
    assert h[0..] == h && h[..0] == [] && Elements([]) == {};
    assert st.rows == {} + Elements(h) && Build(base, h[..0], registry) == Some(base);
    DownsInvert(base, {}, h, 0, registry, st);
    assert {} + Elements(h[..0]) == {};
    HistoryIsUnique(h, Order(st.rows), st.rows);
    assert Undo(st.rows, None) == Reversed(h[0..]);
  }
}
