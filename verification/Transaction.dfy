/** The callback registry of one physical transaction, and the scopes visible to the code inside it. */
module TransactionContext {
  import opened Text
  import opened TransactionReference

  class DeferredCallbacks {
    /** The connection whose transaction this registry belongs to. */
    ghost const conn: Conn
    var commit: seq<Entry>
    var rollback: seq<Entry>

    constructor (ghost conn: Conn)
      ensures this.conn == conn && commit == [] && rollback == []
    {
      this.conn := conn;
      commit, rollback := [], [];
    }

    method Push(queue: Queue, level: nat, callback: Callback)
      modifies this
      ensures commit == old(commit) + if queue.OnCommit? then [Entry(level, callback)] else []
      ensures rollback == old(rollback) + if queue.OnRollback? then [Entry(level, callback)] else []
    {
      match queue
      case OnCommit => commit := commit + [Entry(level, callback)];
      case OnRollback => rollback := rollback + [Entry(level, callback)];
    }

    method DiscardFrom(level: nat)
      modifies this
      ensures commit == Below(old(commit), level) && rollback == Below(old(rollback), level)
    {
      commit, rollback := Below(commit, level), Below(rollback, level);
    }

    method TakeCommit() returns (callbacks: seq<Callback>)
      modifies this
      ensures callbacks == Callbacks(old(commit)) && commit == [] && rollback == old(rollback)
    {
      callbacks := Callbacks(commit);
      commit := [];
    }

    method TakeRollback() returns (callbacks: seq<Callback>)
      modifies this
      ensures callbacks == Callbacks(old(rollback)) && rollback == [] && commit == old(commit)
    {
      callbacks := Callbacks(rollback);
      rollback := [];
    }
  }

  /** One connection's open transaction as the code inside it sees it. */
  datatype Scope = Scope(trx: nat, level: nat, deferred: DeferredCallbacks)

  /** One entry of the async-local map from a root connection to its scope; a store lists them in insertion order. */
  datatype Slot = Slot(conn: Conn, scope: Scope)

  type Store = seq<Slot>

  ghost function Registries(store: Store): set<object> {
    set i | 0 <= i < |store| :: store[i].scope.deferred
  }

  function PositionFrom(store: Store, c: Conn, from: nat): (i: nat)
    requires from <= |store|
    ensures from <= i <= |store|
    ensures i < |store| ==> store[i].conn == c
    ensures forall j :: from <= j < i ==> store[j].conn != c
    decreases |store| - from
  {
    if from == |store| || store[from].conn == c then from else PositionFrom(store, c, from + 1)
  }

  /** Where `c` is in the map, `|store|` when it is not. */
  function Position(store: Store, c: Conn): (i: nat)
    ensures i <= |store|
    ensures i < |store| ==> store[i].conn == c
    ensures forall j :: 0 <= j < i ==> store[j].conn != c
  {
    PositionFrom(store, c, 0)
  }

  /** A copy of the map with `c`'s scope set: in place when `c` is already there. */
  function WithScope(store: Store, c: Conn, scope: Scope): (next: Store) {
    var i := Position(store, c);
    if i < |store| then store[i := Slot(c, scope)] else store + [Slot(c, scope)]
  }

  /** The scope whose transactional instance is `trx`. */
  method FindScopeByTransaction(store: Store, trx: nat) returns (found: Option<Slot>)
    ensures found.Some? ==> exists i :: 0 <= i < |store| && store[i] == found.value && store[i].scope.trx == trx
    ensures found.None? ==> forall i :: 0 <= i < |store| ==> store[i].scope.trx != trx
  {
    for i := 0 to |store|
      invariant forall j :: 0 <= j < i ==> store[j].scope.trx != trx
    {
      if store[i].scope.trx == trx {
        return Some(store[i]);
      }
    }
    return None;
  }

  /** The store describes the open frames: same connections in the same order, level equal to frame count. */
  ghost predicate Describes(store: Store, frames: seq<Conn>) {
    && |store| == |Order(frames)|
    && forall i :: 0 <= i < |store| ==>
         store[i].conn == Order(frames)[i] && store[i].scope.level == Count(frames, store[i].conn)
  }

  /** The scope with the deepest level, the first one on a tie. */
  method GetInnermostTransactionScope(store: Store, ghost frames: seq<Conn>) returns (deepest: Option<Slot>)
    requires Describes(store, frames)
    ensures deepest.None? <==> Innermost(frames).None?
    ensures deepest.Some? ==> deepest.value in store && Innermost(frames) == Some(deepest.value.conn)
  {
    deepest := None;
    for i := 0 to |store|
      invariant deepest.None? <==> Deepest(frames, Order(frames), i).None?
      invariant deepest.Some? ==>
        && deepest.value in store
        && deepest.value.scope.level == Count(frames, deepest.value.conn)
        && Deepest(frames, Order(frames), i) == Some(deepest.value.conn)
    {
      assert Order(frames)[i] == store[i].conn;
      if deepest.None? || store[i].scope.level > deepest.value.scope.level {
        deepest := Some(store[i]);
      }
    }
  }
}

/** What a database does with named savepoints, and the shape the framework's own use of them keeps. */
module Savepoints {
  import opened Text
  import opened TransactionReference

  const PREFIX := "mahi_sp_"

  function SavepointName(level: nat): string { PREFIX + Decimal(level) }

  /** Different levels have different names. */
  lemma SavepointNameInjective(m: nat, n: nat)
    requires SavepointName(m) == SavepointName(n)
    ensures m == n
  {
    assert SavepointName(m)[|PREFIX|..] == Decimal(m) && SavepointName(n)[|PREFIX|..] == Decimal(n);
    DecimalInjective(m, n);
  }

  /** A savepoint on a database's stack.  Commands find it by `name`; `level` records the frame that declared it. */
  datatype Saved = Saved(level: nat, name: string, snapshot: Data)

  function Savepoint(level: nat, data: Data): Saved { Saved(level, SavepointName(level), data) }

  /** The savepoints not called `name`. */
  function Without(saves: seq<Saved>, name: string): seq<Saved> {
    if saves == [] then []
    else (if saves[0].name == name then [] else [saves[0]]) + Without(saves[1..], name)
  }

  /** `savepoint mahi_sp_<level>`; on MySQL (`drops`) it deletes an older savepoint of the same name. */
  function Declare(saves: seq<Saved>, level: nat, data: Data, drops: bool): seq<Saved> {
    (if drops then Without(saves, SavepointName(level)) else saves) + [Savepoint(level, data)]
  }

  /** One past the latest savepoint called `name`, 0 when there is none. */
  function Latest(saves: seq<Saved>, name: string): (n: nat)
    ensures n <= |saves|
    ensures n > 0 ==> saves[n - 1].name == name
    ensures forall j :: n <= j < |saves| ==> saves[j].name != name
  {
    if saves == [] then 0
    else if saves[|saves| - 1].name == name then |saves|
    else Latest(saves[..|saves| - 1], name)
  }

  /**
   * The stack inside a frame at `level`: what was there when the frame began, ending in the frame's own
   * savepoint, then the savepoints failed nested frames left behind, which all have the next level.
   */
  ghost predicate Stacked(saves: seq<Saved>, base: seq<Saved>, level: nat) {
    && base <= saves
    && (forall i :: 0 <= i < |base| ==> saves[i].level <= level)
    && (forall i :: |base| <= i < |saves| ==> saves[i].level == level + 1)
    && (forall i :: 0 <= i < |saves| ==> saves[i].name == SavepointName(saves[i].level))
  }

  /** On MySQL the stale namesakes go, and nothing else does. */
  lemma {:induction false} WithoutStale(base: seq<Saved>, stale: seq<Saved>, level: nat)
    requires Stacked(base + stale, base, level)
    ensures Without(base + stale, SavepointName(level + 1)) == base
  {
    var name, all := SavepointName(level + 1), base + stale;
    if all != [] {
      if all[0].name == name {
        SavepointNameInjective(all[0].level, level + 1);
      }
      if base == [] {
        assert all[0] == stale[0];
        assert all[1..] == [] + stale[1..];
        WithoutStale([], stale[1..], level);
      } else {
        assert all[0] == base[0];
        assert all[1..] == base[1..] + stale;
        WithoutStale(base[1..], stale, level);
      }
    }
  }

  /** The stack a body one below `level` starts from: its own savepoint of `data` on top. */
  ghost predicate Owned(own: seq<Saved>, base: seq<Saved>, level: nat, data: Data) {
    && own != []
    && own[|own| - 1] == Savepoint(level + 1, data)
    && Stacked(own[..|own| - 1], base, level)
    && Stacked(own, base, level)
  }

  /** Declaring the next level's savepoint keeps the frame's stack and starts the nested frame's. */
  lemma DeclareStacked(saves: seq<Saved>, base: seq<Saved>, level: nat, data: Data, drops: bool)
    requires Stacked(saves, base, level)
    ensures
      var own := Declare(saves, level + 1, data, drops);
      Stacked(own, own, level + 1) && Owned(own, base, level, data)
  {
    assert saves == base + saves[|base|..];
    WithoutStale(base, saves[|base|..], level);
    var own := Declare(saves, level + 1, data, drops);
    assert own[..|own| - 1] == if drops then base else saves;
  }

  /** After the body, however many namesakes are on the stack, the latest one is the body's own. */
  lemma LatestIsOwn(saves: seq<Saved>, own: seq<Saved>, base: seq<Saved>, level: nat, data: Data)
    requires Owned(own, base, level, data) && Stacked(saves, own, level + 1)
    ensures Latest(saves, SavepointName(level + 1)) == |own|
    ensures saves[..|own|] == own && saves[|own| - 1].snapshot == data
    ensures saves[..|own| - 1] == own[..|own| - 1]
  {
    assert saves[|own| - 1] == own[|own| - 1];
    forall i | |own| <= i < |saves| ensures saves[i].name != SavepointName(level + 1) {
      if saves[i].name == SavepointName(level + 1) {
        SavepointNameInjective(saves[i].level, level + 1);
      }
    }
  }
}

/** `transaction()` over connections that have a stack of named savepoints. */
module Transaction {
  import opened Text
  import opened TransactionReference
  import opened TransactionContext
  import opened Savepoints

  /**
   * A physical transaction: what rolling all of it back restores, and the database's own stack of
   * savepoints, oldest first.
   */
  datatype OpenTx = OpenTx(trx: nat, durable: Data, saves: seq<Saved>)

  /** What queries on each connection see, the open transactions, and where each transaction was begun. */
  datatype Databases = Databases(data: map<Conn, Data>, open: map<Conn, OpenTx>, begun: seq<Conn>) {

    function View(c: Conn): Data { if c in data then data[c] else map[] }

    function WithSaves(c: Conn, saves: seq<Saved>): Databases
      requires c in open
    {
      this.(open := open[c := open[c].(saves := saves)])
    }
  }

  /** What a caller hands to `transaction()`: a root connection or a transactional instance. */
  datatype Handle = Root(conn: Conn) | Trx(trx: nat)

  // ------------------------------------------------------------- invariant

  /** The store, the open transactions and the frames talk about the same connections and transactions. */
  ghost predicate Linked(store: Store, frames: seq<Conn>, db: Databases) {
    && Describes(store, frames)
    && (forall c :: c in db.open <==> c in frames)
    && (forall i {:trigger SlotLinked(store[i], db)} :: 0 <= i < |store| ==> SlotLinked(store[i], db))
  }

  ghost predicate SlotLinked(slot: Slot, db: Databases) {
    && slot.conn in db.open
    && db.open[slot.conn].trx == slot.scope.trx < |db.begun|
    && db.begun[slot.scope.trx] == slot.conn
    && slot.scope.deferred.conn == slot.conn
  }

  ghost predicate AllStacked(db: Databases, frames: seq<Conn>, bases: map<Conn, seq<Saved>>) {
    forall c {:trigger StackedAt(db, frames, bases, c)} :: c in frames ==> StackedAt(db, frames, bases, c)
  }

  ghost predicate StackedAt(db: Databases, frames: seq<Conn>, bases: map<Conn, seq<Saved>>, c: Conn) {
    c in db.open && c in bases && Stacked(db.open[c].saves, bases[c], Count(frames, c))
  }

  ghost predicate Settled(store: Store, frames: seq<Conn>, db: Databases, bases: map<Conn, seq<Saved>>, w: World) {
    Linked(store, frames, db) && AllStacked(db, frames, bases) && db.data == w.data
  }

  /** Each registry holds exactly the surviving entries of its transaction, in order. */
  ghost predicate Queued(store: Store, w: World)
    reads Registries(store)
  {
    forall i {:trigger QueuedAt(store[i], w)} :: 0 <= i < |store| ==> QueuedAt(store[i], w)
  }

  ghost predicate QueuedAt(slot: Slot, w: World)
    reads slot.scope.deferred
  {
    && slot.scope.deferred.commit == Survivors(w.EventsOf(slot.conn), OnCommit)
    && slot.scope.deferred.rollback == Survivors(w.EventsOf(slot.conn), OnRollback)
  }

  // ------------------------------------------------------- steps on values

  lemma StoreIndex(store: Store, frames: seq<Conn>, c: Conn)
    requires Describes(store, frames)
    ensures c in frames <==> Position(store, c) < |store|
    ensures forall i :: 0 <= i < |store| && store[i].conn == c ==> i == Position(store, c)
    ensures c in frames ==> store[Position(store, c)].scope.level == Count(frames, c)
  {
    var order := Order(frames);
    OrderDistinct(frames);
    OrderMembers(frames, c);
    if c in order {
      var k :| 0 <= k < |order| && order[k] == c;
      assert store[k].conn == c;
    }
  }

  lemma ScopeLevel(store: Store, frames: seq<Conn>, slot: Slot)
    requires Describes(store, frames) && slot in store
    ensures slot.conn in frames && slot.scope.level == Count(frames, slot.conn)
    ensures Position(store, slot.conn) < |store| && store[Position(store, slot.conn)] == slot
  {
    var i :| 0 <= i < |store| && store[i] == slot;
    assert Order(frames)[i] == slot.conn;
    OrderMembers(frames, slot.conn);
    StoreIndex(store, frames, slot.conn);
  }

  lemma InnerDescribes(store: Store, frames: seq<Conn>, c: Conn, inner: Scope)
    requires Describes(store, frames)
    requires inner.level == Count(frames, c) + 1
    ensures Describes(WithScope(store, c, inner), frames + [c])
    ensures c in frames <==> Position(store, c) < |store|
    ensures c in frames ==> WithScope(store, c, inner) == store[Position(store, c) := Slot(c, inner)]
    ensures c !in frames ==> WithScope(store, c, inner) == store + [Slot(c, inner)]
  {
    OrderPush(frames, c);
    StoreIndex(store, frames, c);
    var next := WithScope(store, c, inner);
    forall j | 0 <= j < |next| ensures next[j].scope.level == Count(frames + [c], next[j].conn) {
      CountPush(frames, c, next[j].conn);
    }
  }

  /** `store` with the scope of one slot a level deeper. */
  function Deeper(store: Store, slot: Slot): Store {
    WithScope(store, slot.conn, slot.scope.(level := slot.scope.level + 1))
  }

  lemma DeeperIsInPlace(store: Store, frames: seq<Conn>, slot: Slot)
    requires Describes(store, frames) && slot in store
    ensures
      var inner := Deeper(store, slot);
      && Describes(inner, frames + [slot.conn])
      && |inner| == |store|
      && forall i :: 0 <= i < |store| ==>
           && inner[i].conn == store[i].conn
           && inner[i].scope.deferred == store[i].scope.deferred
           && inner[i].scope.trx == store[i].scope.trx
  {
    ScopeLevel(store, frames, slot);
    InnerDescribes(store, frames, slot.conn, slot.scope.(level := slot.scope.level + 1));
  }

  lemma EnterLinked(store: Store, frames: seq<Conn>, db: Databases, slot: Slot, saves: seq<Saved>)
    requires Linked(store, frames, db) && slot in store && slot.conn in db.open
    ensures Linked(Deeper(store, slot), frames + [slot.conn], db.WithSaves(slot.conn, saves))
  {
    ScopeLevel(store, frames, slot);
    DeeperIsInPlace(store, frames, slot);
    forall i | 0 <= i < |store| ensures SlotLinked(Deeper(store, slot)[i], db.WithSaves(slot.conn, saves)) {
      assert SlotLinked(store[i], db);
    }
  }

  lemma LeaveLinked(store: Store, frames: seq<Conn>, db: Databases, slot: Slot, saves: seq<Saved>, data: map<Conn,
                    Data>)
    requires Describes(store, frames) && slot in store && slot.conn in db.open
    requires Linked(Deeper(store, slot), frames + [slot.conn], db)
    ensures Linked(store, frames, db.WithSaves(slot.conn, saves).(data := data))
  {
    ScopeLevel(store, frames, slot);
    DeeperIsInPlace(store, frames, slot);
    forall i | 0 <= i < |store| ensures SlotLinked(store[i], db.WithSaves(slot.conn, saves).(data := data)) {
      assert SlotLinked(Deeper(store, slot)[i], db);
    }
  }

  function Begun(db: Databases, c: Conn): Databases {
    db.(open := db.open[c := OpenTx(|db.begun|, db.View(c), [])], begun := db.begun + [c])
  }

  lemma BeginLinked(store: Store, frames: seq<Conn>, db: Databases, slot: Slot)
    requires Linked(store, frames, db) && slot.conn !in frames
    requires slot.scope.trx == |db.begun| && slot.scope.level == 1 && slot.scope.deferred.conn == slot.conn
    ensures WithScope(store, slot.conn, slot.scope) == store + [slot]
    ensures Linked(store + [slot], frames + [slot.conn], Begun(db, slot.conn))
  {
    InnerDescribes(store, frames, slot.conn, slot.scope);
    var inner := store + [slot];
    forall i | 0 <= i < |inner| ensures SlotLinked(inner[i], Begun(db, slot.conn)) {
      if i < |store| {
        assert inner[i] == store[i] && SlotLinked(store[i], db);
        assert store[i].conn in frames;
      }
    }
  }

  function Ended(db: Databases, c: Conn, commit: bool): Databases
    requires c in db.open
  {
    db.(open := db.open - {c}, data := if commit then db.data else db.data[c := db.open[c].durable])
  }

  lemma EndLinked(store: Store, frames: seq<Conn>, db: Databases, slot: Slot, commit: bool)
    requires Describes(store, frames) && slot.conn !in frames && slot.conn in db.open
    requires Linked(store + [slot], frames + [slot.conn], db)
    ensures Linked(store, frames, Ended(db, slot.conn, commit))
  {
    var inner := store + [slot];
    forall i | 0 <= i < |store| ensures SlotLinked(store[i], Ended(db, slot.conn, commit)) {
      assert inner[i] == store[i] && SlotLinked(inner[i], db);
      OrderMembers(frames, store[i].conn);
      assert store[i].conn in Order(frames);
    }
  }

  lemma EnterStacked(db: Databases, frames: seq<Conn>, bases: map<Conn, seq<Saved>>, c: Conn, own: seq<Saved>,
                     db': Databases)
    requires AllStacked(db, frames, bases) && Stacked(own, own, Count(frames, c) + 1)
    requires c in db'.open && db'.open[c].saves == own
    requires db'.open - {c} == db.open - {c}
    ensures AllStacked(db', frames + [c], bases[c := own])
  {
    forall d | d in frames + [c] ensures StackedAt(db', frames + [c], bases[c := own], d) {
      CountPush(frames, c, d);
      assert d in frames ==> StackedAt(db, frames, bases, d);
      assert d != c ==> d in db.open - {c} && d in db'.open - {c};
    }
  }

  lemma LeaveStacked(db: Databases, frames: seq<Conn>, bases: map<Conn, seq<Saved>>, c: Conn, own: seq<Saved>,
                     db': Databases)
    requires AllStacked(db, frames + [c], bases[c := own])
    requires db'.open - {c} == db.open - {c}
    requires c in frames ==> StackedAt(db', frames, bases, c)
    ensures AllStacked(db', frames, bases)
  {
    forall d | d in frames ensures StackedAt(db', frames, bases, d) {
      CountPush(frames, c, d);
      assert StackedAt(db, frames + [c], bases[c := own], d);
      assert d != c ==> d in db.open - {c} && d in db'.open - {c};
    }
  }

  lemma RegisterSurvives(events: seq<Event>, queue: Queue, entry: Entry)
    ensures Survivors(events + [Registered(queue, entry)], OnCommit)
         == Survivors(events, OnCommit) + if queue.OnCommit? then [entry] else []
    ensures Survivors(events + [Registered(queue, entry)], OnRollback)
         == Survivors(events, OnRollback) + if queue.OnRollback? then [entry] else []
  {
    SurvivorsRegister(events, OnCommit, Registered(queue, entry), 0);
    SurvivorsRegister(events, OnRollback, Registered(queue, entry), 0);
  }

  /** Rolling back all of a transaction open before and after would restore the same data. */
  ghost predicate SameDurable(before: Databases, after: Databases) {
    forall c :: c in before.open && c in after.open ==> after.open[c].durable == before.open[c].durable
  }

  lemma DurableTrans(a: Databases, b: Databases, d: Databases)
    requires SameDurable(a, b) && SameDurable(b, d) && a.open.Keys * d.open.Keys <= b.open.Keys
    ensures SameDurable(a, d)
  {
    forall c | c in a.open && c in d.open ensures d.open[c].durable == a.open[c].durable {
      assert c in a.open.Keys * d.open.Keys;
    }
  }

  lemma OwnIsLatest(db: Databases, frames: seq<Conn>, bases: map<Conn, seq<Saved>>, c: Conn, own: seq<Saved>,
                    data: Data)
    requires AllStacked(db, frames + [c], bases[c := own]) && c in bases
    requires Owned(own, bases[c], Count(frames, c), data)
    ensures c in db.open
    ensures
      var saves := db.open[c].saves;
      && Latest(saves, SavepointName(Count(frames, c) + 1)) == |own|
      && saves[..|own|] == own && saves[|own| - 1].snapshot == data
      && saves[..|own| - 1] == own[..|own| - 1]
  {
    CountPush(frames, c, c);
    assert StackedAt(db, frames + [c], bases[c := own], c);
    LatestIsOwn(db.open[c].saves, own, bases[c], Count(frames, c), data);
  }

  lemma EnterStep(store: Store, frames: seq<Conn>, db: Databases, bases: map<Conn, seq<Saved>>, w: World, slot: Slot,
                  drops: bool)
    returns (own: seq<Saved>)
    requires Settled(store, frames, db, bases, w) && slot in store
    ensures slot.conn in db.open && slot.conn in bases
    ensures own == Declare(db.open[slot.conn].saves, slot.scope.level + 1, db.View(slot.conn), drops)
    ensures Settled(Deeper(store, slot), frames + [slot.conn], db.WithSaves(slot.conn, own), bases[slot.conn := own], w)
    ensures Owned(own, bases[slot.conn], Count(frames, slot.conn), w.DataOf(slot.conn))
  {
    var c := slot.conn;
    ScopeLevel(store, frames, slot);
    assert StackedAt(db, frames, bases, c);
    own := Declare(db.open[c].saves, slot.scope.level + 1, db.View(c), drops);
    DeclareStacked(db.open[c].saves, bases[c], slot.scope.level, db.View(c), drops);
    EnterLinked(store, frames, db, slot, own);
    EnterStacked(db, frames, bases, c, own, db.WithSaves(c, own));
  }

  /** What leaving a nested body does to its connection: its own savepoint gone, or still there after a rollback. */
  lemma LeaveStep(store: Store, frames: seq<Conn>, db: Databases, bases: map<Conn, seq<Saved>>, w: World, slot: Slot,
                  own: seq<Saved>, before: Data, saves: seq<Saved>, w': World)
    requires Describes(store, frames) && slot in store && slot.conn in bases
    requires Settled(Deeper(store, slot), frames + [slot.conn], db, bases[slot.conn := own], w)
    requires Owned(own, bases[slot.conn], Count(frames, slot.conn), before)
    requires saves == own || saves == own[..|own| - 1]
    ensures slot.conn in db.open
    ensures Settled(store, frames, db.WithSaves(slot.conn, saves).(data := w'.data), bases, w')
    ensures
      var stack := db.open[slot.conn].saves;
      && Latest(stack, SavepointName(slot.scope.level + 1)) == |own|
      && stack[..|own|] == own && stack[|own| - 1].snapshot == before
      && stack[..|own| - 1] == own[..|own| - 1]
  {
    var c := slot.conn;
    ScopeLevel(store, frames, slot);
    assert c in frames + [c];
    OwnIsLatest(db, frames, bases, c, own, before);
    LeaveLinked(store, frames, db, slot, saves, w'.data);
    var db' := db.WithSaves(c, saves).(data := w'.data);
    assert db'.open - {c} == db.open - {c} && StackedAt(db', frames, bases, c);
    LeaveStacked(db, frames, bases, c, own, db.WithSaves(c, saves).(data := w'.data));
  }

  /** `release savepoint`: forgets the latest savepoint of that name and everything after it. */
  function Released(db: Databases, c: Conn, name: string): Databases
    requires c in db.open && Latest(db.open[c].saves, name) > 0
  {
    db.WithSaves(c, db.open[c].saves[..Latest(db.open[c].saves, name) - 1])
  }

  /** `rollback to savepoint`: restores the latest one of that name and leaves it on the stack. */
  function RolledBackTo(db: Databases, c: Conn, name: string): Databases
    requires c in db.open && Latest(db.open[c].saves, name) > 0
  {
    var saves := db.open[c].saves;
    var n := Latest(saves, name);
    db.WithSaves(c, saves[..n]).(data := db.data[c := saves[n - 1].snapshot])
  }

  lemma ReleaseStep(store: Store, frames: seq<Conn>, db: Databases, bases: map<Conn, seq<Saved>>, w: World, slot: Slot,
                    own: seq<Saved>, before: Data)
    requires Describes(store, frames) && slot in store && slot.conn in bases
    requires Settled(Deeper(store, slot), frames + [slot.conn], db, bases[slot.conn := own], w)
    requires Owned(own, bases[slot.conn], Count(frames, slot.conn), before)
    ensures slot.conn in db.open && Latest(db.open[slot.conn].saves, SavepointName(slot.scope.level + 1)) > 0
    ensures Settled(store, frames, Released(db, slot.conn, SavepointName(slot.scope.level + 1)), bases, w)
    ensures SameDurable(db, Released(db, slot.conn, SavepointName(slot.scope.level + 1)))
  {
    LeaveStep(store, frames, db, bases, w, slot, own, before, own[..|own| - 1], w);
  }

  lemma RollbackStep(store: Store, frames: seq<Conn>, db: Databases, bases: map<Conn, seq<Saved>>, w: World, slot: Slot,
                     own: seq<Saved>, before: Data, w': World)
    requires Describes(store, frames) && slot in store && slot.conn in bases
    requires Settled(Deeper(store, slot), frames + [slot.conn], db, bases[slot.conn := own], w)
    requires Owned(own, bases[slot.conn], Count(frames, slot.conn), before)
    requires w'.data == w.data[slot.conn := before]
    ensures slot.conn in db.open && Latest(db.open[slot.conn].saves, SavepointName(slot.scope.level + 1)) > 0
    ensures Settled(store, frames, RolledBackTo(db, slot.conn, SavepointName(slot.scope.level + 1)), bases, w')
    ensures SameDurable(db, RolledBackTo(db, slot.conn, SavepointName(slot.scope.level + 1)))
  {
    LeaveStep(store, frames, db, bases, w, slot, own, before, own, w');
  }

  lemma BeginStep(store: Store, frames: seq<Conn>, db: Databases, bases: map<Conn, seq<Saved>>, w: World, slot: Slot,
                  w': World)
    requires Settled(store, frames, db, bases, w) && slot.conn !in frames
    requires slot.scope.trx == |db.begun| && slot.scope.level == 1 && slot.scope.deferred.conn == slot.conn
    requires w'.data == w.data
    ensures WithScope(store, slot.conn, slot.scope) == store + [slot]
    ensures Settled(store + [slot], frames + [slot.conn], Begun(db, slot.conn), bases[slot.conn := []], w')
  {
    BeginLinked(store, frames, db, slot);
    EnterStacked(db, frames, bases, slot.conn, [], Begun(db, slot.conn));
  }

  lemma EndStep(store: Store, frames: seq<Conn>, db: Databases, bases: map<Conn, seq<Saved>>, w: World, slot: Slot,
                commit: bool, w': World)
    requires Describes(store, frames) && slot.conn !in frames && slot.conn in db.open
    requires Settled(store + [slot], frames + [slot.conn], db, bases[slot.conn := []], w)
    requires w'.data == if commit then w.data else w.data[slot.conn := db.open[slot.conn].durable]
    ensures Settled(store, frames, Ended(db, slot.conn, commit), bases, w')
  {
    EndLinked(store, frames, db, slot, commit);
    assert (db.open - {slot.conn}) - {slot.conn} == db.open - {slot.conn};
    LeaveStacked(db, frames, bases, slot.conn, [], Ended(db, slot.conn, commit));
  }

  lemma WriteStep(store: Store, frames: seq<Conn>, db: Databases, bases: map<Conn, seq<Saved>>, w: World, w': World)
    requires Settled(store, frames, db, bases, w)
    ensures Settled(store, frames, db.(data := w'.data), bases, w')
  {
    var db' := db.(data := w'.data);
    forall i | 0 <= i < |store| ensures SlotLinked(store[i], db') { assert SlotLinked(store[i], db); }
    forall c | c in frames ensures StackedAt(db', frames, bases, c) { assert StackedAt(db, frames, bases, c); }
  }

  lemma SameEvents(store: Store, w: World, w': World)
    requires Queued(store, w) && w'.events == w.events
    ensures Queued(store, w')
  {
    forall i | 0 <= i < |store| ensures QueuedAt(store[i], w') { assert QueuedAt(store[i], w); }
  }

  lemma RegistriesSnoc(store: Store, slot: Slot)
    ensures Registries(store + [slot]) == Registries(store) + {slot.scope.deferred}
  {
    var inner := store + [slot];
    assert inner[|store|] == slot;
    forall r: object | r in Registries(store) ensures r in Registries(inner) {
      var i :| 0 <= i < |store| && r == store[i].scope.deferred;
      assert inner[i] == store[i];
    }
  }

  lemma QueuedSnoc(store: Store, frames: seq<Conn>, slot: Slot, w: World, w': World)
    requires Describes(store, frames) && slot.conn !in frames && Queued(store, w)
    requires w'.events == w.events[slot.conn := []]
    requires slot.scope.deferred.commit == [] && slot.scope.deferred.rollback == []
    ensures Queued(store + [slot], w')
  {
    var inner := store + [slot];
    forall i | 0 <= i < |inner| ensures QueuedAt(inner[i], w') {
      if i < |store| {
        assert inner[i] == store[i] && QueuedAt(store[i], w);
        OrderMembers(frames, store[i].conn);
        assert Order(frames)[i] == store[i].conn;
      }
    }
  }

  lemma QueuedInit(store: Store, slot: Slot, w: World)
    requires Queued(store + [slot], w)
    ensures Queued(store, w) && QueuedAt(slot, w)
  {
    var inner := store + [slot];
    assert inner[|store|] == slot && QueuedAt(inner[|store|], w);
    forall i | 0 <= i < |store| ensures QueuedAt(store[i], w) {
      assert inner[i] == store[i] && QueuedAt(inner[i], w);
    }
  }

  /** Every scope but `slot`'s has its registry in order. */
  ghost predicate QueuedBut(store: Store, slot: Slot, w: World)
    reads Registries(store) - {slot.scope.deferred}
  {
    forall i :: 0 <= i < |store| && store[i].scope.deferred != slot.scope.deferred ==>
      store[i].scope.deferred in Registries(store) && QueuedAt(store[i], w)
  }

  lemma QueuedSplit(store: Store, frames: seq<Conn>, db: Databases, slot: Slot, w: World)
    requires Queued(store, w) && Linked(store, frames, db) && slot in store
    ensures slot.scope.deferred in Registries(store)
    ensures QueuedAt(slot, w) && QueuedBut(store, slot, w)
  {
    ScopeLevel(store, frames, slot);
    assert QueuedAt(store[Position(store, slot.conn)], w);
    forall i | 0 <= i < |store| ensures QueuedAt(store[i], w) { }
  }

  lemma QueuedJoin(store: Store, frames: seq<Conn>, db: Databases, slot: Slot, w: World, w': World)
    requires QueuedBut(store, slot, w) && QueuedAt(slot, w') && Linked(store, frames, db) && slot in store
    requires w'.events - {slot.conn} == w.events - {slot.conn}
    ensures Queued(store, w')
  {
    ScopeLevel(store, frames, slot);
    StoreIndex(store, frames, slot.conn);
    forall i | 0 <= i < |store| ensures QueuedAt(store[i], w') {
      assert SlotLinked(store[i], db) && SlotLinked(slot, db);
      var c := store[i].conn;
      if c != slot.conn {
        assert c in w.events <==> c in w.events - {slot.conn};
        assert c in w'.events <==> c in w'.events - {slot.conn};
        assert w'.EventsOf(c) == w.EventsOf(c);
      }
    }
  }

  lemma SameRegistries(store: Store, frames: seq<Conn>, slot: Slot, w: World)
    requires Describes(store, frames) && slot in store
    ensures Registries(Deeper(store, slot)) == Registries(store)
    ensures Queued(store, w) <==> Queued(Deeper(store, slot), w)
  {
    DeeperIsInPlace(store, frames, slot);
    var inner := Deeper(store, slot);
    forall i | 0 <= i < |store| ensures QueuedAt(store[i], w) <==> QueuedAt(inner[i], w) {
      assert inner[i].conn == store[i].conn;
    }
    if Queued(store, w) {
      forall i | 0 <= i < |inner| ensures QueuedAt(inner[i], w) { assert QueuedAt(store[i], w); }
    }
    if Queued(inner, w) {
      forall i | 0 <= i < |store| ensures QueuedAt(store[i], w) { assert QueuedAt(inner[i], w); }
    }
    forall r: object ensures r in Registries(inner) <==> r in Registries(store) {
      if r in Registries(inner) {
        var i :| 0 <= i < |inner| && r == inner[i].scope.deferred;
        assert store[i].scope.deferred == r;
      }
      if r in Registries(store) {
        var i :| 0 <= i < |store| && r == store[i].scope.deferred;
        assert inner[i].scope.deferred == r;
      }
    }
  }

  /** The callbacks that throw, in order. */
  function Throwing(callbacks: seq<Callback>): (throwing: seq<Callback>)
    ensures forall c :: c in throwing <==> c in callbacks && c.throws
  {
    if callbacks == [] then []
    else
      var last := callbacks[|callbacks| - 1];
      Throwing(callbacks[..|callbacks| - 1]) + if last.throws then [last] else []
  }

  class Session {
    /** Whether declaring a savepoint deletes an older one of the same name (MySQL) or shadows it. */
    const dropsNamesakes: bool
    var db: Databases
    var ran: seq<Callback>
    /** Callbacks whose exception was logged instead of propagated. */
    var reported: seq<Callback>
    /** What queries on each connection saw when a program last came to its end. */
    ghost var seen: map<Conn, Data>

    constructor (mysql: bool)
      ensures dropsNamesakes == mysql && ran == [] && Settled([], [], db, map[], World(map[], map[], map[], []))
    {
      dropsNamesakes, db, ran, reported, seen := mysql, Databases(map[], map[], []), [], [], map[];
    }

    // ------------------------------------------------------------- database

    method SavepointCommand(c: Conn, level: nat)
      requires c in db.open
      modifies this`db
      ensures db == old(db).WithSaves(c, Declare(old(db).open[c].saves, level, old(db).View(c), dropsNamesakes))
    {
      db := db.WithSaves(c, Declare(db.open[c].saves, level, db.View(c), dropsNamesakes));
    }

    method ReleaseCommand(c: Conn, name: string)
      requires c in db.open && Latest(db.open[c].saves, name) > 0
      modifies this`db
      ensures db == Released(old(db), c, name)
    {
      db := Released(db, c, name);
    }

    method RollbackToCommand(c: Conn, name: string)
      requires c in db.open && Latest(db.open[c].saves, name) > 0
      modifies this`db
      ensures db == RolledBackTo(old(db), c, name)
    {
      db := RolledBackTo(db, c, name);
    }

    // ---------------------------------------------------- nested, by savepoint

    /** Declares the savepoint of a body one level below `slot`; `own` is the stack it leaves. */
    method EnterSavepoint(slot: Slot, store: Store,
                          ghost frames: seq<Conn>, ghost bases: map<Conn, seq<Saved>>, ghost w: World)
      returns (inner: Store, ghost own: seq<Saved>)
      requires Settled(store, frames, db, bases, w) && Queued(store, w) && ran == w.ran && slot in store
      modifies this`db
      ensures inner == Deeper(store, slot) && Registries(inner) == Registries(store)
      ensures Settled(inner, frames + [slot.conn], db, bases[slot.conn := own], w) && Queued(inner, w) && ran == w.ran
      ensures slot.conn in bases && Owned(own, bases[slot.conn], Count(frames, slot.conn), w.DataOf(slot.conn))
      ensures SameDurable(old(db), db)
    {
      own := EnterStep(store, frames, db, bases, w, slot, dropsNamesakes);
      SameRegistries(store, frames, slot, w);
      SavepointCommand(slot.conn, slot.scope.level + 1);
      inner := Deeper(store, slot);
    }

    /** Releases the savepoint of a body that returned; rolls back to that of one that threw. */
    method LeaveSavepoint(ok: bool, slot: Slot, store: Store, ghost own: seq<Saved>,
                          ghost frames: seq<Conn>, ghost bases: map<Conn, seq<Saved>>, ghost w: World, ghost r: Outcome)
      requires Describes(store, frames) && slot in store && slot.conn in bases && ok == r.ok
      requires Settled(Deeper(store, slot), frames + [slot.conn], db, bases[slot.conn := own], r.world)
      requires Queued(Deeper(store, slot), r.world) && ran == r.world.ran
      requires Owned(own, bases[slot.conn], Count(frames, slot.conn), w.DataOf(slot.conn))
      modifies this`db, slot.scope.deferred
      ensures Settled(store, frames, db, bases, NestedEnd(slot.conn, slot.scope.level + 1, w, r))
      ensures Queued(store, NestedEnd(slot.conn, slot.scope.level + 1, w, r))
      ensures ran == NestedEnd(slot.conn, slot.scope.level + 1, w, r).ran
      ensures if ok then db.data == old(db.data) else db.View(slot.conn) == w.DataOf(slot.conn)
      ensures SameDurable(old(db), db)
    {
      if ok {
        ReleaseOwn(slot, store, own, frames, bases, w, r.world);
      } else {
        RollBackOwn(slot, store, own, frames, bases, w, r.world);
      }
    }

    method ReleaseOwn(slot: Slot, store: Store, ghost own: seq<Saved>,
                      ghost frames: seq<Conn>, ghost bases: map<Conn, seq<Saved>>, ghost w: World, ghost after: World)
      requires Describes(store, frames) && slot in store && slot.conn in bases
      requires Settled(Deeper(store, slot), frames + [slot.conn], db, bases[slot.conn := own], after)
      requires Queued(Deeper(store, slot), after)
      requires Owned(own, bases[slot.conn], Count(frames, slot.conn), w.DataOf(slot.conn))
      modifies this`db
      ensures Settled(store, frames, db, bases, after) && Queued(store, after)
      ensures SameDurable(old(db), db)
    {
      SameRegistries(store, frames, slot, after);
      ReleaseStep(store, frames, db, bases, after, slot, own, w.DataOf(slot.conn));
      ReleaseCommand(slot.conn, SavepointName(slot.scope.level + 1));
    }

    method RollBackOwn(slot: Slot, store: Store, ghost own: seq<Saved>,
                       ghost frames: seq<Conn>, ghost bases: map<Conn, seq<Saved>>, ghost w: World, ghost after: World)
      requires Describes(store, frames) && slot in store && slot.conn in bases
      requires Settled(Deeper(store, slot), frames + [slot.conn], db, bases[slot.conn := own], after)
      requires Queued(Deeper(store, slot), after)
      requires Owned(own, bases[slot.conn], Count(frames, slot.conn), w.DataOf(slot.conn))
      modifies this`db, slot.scope.deferred
      ensures Settled(store, frames, db, bases, NestedFailure(slot.conn, slot.scope.level + 1, w, after))
      ensures Queued(store, NestedFailure(slot.conn, slot.scope.level + 1, w, after))
      ensures SameDurable(old(db), db)
    {
      ghost var w' := NestedFailure(slot.conn, slot.scope.level + 1, w, after);
      SameRegistries(store, frames, slot, after);
      RollbackStep(store, frames, db, bases, after, slot, own, w.DataOf(slot.conn), w');
      RollbackToCommand(slot.conn, SavepointName(slot.scope.level + 1));
      DiscardQueued(slot, store, frames, after, w');
    }

    /** Drops what the rolled-back savepoint registered. */
    method DiscardQueued(slot: Slot, store: Store, ghost frames: seq<Conn>, ghost w: World, ghost w': World)
      requires Linked(store, frames, db) && slot in store && Queued(store, w)
      requires w'.events == w.events[slot.conn := w.EventsOf(slot.conn) + [RolledBack(slot.scope.level + 1)]]
      modifies slot.scope.deferred
      ensures Queued(store, w')
    {
      ScopeLevel(store, frames, slot);
      ghost var level := slot.scope.level + 1;
      SurvivorsRollback(w.EventsOf(slot.conn), OnCommit, level, 0);
      SurvivorsRollback(w.EventsOf(slot.conn), OnRollback, level, 0);
      QueuedSplit(store, frames, db, slot, w);
      slot.scope.deferred.DiscardFrom(slot.scope.level + 1);
      QueuedJoin(store, frames, db, slot, w, w');
    }

    // --------------------------------------------- outermost, by transaction

    method Begin(c: Conn, store: Store, ghost frames: seq<Conn>, ghost bases: map<Conn, seq<Saved>>, ghost w: World,
                 ghost w': World)
      returns (inner: Store, deferred: DeferredCallbacks)
      requires Settled(store, frames, db, bases, w) && Queued(store, w) && ran == w.ran && c !in frames
      requires w' == OutermostStart(c, w)
      modifies this`db
      ensures c in db.open && db.open[c].durable == w.DataOf(c)
      ensures fresh(deferred) && inner == store + [Slot(c, Scope(|old(db).begun|, 1, deferred))]
      ensures Registries(inner) == Registries(store) + {deferred}
      ensures Settled(inner, frames + [c], db, bases[c := []], w') && Queued(inner, w') && ran == w'.ran
      ensures SameDurable(old(db), db)
    {
      deferred := new DeferredCallbacks(c);
      var slot := Slot(c, Scope(|db.begun|, 1, deferred));
      BeginStep(store, frames, db, bases, w, slot, w');
      RegistriesSnoc(store, slot);
      QueuedSnoc(store, frames, slot, w, w');
      inner := WithScope(store, c, slot.scope);
      db := Begun(db, c);
    }

    /** Runs every callback in order; one that throws is logged and the rest still run. */
    method Drain(callbacks: seq<Callback>)
      modifies this`ran, this`reported
      ensures ran == old(ran) + callbacks
      ensures reported == old(reported) + Throwing(callbacks)
    {
      for i := 0 to |callbacks|
        invariant ran == old(ran) + callbacks[..i]
        invariant reported == old(reported) + Throwing(callbacks[..i])
      {
        assert callbacks[..i + 1][..i] == callbacks[..i];
        ran := ran + [callbacks[i]];
        if callbacks[i].throws {
          reported := reported + [callbacks[i]];
        }
      }
      assert callbacks[..|callbacks|] == callbacks;
    }

    /** Commits or rolls back the transaction `Begin` opened, then drains the matching queue of callbacks. */
    method End(ok: bool, slot: Slot, store: Store,
               ghost frames: seq<Conn>, ghost bases: map<Conn, seq<Saved>>, ghost w: World, ghost r: Outcome)
      requires Describes(store, frames) && slot.conn !in frames && slot.conn in db.open && ok == r.ok
      requires Settled(store + [slot], frames + [slot.conn], db, bases[slot.conn := []], r.world)
      requires Queued(store + [slot], r.world) && ran == r.world.ran
      requires db.open[slot.conn].durable == w.DataOf(slot.conn)
      requires slot.scope.deferred !in Registries(store)
      modifies this`db, this`ran, this`reported, slot.scope.deferred
      ensures Settled(store, frames, db, bases, OutermostEnd(slot.conn, w, r))
      ensures Queued(store, OutermostEnd(slot.conn, w, r)) && ran == OutermostEnd(slot.conn, w, r).ran
      ensures if ok then db.data == old(db.data) else db.View(slot.conn) == w.DataOf(slot.conn)
      ensures SameDurable(old(db), db)
    {
      EndStep(store, frames, db, bases, r.world, slot, ok, OutermostEnd(slot.conn, w, r));
      QueuedInit(store, slot, r.world);
      SameEvents(store, r.world, OutermostEnd(slot.conn, w, r));
      db := Ended(db, slot.conn, ok);
      var callbacks := [];
      if ok {
        callbacks := slot.scope.deferred.TakeCommit();
      } else {
        callbacks := slot.scope.deferred.TakeRollback();
        var _ := slot.scope.deferred.TakeCommit();
      }
      Drain(callbacks);
    }

    // ------------------------------------------------------------ transaction()

    /** `transaction(handle, body)`: nested when `handle` is a root or a transactional instance with an open scope. */
    method Transaction(handle: Handle, ghost c: Conn, body: Prog, store: Store,
                       ghost frames: seq<Conn>, ghost bases: map<Conn, seq<Saved>>, ghost w: World)
      returns (ok: bool)
      requires Settled(store, frames, db, bases, w) && Queued(store, w) && ran == w.ran
      requires handle.Root? ==> handle.conn == c
      requires handle.Trx? ==> c in db.open && db.open[c].trx == handle.trx
      modifies this, Registries(store)
      ensures Settled(store, frames, db, bases, RefTransaction(c, body, frames, w).world)
      ensures Queued(store, RefTransaction(c, body, frames, w).world)
      ensures ran == RefTransaction(c, body, frames, w).world.ran
      ensures ok == RefTransaction(c, body, frames, w).ok
      ensures !ok ==> db.View(c) == old(db.View(c))
      ensures ok ==> db.data == seen
      ensures SameDurable(old(db), db)
      decreases body, 4
    {
      StoreIndex(store, frames, c);
      match handle
      case Root(conn) =>
        var i := Position(store, conn);
        if i < |store| {
          ok := WithSavepoint(store[i], body, store, frames, bases, w);
        } else {
          ok := Outermost(conn, body, store, frames, bases, w);
        }
      case Trx(trx) =>
        assert SlotLinked(store[Position(store, c)], db);
        var byTrx := FindScopeByTransaction(store, trx);
        assert byTrx.Some? && SlotLinked(byTrx.value, db);
        ok := WithSavepoint(byTrx.value, body, store, frames, bases, w);
    }

    /** Runs `body` inside a savepoint one level below `slot`. */
    method WithSavepoint(slot: Slot, body: Prog, store: Store,
                         ghost frames: seq<Conn>, ghost bases: map<Conn, seq<Saved>>, ghost w: World)
      returns (ok: bool)
      requires Settled(store, frames, db, bases, w) && Queued(store, w) && ran == w.ran && slot in store
      modifies this, Registries(store)
      ensures Settled(store, frames, db, bases, RefTransaction(slot.conn, body, frames, w).world)
      ensures Queued(store, RefTransaction(slot.conn, body, frames, w).world)
      ensures ran == RefTransaction(slot.conn, body, frames, w).world.ran
      ensures ok == RefTransaction(slot.conn, body, frames, w).ok
      ensures !ok ==> db.View(slot.conn) == old(db.View(slot.conn))
      ensures ok ==> db.data == seen
      ensures SameDurable(old(db), db)
      decreases body, 2
    {
      ghost var c := slot.conn;
      ScopeLevel(store, frames, slot);
      var inner, own := EnterSavepoint(slot, store, frames, bases, w);
      ghost var entered := db;
      ok := Run(body, inner, frames + [c], bases[c := own], w);
      DurableTrans(old(db), entered, db);
      ghost var left := db;
      ghost var r := Ref(body, frames + [c], w);
      LeaveSavepoint(ok, slot, store, own, frames, bases, w, r);
      DurableTrans(old(db), left, db);
    }

    /** Begins a physical transaction and runs `body` in its scope, `slot`. */
    method RunOpened(c: Conn, body: Prog, store: Store,
                     ghost frames: seq<Conn>, ghost bases: map<Conn, seq<Saved>>, ghost w: World)
      returns (ok: bool, slot: Slot)
      requires Settled(store, frames, db, bases, w) && Queued(store, w) && ran == w.ran && c !in frames
      modifies this, Registries(store)
      ensures slot.conn == c && fresh(slot.scope.deferred) && c in db.open && db.open[c].durable == w.DataOf(c)
      ensures
        var r := Ref(body, frames + [c], OutermostStart(c, w));
        && Settled(store + [slot], frames + [c], db, bases[c := []], r.world)
        && Queued(store + [slot], r.world) && ran == r.world.ran && ok == r.ok
      ensures ok ==> db.data == seen
      ensures SameDurable(old(db), db)
      decreases body, 2
    {
      ghost var w1 := OutermostStart(c, w);
      var inner, deferred := Begin(c, store, frames, bases, w, w1);
      ghost var begun := db;
      ok := Run(body, inner, frames + [c], bases[c := []], w1);
      DurableTrans(old(db), begun, db);
      assert c in frames + [c];
      slot := inner[|store|];
    }

    /** Opens a physical transaction, the only one that commits and drains deferred callbacks. */
    method Outermost(c: Conn, body: Prog, store: Store,
                     ghost frames: seq<Conn>, ghost bases: map<Conn, seq<Saved>>, ghost w: World)
      returns (ok: bool)
      requires Settled(store, frames, db, bases, w) && Queued(store, w) && ran == w.ran && c !in frames
      modifies this, Registries(store)
      ensures Settled(store, frames, db, bases, RefTransaction(c, body, frames, w).world)
      ensures Queued(store, RefTransaction(c, body, frames, w).world)
      ensures ran == RefTransaction(c, body, frames, w).world.ran
      ensures ok == RefTransaction(c, body, frames, w).ok
      ensures !ok ==> db.View(c) == old(db.View(c))
      ensures ok ==> db.data == seen
      ensures SameDurable(old(db), db)
      decreases body, 3
    {
      var slot;
      ok, slot := RunOpened(c, body, store, frames, bases, w);
      ghost var left := db;
      End(ok, slot, store, frames, bases, w, Ref(body, frames + [c], OutermostStart(c, w)));
      DurableTrans(old(db), left, db);
    }

    /** `afterCommit`, `afterRollback` and, when `on` names a connection, their `On` forms. */
    method Defer(queue: Queue, on: Option<Conn>, callback: Callback, store: Store,
                 ghost frames: seq<Conn>, ghost bases: map<Conn, seq<Saved>>, ghost w: World)
      returns (ok: bool)
      requires Settled(store, frames, db, bases, w) && Queued(store, w) && ran == w.ran
      modifies this`ran, Registries(store)
      ensures Settled(store, frames, db, bases, RefDefer(queue, on, callback, frames, w).world)
      ensures Queued(store, RefDefer(queue, on, callback, frames, w).world)
      ensures ran == RefDefer(queue, on, callback, frames, w).world.ran
      ensures ok == RefDefer(queue, on, callback, frames, w).ok
    {
      var found := FindScope(on, store, frames);
      match found
      case Some(slot) =>
        ScopeLevel(store, frames, slot);
        PushEntry(slot, queue, callback, store, frames, w);
        ok := true;
      case None =>
        SameEvents(store, w, w.(ran := w.ran + [callback]));
        if queue.OnCommit? {
          ran := ran + [callback];
          ok := !callback.throws;
        } else {
          ok := true;
        }
    }

    /** The scope of `on`, or the innermost scope when no connection is named. */
    method FindScope(on: Option<Conn>, store: Store, ghost frames: seq<Conn>) returns (found: Option<Slot>)
      requires Describes(store, frames)
      ensures found.None? <==> Target(frames, on).None?
      ensures found.Some? ==> found.value in store && Target(frames, on) == Some(found.value.conn)
    {
      match on
      case Some(c) =>
        StoreIndex(store, frames, c);
        var i := Position(store, c);
        found := if i < |store| then Some(store[i]) else None;
      case None =>
        found := GetInnermostTransactionScope(store, frames);
    }

    method PushEntry(slot: Slot, queue: Queue, callback: Callback, store: Store, ghost frames: seq<Conn>,
                     ghost w: World)
      requires Linked(store, frames, db) && Queued(store, w) && slot in store
      modifies slot.scope.deferred
      ensures Queued(store, Register(w, slot.conn, queue, Entry(slot.scope.level, callback)))
    {
      ScopeLevel(store, frames, slot);
      QueuedSplit(store, frames, db, slot, w);
      RegisterSurvives(w.EventsOf(slot.conn), queue, Entry(slot.scope.level, callback));
      slot.scope.deferred.Push(queue, slot.scope.level, callback);
      assert QueuedAt(slot, Register(w, slot.conn, queue, Entry(slot.scope.level, callback)));
      QueuedJoin(store, frames, db, slot, w, Register(w, slot.conn, queue, Entry(slot.scope.level, callback)));
    }

    /** Runs a program inside `store`; `w` is the reference state it starts from. */
    method Run(p: Prog, store: Store,
               ghost frames: seq<Conn>, ghost bases: map<Conn, seq<Saved>>, ghost w: World)
      returns (ok: bool)
      requires Settled(store, frames, db, bases, w) && Queued(store, w) && ran == w.ran
      modifies this, Registries(store)
      ensures Settled(store, frames, db, bases, Ref(p, frames, w).world)
      ensures Queued(store, Ref(p, frames, w).world) && ran == Ref(p, frames, w).world.ran
      ensures ok == Ref(p, frames, w).ok && (ok ==> db.data == seen)
      ensures SameDurable(old(db), db)
      decreases p, 1
    {
      match p
      case Done =>
        seen := db.data;
        ok := true;
      case Throw => ok := false;
      case Write(c, key, val, rest) =>
        ghost var w' := w.(data := w.data[c := w.DataOf(c)[key := val]]);
        WriteStep(store, frames, db, bases, w, w');
        SameEvents(store, w, w');
        db := db.(data := db.data[c := db.View(c)[key := val]]);
        ok := Run(rest, store, frames, bases, w');
      case If(c, key, val, yes, no) =>
        if key in db.View(c) && db.View(c)[key] == val {
          ok := Run(yes, store, frames, bases, w);
        } else {
          ok := Run(no, store, frames, bases, w);
        }
      case Defer(queue, on, callback, rest) =>
        ok := Defer(queue, on, callback, store, frames, bases, w);
        if ok {
          ok := Run(rest, store, frames, bases, RefDefer(queue, on, callback, frames, w).world);
        }
      case Nest(c, viaTrx, body, rest) =>
        var handle := if viaTrx && c in db.open then Trx(db.open[c].trx) else Root(c);
        ok := Transaction(handle, c, body, store, frames, bases, w);
        if ok {
          ok := Run(rest, store, frames, bases, RefTransaction(c, body, frames, w).world);
        }
      case Try(body, rest) =>
        var _ := Run(body, store, frames, bases, w);
        ok := Run(rest, store, frames, bases, Ref(body, frames, w).world);
    }
  }
}
