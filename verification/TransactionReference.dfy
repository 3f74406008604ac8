/**
 * What nested transactions mean: copy a connection's data on entry to a transaction body and put the
 * copy back when the body throws.  No savepoints, no levels, no stack: `Transaction` is proved against this.
 */
module TransactionReference {
  import opened Text

  /** A connection, named by the identity of its root query object. */
  type Conn = nat

  type Data = map<string, int>

  /** A deferred callback; `throws` says whether running it raises. */
  datatype Callback = Callback(id: nat, throws: bool)

  datatype Queue = OnCommit | OnRollback

  /**
   * The awaited behaviour of code that uses transactions.  `If` lets a program branch on what it reads,
   * `Try` catches whatever its body throws, and `Nest` passes either the root connection or, with
   * `viaTrx`, the transactional instance an enclosing callback received.
   */
  datatype Prog =
    | Done
    | Throw
    | Write(conn: Conn, key: string, val: int, rest: Prog)
    | If(conn: Conn, key: string, val: int, yes: Prog, no: Prog)
    | Defer(queue: Queue, on: Option<Conn>, callback: Callback, rest: Prog)
    | Nest(conn: Conn, viaTrx: bool, body: Prog, rest: Prog)
    | Try(body: Prog, rest: Prog)

  /** What one physical transaction's registry gets to see. */
  datatype Event =
    | Registered(queue: Queue, entry: Entry)
    | RolledBack(level: nat)

  datatype Entry = Entry(level: nat, callback: Callback)

  // ---------------------------------------------------------------- frames

  /** How many of the open frames are on `c`: the transaction level of `c`. */
  function Count(frames: seq<Conn>, c: Conn): nat { multiset(frames)[c] }

  lemma CountPush(frames: seq<Conn>, c: Conn, d: Conn)
    ensures Count(frames + [c], d) == Count(frames, d) + if c == d then 1 else 0
  {
  }

  /** The connections with an open frame, in the order their outermost frames were opened. */
  function Order(frames: seq<Conn>): seq<Conn> {
    if frames == [] then []
    else
      var before := Order(frames[..|frames| - 1]);
      var c := frames[|frames| - 1];
      if c in before then before else before + [c]
  }

  lemma {:induction false} OrderMembers(frames: seq<Conn>, c: Conn)
    ensures c in Order(frames) <==> c in frames
  {
    if frames != [] {
      OrderMembers(frames[..|frames| - 1], c);
      assert frames == frames[..|frames| - 1] + [frames[|frames| - 1]];
    }
  }

  lemma OrderPush(frames: seq<Conn>, c: Conn)
    ensures Order(frames + [c]) == if c in frames then Order(frames) else Order(frames) + [c]
  {
    var next := frames + [c];
    assert next[..|next| - 1] == frames && next[|next| - 1] == c;
    OrderMembers(frames, c);
  }

  lemma {:induction false} OrderDistinct(frames: seq<Conn>)
    ensures forall i, j :: 0 <= i < j < |Order(frames)| ==> Order(frames)[i] != Order(frames)[j]
  {
    if frames != [] {
      OrderDistinct(frames[..|frames| - 1]);
    }
  }

  /** The first connection of `order[..n]` whose level no other one there exceeds. */
  function Deepest(frames: seq<Conn>, order: seq<Conn>, n: nat): (deepest: Option<Conn>)
    requires n <= |order|
    ensures deepest.None? <==> n == 0
    ensures deepest.Some? ==> deepest.value in order
  {
    if n == 0 then None
    else
      match Deepest(frames, order, n - 1)
      case None => Some(order[n - 1])
      case Some(c) => if Count(frames, order[n - 1]) > Count(frames, c) then Some(order[n - 1]) else Some(c)
  }

  /** The connection that code naming no connection defers against. */
  function Innermost(frames: seq<Conn>): Option<Conn> {
    Deepest(frames, Order(frames), |Order(frames)|)
  }

  function Target(frames: seq<Conn>, on: Option<Conn>): Option<Conn> {
    match on
    case Some(c) => if c in frames then Some(c) else None
    case None => Innermost(frames)
  }

  /** `order[i]` is deeper than everything before it and at least as deep as everything after it. */
  ghost predicate Leads(frames: seq<Conn>, order: seq<Conn>, n: nat, i: nat)
    requires i < n <= |order|
  {
    && (forall j :: 0 <= j < i ==> Count(frames, order[j]) < Count(frames, order[i]))
    && (forall j :: i < j < n ==> Count(frames, order[j]) <= Count(frames, order[i]))
  }

  lemma {:induction false} DeepestLeads(frames: seq<Conn>, order: seq<Conn>, n: nat) returns (i: nat)
    requires 0 < n <= |order|
    ensures i < n && Deepest(frames, order, n) == Some(order[i]) && Leads(frames, order, n, i)
  {
    if n == 1 {
      assert Deepest(frames, order, 0).None?;
      i := 0;
    } else {
      i := DeepestLeads(frames, order, n - 1);
      if Count(frames, order[n - 1]) > Count(frames, order[i]) {
        i := n - 1;
      }
    }
  }

  // ------------------------------------------------- deferred callbacks

  /** Entry `i` survives when no savepoint at its level or an outer one rolls back after it. */
  ghost predicate Survives(events: seq<Event>, i: nat)
    requires i < |events|
  {
    events[i].Registered? &&
    forall j :: i < j < |events| && events[j].RolledBack? ==> events[i].entry.level < events[j].level
  }

  /** The surviving entries of one queue registered from `i` on, in registration order. */
  ghost function SurvivorsFrom(events: seq<Event>, queue: Queue, i: nat): seq<Entry>
    requires i <= |events|
    decreases |events| - i
  {
    if i == |events| then []
    else
      (if Survives(events, i) && events[i].queue == queue then [events[i].entry] else [])
      + SurvivorsFrom(events, queue, i + 1)
  }

  ghost function Survivors(events: seq<Event>, queue: Queue): seq<Entry> {
    SurvivorsFrom(events, queue, 0)
  }

  /** The entries below `level`, in order. */
  function Below(entries: seq<Entry>, level: nat): (kept: seq<Entry>)
    ensures forall e <- kept :: e in entries && e.level < level
  {
    if entries == [] then []
    else (if entries[0].level < level then [entries[0]] else []) + Below(entries[1..], level)
  }

  lemma {:induction false} BelowConcat(a: seq<Entry>, b: seq<Entry>, level: nat)
    ensures Below(a + b, level) == Below(a, level) + Below(b, level)
  {
    if a == [] {
      assert a + b == b;
    } else {
      assert (a + b)[1..] == a[1..] + b;
      BelowConcat(a[1..], b, level);
    }
  }

  lemma {:induction false} SurvivorsRegister(events: seq<Event>, queue: Queue, e: Event, i: nat)
    requires e.Registered? && i <= |events|
    ensures SurvivorsFrom(events + [e], queue, i)
         == SurvivorsFrom(events, queue, i) + if e.queue == queue then [e.entry] else []
    decreases |events| - i
  {
    var more := events + [e];
    if i == |events| {
      assert Survives(more, i);
      assert SurvivorsFrom(more, queue, i + 1) == [];
    } else {
      assert more[i] == events[i];
      assert Survives(more, i) <==> Survives(events, i) by {
        if Survives(events, i) {
          forall j | i < j < |more| && more[j].RolledBack? ensures more[i].entry.level < more[j].level {
            assert more[j] == events[j];
          }
        }
        if Survives(more, i) {
          forall j | i < j < |events| && events[j].RolledBack? ensures events[i].entry.level < events[j].level {
            assert more[j] == events[j];
          }
        }
      }
      SurvivorsRegister(events, queue, e, i + 1);
    }
  }

  /** A rollback to a savepoint at `level` leaves exactly the survivors below it. */
  lemma {:induction false} SurvivorsRollback(events: seq<Event>, queue: Queue, level: nat, i: nat)
    requires i <= |events|
    ensures SurvivorsFrom(events + [RolledBack(level)], queue, i) == Below(SurvivorsFrom(events, queue, i), level)
    decreases |events| - i
  {
    var more := events + [RolledBack(level)];
    if i == |events| {
      assert SurvivorsFrom(more, queue, i + 1) == [];
    } else {
      assert more[i] == events[i];
      assert Survives(more, i) <==> Survives(events, i) && events[i].entry.level < level by {
        if Survives(events, i) && events[i].entry.level < level {
          forall j | i < j < |more| && more[j].RolledBack? ensures more[i].entry.level < more[j].level {
            assert j < |events| ==> more[j] == events[j];
          }
        }
        if Survives(more, i) {
          assert more[|events|] == RolledBack(level);
          forall j | i < j < |events| && events[j].RolledBack? ensures events[i].entry.level < events[j].level {
            assert more[j] == events[j];
          }
        }
      }
      SurvivorsRollback(events, queue, level, i + 1);
      var head := if Survives(events, i) && events[i].queue == queue then [events[i].entry] else [];
      BelowConcat(head, SurvivorsFrom(events, queue, i + 1), level);
      assert head != [] ==> head[1..] == [];
    }
  }

  // ---------------------------------------------------------- reference run

  /**
   * `data` is what this flow of control sees on each connection; `events` the registry history of each
   * open physical transaction; `kept` the after-commit callbacks whose every enclosing body has so far
   * returned (restored with the data when a body throws); `ran` the callbacks run, in order.
   */
  datatype World = World(data: map<Conn, Data>, events: map<Conn, seq<Event>>, kept: map<Conn, seq<Entry>>,
                         ran: seq<Callback>)
  {
    function DataOf(c: Conn): Data { if c in data then data[c] else map[] }
    function EventsOf(c: Conn): seq<Event> { if c in events then events[c] else [] }
    function KeptOf(c: Conn): seq<Entry> { if c in kept then kept[c] else [] }
    function Reads(c: Conn, key: string, val: int): bool { key in DataOf(c) && DataOf(c)[key] == val }
  }

  datatype Outcome = Outcome(ok: bool, world: World)

  function Callbacks(entries: seq<Entry>): (cbs: seq<Callback>)
    ensures |cbs| == |entries|
    ensures forall i :: 0 <= i < |cbs| ==> cbs[i] == entries[i].callback
  {
    seq(|entries|, i requires 0 <= i < |entries| => entries[i].callback)
  }

  function Register(w: World, c: Conn, queue: Queue, entry: Entry): World {
    w.(events := w.events[c := w.EventsOf(c) + [Registered(queue, entry)]],
       kept := if queue.OnCommit? then w.kept[c := w.KeptOf(c) + [entry]] else w.kept)
  }

  /**
   * `afterCommit` and `afterRollback`: queue the callback when there is a transaction to wait for;
   * otherwise an after-commit callback runs on the spot and an after-rollback one never does.
   */
  function RefDefer(queue: Queue, on: Option<Conn>, callback: Callback, frames: seq<Conn>, w: World): Outcome {
    match Target(frames, on)
    case Some(c) => Outcome(true, Register(w, c, queue, Entry(Count(frames, c), callback)))
    case None =>
      if queue.OnRollback? then Outcome(true, w)
      else Outcome(!callback.throws, w.(ran := w.ran + [callback]))
  }

  /** A nested body on `c` threw: data and kept callbacks go back to what they were on entry. */
  function NestedFailure(c: Conn, level: nat, w: World, thrown: World): World {
    thrown.(data := thrown.data[c := w.DataOf(c)],
            kept := thrown.kept[c := w.KeptOf(c)],
            events := thrown.events[c := thrown.EventsOf(c) + [RolledBack(level)]])
  }

  /** The nested body on `c` at `level` ended. */
  function NestedEnd(c: Conn, level: nat, w: World, r: Outcome): World {
    if r.ok then r.world else NestedFailure(c, level, w, r.world)
  }

  /** The outermost body on `c` ended: restore the data if it threw, then run one queue of callbacks. */
  ghost function OutermostEnd(c: Conn, w: World, r: Outcome): World {
    r.world.(data := if r.ok then r.world.data else r.world.data[c := w.DataOf(c)],
             ran := r.world.ran + Callbacks(Survivors(r.world.EventsOf(c), if r.ok then OnCommit else OnRollback)))
  }

  function OutermostStart(c: Conn, w: World): World {
    w.(events := w.events[c := []], kept := w.kept[c := []])
  }

  /** `transaction(db, body)` called with the frames `frames` open. */
  ghost function RefTransaction(c: Conn, body: Prog, frames: seq<Conn>, w: World): Outcome
    decreases body, 1
  {
    if c !in frames then
      var r := Ref(body, frames + [c], OutermostStart(c, w));
      Outcome(r.ok, OutermostEnd(c, w, r))
    else
      var r := Ref(body, frames + [c], w);
      Outcome(r.ok, NestedEnd(c, Count(frames, c) + 1, w, r))
  }

  ghost function Ref(p: Prog, frames: seq<Conn>, w: World): Outcome
    decreases p, 0
  {
    match p
    case Done => Outcome(true, w)
    case Throw => Outcome(false, w)
    case Write(c, key, val, rest) => Ref(rest, frames, w.(data := w.data[c := w.DataOf(c)[key := val]]))
    case If(c, key, val, yes, no) => if w.Reads(c, key, val) then Ref(yes, frames, w) else Ref(no, frames, w)
    case Defer(queue, on, callback, rest) =>
      var r := RefDefer(queue, on, callback, frames, w);
      if r.ok then Ref(rest, frames, r.world) else r
    case Nest(c, _, body, rest) =>
      var r := RefTransaction(c, body, frames, w);
      if r.ok then Ref(rest, frames, r.world) else r
    case Try(body, rest) => Ref(rest, frames, Ref(body, frames, w).world)
  }
}
