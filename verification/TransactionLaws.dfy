/** What callers of nested transactions may rely on, stated about the reference run. */
module TransactionLaws {
  import opened Text
  import opened TransactionReference

  // ------------------------------------------------ the registry as a whole

  /** The registry's own operations, replayed from empty: push an entry, or drop everything from a level down. */
  ghost function Replay(events: seq<Event>, queue: Queue): seq<Entry> {
    if events == [] then []
    else
      var before := Replay(events[..|events| - 1], queue);
      match events[|events| - 1]
      case Registered(q, entry) => if q == queue then before + [entry] else before
      case RolledBack(level) => Below(before, level)
  }

  /**
   * After any history, a queue holds exactly the entries with no later rollback at their level or an
   * outer one, in registration order.
   */
  lemma {:induction false} RegistryHoldsSurvivors(events: seq<Event>, queue: Queue)
    ensures Replay(events, queue) == Survivors(events, queue)
  {
    if events != [] {
      var before, last := events[..|events| - 1], events[|events| - 1];
      assert events == before + [last];
      RegistryHoldsSurvivors(before, queue);
      match last
      case Registered(q, entry) => SurvivorsRegister(before, queue, last, 0);
      case RolledBack(level) => SurvivorsRollback(before, queue, level, 0);
    }
  }

  ghost predicate Drained(events: seq<Event>, queue: Queue, j: nat) {
    j < |events| && Survives(events, j) && events[j].queue == queue
  }

  ghost predicate DrainedAs(events: seq<Event>, queue: Queue, j: nat, entry: Entry) {
    Drained(events, queue, j) && events[j].entry == entry
  }

  /** `indices` are the events from `i` on that are drained, increasing and each once, and `entries` what they hold. */
  ghost predicate Picks(events: seq<Event>, queue: Queue, i: nat, indices: seq<nat>, entries: seq<Entry>) {
    && |indices| == |entries|
    && (forall a, b :: 0 <= a < b < |indices| ==> indices[a] < indices[b])
    && (forall a {:trigger indices[a]} :: 0 <= a < |indices| ==>
          i <= indices[a] && DrainedAs(events, queue, indices[a], entries[a]))
    && forall j {:trigger Drained(events, queue, j)} :: i <= j && Drained(events, queue, j) ==> j in indices
  }

  lemma PicksMore(events: seq<Event>, queue: Queue, i: nat, indices: seq<nat>, entries: seq<Entry>)
    requires i < |events| && Picks(events, queue, i + 1, indices, entries)
    ensures Drained(events, queue, i) ==> Picks(events, queue, i, [i] + indices, [events[i].entry] + entries)
    ensures !Drained(events, queue, i) ==> Picks(events, queue, i, indices, entries)
  {
    if Drained(events, queue, i) {
      var more, all := [i] + indices, [events[i].entry] + entries;
      forall a | 0 <= a < |more| ensures i <= more[a] && DrainedAs(events, queue, more[a], all[a]) {
        assert a > 0 ==> more[a] == indices[a - 1] && all[a] == entries[a - 1];
      }
      forall j | i <= j && Drained(events, queue, j) ensures j in more {
        assert j > i ==> j in indices;
      }
    }
  }

  /** An entry is drained exactly when it survives: the queue is the survivors' indices, increasing, each once. */
  lemma {:induction false} SurvivorsAreIndices(events: seq<Event>, queue: Queue, i: nat) returns (indices: seq<nat>)
    requires i <= |events|
    ensures Picks(events, queue, i, indices, SurvivorsFrom(events, queue, i))
    decreases |events| - i
  {
    if i == |events| {
      indices := [];
    } else {
      indices := SurvivorsAreIndices(events, queue, i + 1);
      PicksMore(events, queue, i, indices, SurvivorsFrom(events, queue, i + 1));
      if Drained(events, queue, i) {
        indices := [i] + indices;
      } else {
        assert SurvivorsFrom(events, queue, i) == SurvivorsFrom(events, queue, i + 1);
      }
    }
  }

  // --------------------------------------- callbacks and rolled-back work

  /** `a` is `b` with some entries left out. */
  ghost predicate Subsequence(a: seq<Entry>, b: seq<Entry>) {
    a == [] || (b != [] && ((a[0] == b[0] && Subsequence(a[1..], b[1..])) || Subsequence(a, b[1..])))
  }

  lemma {:induction false} SubsequenceSelf(a: seq<Entry>)
    ensures Subsequence(a, a)
  {
    if a != [] { SubsequenceSelf(a[1..]); }
  }

  lemma {:induction false} SubsequenceTrans(a: seq<Entry>, b: seq<Entry>, c: seq<Entry>)
    requires Subsequence(a, b) && Subsequence(b, c)
    ensures Subsequence(a, c)
    decreases |b| + |c|
  {
    if a != [] {
      if Subsequence(b, c[1..]) {
        SubsequenceTrans(a, b, c[1..]);
      } else if Subsequence(a, b[1..]) {
        SubsequenceTrans(a, b[1..], c[1..]);
      } else {
        SubsequenceTrans(a[1..], b[1..], c[1..]);
      }
    }
  }

  lemma {:induction false} SubsequenceSnoc(a: seq<Entry>, b: seq<Entry>, e: Entry)
    requires Subsequence(a, b)
    ensures Subsequence(a + [e], b + [e])
  {
    if a == [] {
      SubsequenceOfLast(b, e);
      assert a + [e] == [e];
    } else if a[0] == b[0] && Subsequence(a[1..], b[1..]) {
      SubsequenceSnoc(a[1..], b[1..], e);
      assert (a + [e])[1..] == a[1..] + [e] && (b + [e])[1..] == b[1..] + [e];
    } else {
      SubsequenceSnoc(a, b[1..], e);
      assert (b + [e])[1..] == b[1..] + [e];
    }
  }

  lemma {:induction false} SubsequenceOfLast(b: seq<Entry>, e: Entry)
    ensures Subsequence([e], b + [e])
  {
    if b != [] {
      SubsequenceOfLast(b[1..], e);
      assert (b + [e])[1..] == b[1..] + [e];
    }
  }

  lemma BelowHead(a: seq<Entry>, level: nat)
    requires a != []
    ensures a[0].level >= level ==> Below(a, level) == Below(a[1..], level)
    ensures a[0].level < level ==>
      Below(a, level) != [] && Below(a, level)[0] == a[0] && Below(a, level)[1..] == Below(a[1..], level)
  {
  }

  lemma {:induction false} BelowSubsequence(a: seq<Entry>, level: nat)
    ensures Subsequence(Below(a, level), a)
  {
    if a != [] {
      BelowSubsequence(a[1..], level);
      BelowHead(a, level);
    }
  }

  lemma {:induction false} BelowMonotone(a: seq<Entry>, b: seq<Entry>, level: nat)
    requires Subsequence(a, b)
    ensures Subsequence(Below(a, level), Below(b, level))
    decreases |b|
  {
    if a != [] {
      BelowHead(a, level);
      BelowHead(b, level);
      if a[0] == b[0] && Subsequence(a[1..], b[1..]) {
        BelowMonotone(a[1..], b[1..], level);
      } else {
        BelowMonotone(a, b[1..], level);
      }
    }
  }

  lemma {:induction false} BelowBelow(a: seq<Entry>, outer: nat, inner: nat)
    requires outer <= inner
    ensures Below(Below(a, inner), outer) == Below(a, outer)
  {
    if a != [] {
      BelowBelow(a[1..], outer, inner);
      BelowHead(a, inner);
      BelowHead(a, outer);
      if a[0].level < inner {
        BelowHead(Below(a, inner), outer);
      }
      assert a[0].level < outer ==> Below(Below(a, inner), outer) == [a[0]] + Below(Below(a[1..], inner), outer);
    }
  }

  ghost function Pending(w: World, c: Conn): seq<Entry> { Survivors(w.EventsOf(c), OnCommit) }

  /** Every pending after-commit callback is one whose enclosing bodies have all returned so far. */
  ghost predicate PendingIsKept(w: World, frames: seq<Conn>) {
    forall c :: c in frames ==> Subsequence(Pending(w, c), w.KeptOf(c))
  }

  /** Below the current level, running code can only remove pending callbacks. */
  ghost predicate OuterShrinks(w: World, w': World, frames: seq<Conn>) {
    forall c {:trigger ShrinksAt(w, w', frames, c)} :: c in frames ==> ShrinksAt(w, w', frames, c)
  }

  ghost predicate ShrinksAt(w: World, w': World, frames: seq<Conn>, c: Conn) {
    Subsequence(Below(Pending(w', c), Count(frames, c)), Below(Pending(w, c), Count(frames, c)))
  }

  lemma OuterShrinksTrans(a: World, b: World, c: World, frames: seq<Conn>)
    requires OuterShrinks(a, b, frames) && OuterShrinks(b, c, frames)
    ensures OuterShrinks(a, c, frames)
  {
    forall d | d in frames ensures ShrinksAt(a, c, frames, d) {
      assert ShrinksAt(a, b, frames, d) && ShrinksAt(b, c, frames, d);
      SubsequenceTrans(Below(Pending(c, d), Count(frames, d)), Below(Pending(b, d), Count(frames, d)),
                       Below(Pending(a, d), Count(frames, d)));
    }
  }

  lemma OuterShrinksSame(w: World, w': World, frames: seq<Conn>)
    requires forall c :: c in frames ==> w'.EventsOf(c) == w.EventsOf(c)
    ensures OuterShrinks(w, w', frames)
  {
    forall c | c in frames ensures ShrinksAt(w, w', frames, c) {
      SubsequenceSelf(Below(Pending(w, c), Count(frames, c)));
    }
  }

  lemma {:induction false} RunKeepsPending(p: Prog, frames: seq<Conn>, w: World)
    requires PendingIsKept(w, frames)
    ensures PendingIsKept(Ref(p, frames, w).world, frames) && OuterShrinks(w, Ref(p, frames, w).world, frames)
    decreases p, 1
  {
    match p
    case Done => OuterShrinksSame(w, w, frames);
    case Throw => OuterShrinksSame(w, w, frames);
    case Write(c, key, val, rest) =>
      var w' := w.(data := w.data[c := w.DataOf(c)[key := val]]);
      SameEventsKept(w, w', frames);
      RunKeepsPending(rest, frames, w');
      OuterShrinksTrans(w, w', Ref(p, frames, w).world, frames);
    case If(c, key, val, yes, no) =>
      RunKeepsPending(if w.Reads(c, key, val) then yes else no, frames, w);
    case Defer(queue, on, callback, rest) =>
      var r := RefDefer(queue, on, callback, frames, w);
      DeferKeepsPending(queue, on, callback, frames, w);
      if r.ok {
        RunKeepsPending(rest, frames, r.world);
        OuterShrinksTrans(w, r.world, Ref(p, frames, w).world, frames);
      }
    case Nest(c, _, body, rest) =>
      var r := RefTransaction(c, body, frames, w);
      TransactionKeepsPending(c, body, frames, w);
      if r.ok {
        RunKeepsPending(rest, frames, r.world);
        OuterShrinksTrans(w, r.world, Ref(p, frames, w).world, frames);
      }
    case Try(body, rest) =>
      var w' := Ref(body, frames, w).world;
      RunKeepsPending(body, frames, w);
      RunKeepsPending(rest, frames, w');
      OuterShrinksTrans(w, w', Ref(p, frames, w).world, frames);
  }

  lemma SameEventsKept(w: World, w': World, frames: seq<Conn>)
    requires w'.events == w.events && w'.kept == w.kept && PendingIsKept(w, frames)
    ensures PendingIsKept(w', frames) && OuterShrinks(w, w', frames)
  {
    OuterShrinksSame(w, w', frames);
    assert forall c :: Pending(w', c) == Pending(w, c);
  }

  lemma DeferKeepsPending(queue: Queue, on: Option<Conn>, callback: Callback, frames: seq<Conn>, w: World)
    requires PendingIsKept(w, frames)
    ensures PendingIsKept(RefDefer(queue, on, callback, frames, w).world, frames)
    ensures OuterShrinks(w, RefDefer(queue, on, callback, frames, w).world, frames)
  {
    var w' := RefDefer(queue, on, callback, frames, w).world;
    match Target(frames, on)
    case None => SameEventsKept(w, w', frames);
    case Some(t) => RegisterKeepsPending(w, t, queue, Entry(Count(frames, t), callback), frames);
  }

  lemma RegisterKeepsPending(w: World, t: Conn, queue: Queue, entry: Entry, frames: seq<Conn>)
    requires PendingIsKept(w, frames) && entry.level == Count(frames, t)
    ensures PendingIsKept(Register(w, t, queue, entry), frames)
    ensures OuterShrinks(w, Register(w, t, queue, entry), frames)
  {
    var w' := Register(w, t, queue, entry);
    forall c | c in frames ensures Subsequence(Pending(w', c), w'.KeptOf(c)) && ShrinksAt(w, w', frames, c) {
      SubsequenceSelf(Below(Pending(w, c), Count(frames, c)));
      if c != t {
        assert w'.EventsOf(c) == w.EventsOf(c) && w'.KeptOf(c) == w.KeptOf(c);
      } else {
        SurvivorsRegister(w.EventsOf(c), OnCommit, Registered(queue, entry), 0);
        PushedEntry(Pending(w, c), w.KeptOf(c), entry);
      }
    }
  }

  lemma PushedEntry(pending: seq<Entry>, kept: seq<Entry>, entry: Entry)
    requires Subsequence(pending, kept)
    ensures Subsequence(pending + [entry], kept + [entry])
    ensures Below(pending + [entry], entry.level) == Below(pending, entry.level)
    ensures pending + [] == pending
  {
    SubsequenceSnoc(pending, kept, entry);
    BelowConcat(pending, [entry], entry.level);
    assert Below([entry], entry.level) == [];
  }

  ghost predicate KeepsAt(w: World, w': World, frames: seq<Conn>, d: Conn) {
    Subsequence(Pending(w', d), w'.KeptOf(d)) && ShrinksAt(w, w', frames, d)
  }

  /** What a body did to a connection it left alone at its end. */
  lemma LeftAlone(c: Conn, frames: seq<Conn>, w: World, start: World, r: World, w': World, d: Conn)
    requires PendingIsKept(r, frames + [c]) && OuterShrinks(start, r, frames + [c]) && d in frames
    requires start.EventsOf(d) == w.EventsOf(d) && w'.EventsOf(d) == r.EventsOf(d) && w'.KeptOf(d) == r.KeptOf(d)
    ensures KeepsAt(w, w', frames, d)
  {
    CountPush(frames, c, d);
    assert d in frames + [c] && ShrinksAt(start, r, frames + [c], d);
    NestedShrinks(Pending(w, d), Pending(r, d), Count(frames, d), Count(frames + [c], d));
  }

  /** What a nested body that threw leaves on its connection. */
  lemma ThrownAway(c: Conn, frames: seq<Conn>, w: World, r: World)
    requires PendingIsKept(w, frames) && OuterShrinks(w, r, frames + [c]) && c in frames
    ensures KeepsAt(w, NestedFailure(c, Count(frames, c) + 1, w, r), frames, c)
  {
    var level := Count(frames, c) + 1;
    var w' := NestedFailure(c, level, w, r);
    CountPush(frames, c, c);
    assert c in frames + [c] && ShrinksAt(w, r, frames + [c], c);
    SurvivorsRollback(r.EventsOf(c), OnCommit, level, 0);
    BelowSubsequence(Pending(w, c), level);
    SubsequenceTrans(Pending(w', c), Below(Pending(w, c), level), Pending(w, c));
    SubsequenceTrans(Pending(w', c), Pending(w, c), w.KeptOf(c));
    NestedShrinks(Pending(w, c), Pending(r, c), Count(frames, c), level);
    BelowBelow(Pending(r, c), Count(frames, c), level);
  }

  lemma InnerPending(c: Conn, frames: seq<Conn>, w: World)
    requires PendingIsKept(w, frames)
    ensures PendingIsKept(if c in frames then w else OutermostStart(c, w), frames + [c])
  {
    var start := if c in frames then w else OutermostStart(c, w);
    forall d | d in frames + [c] ensures Subsequence(Pending(start, d), start.KeptOf(d)) {
      assert d != c ==> start.EventsOf(d) == w.EventsOf(d) && start.KeptOf(d) == w.KeptOf(d);
    }
  }

  lemma {:induction false} TransactionKeepsPending(c: Conn, body: Prog, frames: seq<Conn>, w: World)
    requires PendingIsKept(w, frames)
    ensures PendingIsKept(RefTransaction(c, body, frames, w).world, frames)
    ensures OuterShrinks(w, RefTransaction(c, body, frames, w).world, frames)
    decreases body, 2
  {
    var start := if c in frames then w else OutermostStart(c, w);
    InnerPending(c, frames, w);
    RunKeepsPending(body, frames + [c], start);
    var r := Ref(body, frames + [c], start);
    var w' := RefTransaction(c, body, frames, w).world;
    forall d | d in frames ensures KeepsAt(w, w', frames, d) {
      if d == c && !r.ok {
        ThrownAway(c, frames, w, r.world);
      } else {
        assert start.EventsOf(d) == w.EventsOf(d);
        assert w'.EventsOf(d) == r.world.EventsOf(d) && w'.KeptOf(d) == r.world.KeptOf(d);
        LeftAlone(c, frames, w, start, r.world, w', d);
      }
    }
  }

  lemma NestedShrinks(before: seq<Entry>, after: seq<Entry>, outer: nat, inner: nat)
    requires outer <= inner && Subsequence(Below(after, inner), Below(before, inner))
    ensures Subsequence(Below(after, outer), Below(before, outer))
  {
    BelowMonotone(Below(after, inner), Below(before, inner), outer);
    BelowBelow(after, outer, inner);
    BelowBelow(before, outer, inner);
  }

  /**
   * The after-commit callbacks an outermost transaction runs are a subsequence of those whose every
   * enclosing body returned: none belongs to work that was rolled back.  They run after everything
   * that ran before, in registration order, each once.
   */
  lemma CommitRunsOnlyKeptCallbacks(c: Conn, body: Prog, frames: seq<Conn>, w: World) returns (drained: seq<Entry>)
    requires c !in frames && PendingIsKept(w, frames)
    requires RefTransaction(c, body, frames, w).ok
    ensures
      var inside := Ref(body, frames + [c], OutermostStart(c, w)).world;
      && RefTransaction(c, body, frames, w).world.ran == inside.ran + Callbacks(drained)
      && Subsequence(drained, inside.KeptOf(c))
  {
    var start := OutermostStart(c, w);
    assert PendingIsKept(start, frames + [c]) by {
      forall d | d in frames + [c] ensures Subsequence(Pending(start, d), start.KeptOf(d)) {
        assert d != c ==> start.EventsOf(d) == w.EventsOf(d) && start.KeptOf(d) == w.KeptOf(d);
      }
    }
    RunKeepsPending(body, frames + [c], start);
    drained := Pending(Ref(body, frames + [c], start).world, c);
    assert c in frames + [c];
  }

  // ------------------------------------------------------------------- data

  /** The body's own run, as `transaction` starts it. */
  ghost function BodyRun(c: Conn, body: Prog, frames: seq<Conn>, w: World): Outcome {
    Ref(body, frames + [c], if c in frames then w else OutermostStart(c, w))
  }

  /**
   * Outermost or nested, a call that fails leaves its connection's data as it was; one that returns leaves all data as
   * its body did, and so does one that fails on any other connection.
   */
  lemma FailureRestores(c: Conn, body: Prog, frames: seq<Conn>, w: World)
    ensures
      var t, r := RefTransaction(c, body, frames, w), BodyRun(c, body, frames, w);
      && t.ok == r.ok && (!t.ok ==> t.world.DataOf(c) == w.DataOf(c))
      && forall d :: t.ok || d != c ==> t.world.DataOf(d) == r.world.DataOf(d)
  {
  }

  /** So code that catches the failure reads on that connection what it would have read before. */
  lemma CaughtFailureIsUnread(c: Conn, viaTrx: bool, body: Prog, frames: seq<Conn>, w: World, key: string, val: int,
                              yes: Prog, no: Prog)
    requires !BodyRun(c, body, frames, w).ok
    ensures Ref(Try(Nest(c, viaTrx, body, Done), If(c, key, val, yes, no)), frames, w)
         == Ref(if w.Reads(c, key, val) then yes else no, frames, RefTransaction(c, body, frames, w).world)
  {
    FailureRestores(c, body, frames, w);
    var after := RefTransaction(c, body, frames, w).world;
    assert Ref(Nest(c, viaTrx, body, Done), frames, w) == Outcome(false, after);
    assert after.Reads(c, key, val) <==> w.Reads(c, key, val);
  }

  function Written(c: Conn, key: string, val: int, w: World): World { w.(data := w.data[c := w.DataOf(c)[key := val]]) }

  /** What is written is read, and nothing else. */
  lemma WriteIsRead(c: Conn, key: string, val: int, read: int, frames: seq<Conn>, w: World, yes: Prog, no: Prog)
    ensures Ref(Write(c, key, val, If(c, key, read, yes, no)), frames, w)
         == Ref(if read == val then yes else no, frames, Written(c, key, val, w))
  {
    assert Written(c, key, val, w).Reads(c, key, read) <==> read == val;
  }

  /** And still is after the transaction that wrote it has returned. */
  lemma CommittedWriteIsRead(c: Conn, viaTrx: bool, key: string, val: int, frames: seq<Conn>, w: World, yes: Prog,
                             no: Prog)
    ensures
      var after := RefTransaction(c, Write(c, key, val, Done), frames, w);
      && after.ok && after.world.Reads(c, key, val)
      && Ref(Nest(c, viaTrx, Write(c, key, val, Done), If(c, key, val, yes, no)), frames, w)
      == Ref(yes, frames, after.world)
  {
    var start := if c in frames then w else OutermostStart(c, w);
    assert Ref(Write(c, key, val, Done), frames + [c], start) == Outcome(true, Written(c, key, val, start));
    FailureRestores(c, Write(c, key, val, Done), frames, w);
    assert RefTransaction(c, Write(c, key, val, Done), frames, w).world.Reads(c, key, val);
  }

  /**
   * An outermost call runs, after all that its body ran, each once and in order, the entries of one queue that no later
   * rollback has dropped: the after-commit ones when it returns and the after-rollback ones when it fails.
   */
  lemma OutermostDrains(c: Conn, body: Prog, frames: seq<Conn>, w: World)
    returns (indices: seq<nat>, drained: seq<Entry>)
    requires c !in frames
    ensures
      var t, r := RefTransaction(c, body, frames, w), BodyRun(c, body, frames, w);
      && t.world.ran == r.world.ran + Callbacks(drained)
      && Picks(r.world.EventsOf(c), if t.ok then OnCommit else OnRollback, 0, indices, drained)
  {
    var r := BodyRun(c, body, frames, w);
    var queue := if r.ok then OnCommit else OnRollback;
    drained := Survivors(r.world.EventsOf(c), queue);
    indices := SurvivorsAreIndices(r.world.EventsOf(c), queue, 0);
  }

  // -------------------------------------------------- callbacks that are not lost

  /** What a queue of `c`'s transaction holds. */
  ghost function Waiting(w: World, c: Conn, queue: Queue): seq<Entry> { Survivors(w.EventsOf(c), queue) }

  /** With no transaction to wait for, an after-commit callback runs on the spot and its exception is the caller's. */
  lemma DeferOutside(on: Option<Conn>, callback: Callback, frames: seq<Conn>, w: World, rest: Prog)
    requires if on.Some? then on.value !in frames else frames == []
    ensures
      var now := w.(ran := w.ran + [callback]);
      Ref(Defer(OnCommit, on, callback, rest), frames, w)
      == if callback.throws then Outcome(false, now) else Ref(rest, frames, now)
    ensures Ref(Defer(OnRollback, on, callback, rest), frames, w) == Ref(rest, frames, w)
  {
    assert Target(frames, on).None?;
  }

  /**
   * With one, nothing runs yet: the callback waits behind the others, on the named connection, or the innermost one
   * when none is named, and on no other.
   */
  lemma DeferInside(queue: Queue, on: Option<Conn>, c: Conn, callback: Callback, frames: seq<Conn>, w: World)
    requires if on.Some? then on == Some(c) && c in frames else Innermost(frames) == Some(c)
    ensures
      var r := RefDefer(queue, on, callback, frames, w);
      && r.ok && r.world.ran == w.ran && r.world.data == w.data
      && forall d, q :: Waiting(r.world, d, q) ==
           Waiting(w, d, q) + if d == c && q == queue then [Entry(Count(frames, c), callback)] else []
  {
    var entry := Entry(Count(frames, c), callback);
    forall q ensures Survivors(w.EventsOf(c) + [Registered(queue, entry)], q) ==
      Survivors(w.EventsOf(c), q) + if q == queue then [entry] else []
    {
      SurvivorsRegister(w.EventsOf(c), q, Registered(queue, entry), 0);
    }
  }

  /** What waits on `c` at the level of the code that runs, or of code around it, still waits, and first. */
  ghost predicate StillWaits(w: World, w': World, frames: seq<Conn>, c: Conn, queue: Queue) {
    Below(Waiting(w, c, queue), Count(frames, c) + 1) <= Below(Waiting(w', c, queue), Count(frames, c) + 1)
  }

  ghost predicate AllStillWait(w: World, w': World, frames: seq<Conn>) {
    forall c, q {:trigger StillWaits(w, w', frames, c, q)} :: c in frames ==> StillWaits(w, w', frames, c, q)
  }

  lemma AllWaitTrans(a: World, b: World, c: World, frames: seq<Conn>)
    requires AllStillWait(a, b, frames) && AllStillWait(b, c, frames)
    ensures AllStillWait(a, c, frames)
  {
    forall d, q | d in frames ensures StillWaits(a, c, frames, d, q) {
      assert StillWaits(a, b, frames, d, q) && StillWaits(b, c, frames, d, q);
    }
  }

  lemma SameWait(w: World, w': World, frames: seq<Conn>)
    requires forall c :: c in frames ==> w'.EventsOf(c) == w.EventsOf(c)
    ensures AllStillWait(w, w', frames)
  {
  }

  lemma BelowPrefix(a: seq<Entry>, b: seq<Entry>, level: nat)
    requires a <= b
    ensures Below(a, level) <= Below(b, level)
  {
    assert b == a + b[|a|..];
    BelowConcat(a, b[|a|..], level);
  }

  lemma DeferStillWaits(queue: Queue, on: Option<Conn>, callback: Callback, frames: seq<Conn>, w: World)
    ensures AllStillWait(w, RefDefer(queue, on, callback, frames, w).world, frames)
  {
    var w' := RefDefer(queue, on, callback, frames, w).world;
    match Target(frames, on)
    case None => SameWait(w, w', frames);
    case Some(t) =>
      var entry := Entry(Count(frames, t), callback);
      forall c, q | c in frames ensures StillWaits(w, w', frames, c, q) {
        SurvivorsRegister(w.EventsOf(t), q, Registered(queue, entry), 0);
        BelowPrefix(Waiting(w, c, q), Waiting(w', c, q), Count(frames, c) + 1);
      }
  }

  /** What one level more keeps, this level keeps, and a rollback to the savepoint in between takes none of it. */
  lemma OuterStillWait(before: seq<Entry>, after: seq<Entry>, inner: nat, outer: nat)
    requires outer <= inner && Below(before, inner) <= Below(after, inner)
    ensures Below(before, outer) <= Below(after, outer) == Below(Below(after, outer), outer)
  {
    BelowPrefix(Below(before, inner), Below(after, inner), outer);
    BelowBelow(before, outer, inner);
    BelowBelow(after, outer, inner);
    BelowBelow(after, outer, outer);
  }

  /** No code drops a callback of its own level or of an outer one, whatever fails inside it. */
  lemma {:induction false} RunKeepsOwn(p: Prog, frames: seq<Conn>, w: World)
    ensures AllStillWait(w, Ref(p, frames, w).world, frames)
    decreases p, 1
  {
    match p
    case Done => SameWait(w, w, frames);
    case Throw => SameWait(w, w, frames);
    case Write(c, key, val, rest) =>
      var w' := Written(c, key, val, w);
      SameWait(w, w', frames);
      RunKeepsOwn(rest, frames, w');
      AllWaitTrans(w, w', Ref(p, frames, w).world, frames);
    case If(c, key, val, yes, no) =>
      RunKeepsOwn(if w.Reads(c, key, val) then yes else no, frames, w);
    case Defer(queue, on, callback, rest) =>
      var r := RefDefer(queue, on, callback, frames, w);
      DeferStillWaits(queue, on, callback, frames, w);
      if r.ok {
        RunKeepsOwn(rest, frames, r.world);
        AllWaitTrans(w, r.world, Ref(p, frames, w).world, frames);
      }
    case Nest(c, _, body, rest) =>
      var r := RefTransaction(c, body, frames, w);
      TransactionKeepsOwn(c, body, frames, w);
      if r.ok {
        RunKeepsOwn(rest, frames, r.world);
        AllWaitTrans(w, r.world, Ref(p, frames, w).world, frames);
      }
    case Try(body, rest) =>
      var w' := Ref(body, frames, w).world;
      RunKeepsOwn(body, frames, w);
      RunKeepsOwn(rest, frames, w');
      AllWaitTrans(w, w', Ref(p, frames, w).world, frames);
  }

  lemma LeftWaiting(c: Conn, frames: seq<Conn>, w: World, start: World, r: World, w': World, d: Conn, q: Queue)
    requires StillWaits(start, r, frames + [c], d, q)
    requires start.EventsOf(d) == w.EventsOf(d) && w'.EventsOf(d) == r.EventsOf(d)
    ensures StillWaits(w, w', frames, d, q)
  {
    CountPush(frames, c, d);
    OuterStillWait(Waiting(w, d, q), Waiting(r, d, q), Count(frames + [c], d) + 1, Count(frames, d) + 1);
  }

  lemma ThrownWaiting(c: Conn, frames: seq<Conn>, w: World, r: World, q: Queue)
    requires StillWaits(w, r, frames + [c], c, q)
    ensures StillWaits(w, NestedFailure(c, Count(frames, c) + 1, w, r), frames, c, q)
  {
    CountPush(frames, c, c);
    OuterStillWait(Waiting(w, c, q), Waiting(r, c, q), Count(frames + [c], c) + 1, Count(frames, c) + 1);
    SurvivorsRollback(r.EventsOf(c), q, Count(frames, c) + 1, 0);
  }

  lemma {:induction false} TransactionKeepsOwn(c: Conn, body: Prog, frames: seq<Conn>, w: World)
    ensures AllStillWait(w, RefTransaction(c, body, frames, w).world, frames)
    decreases body, 2
  {
    var start := if c in frames then w else OutermostStart(c, w);
    RunKeepsOwn(body, frames + [c], start);
    var r, w' := Ref(body, frames + [c], start), RefTransaction(c, body, frames, w).world;
    forall d, q | d in frames ensures StillWaits(w, w', frames, d, q) {
      assert d in frames + [c] && StillWaits(start, r.world, frames + [c], d, q);
      if d == c && !r.ok {
        ThrownWaiting(c, frames, w, r.world, q);
      } else {
        LeftWaiting(c, frames, w, start, r.world, w', d, q);
      }
    }
  }

  /**
   * So a callback the outermost body itself registers is never lost, whatever the body goes on to do: an after-commit
   * one is run if the call returns, and an after-rollback one if it fails.
   */
  lemma OwnCallbackRuns(c: Conn, queue: Queue, callback: Callback, rest: Prog, frames: seq<Conn>, w: World)
    returns (at: nat)
    requires c !in frames
    ensures
      var body := Defer(queue, Some(c), callback, rest);
      var t, r := RefTransaction(c, body, frames, w), BodyRun(c, body, frames, w);
      t.ok == queue.OnCommit? ==> |r.world.ran| <= at < |t.world.ran| && t.world.ran[at] == callback
  {
    var r := BodyRun(c, Defer(queue, Some(c), callback, rest), frames, w);
    OwnCallbackWaits(c, queue, callback, rest, frames, w);
    var waits := Waiting(r.world, c, queue);
    var i :| 0 <= i < |waits| && waits[i] == Entry(1, callback);
    at := |r.world.ran| + i;
  }

  lemma OwnCallbackWaits(c: Conn, queue: Queue, callback: Callback, rest: Prog, frames: seq<Conn>, w: World)
    requires c !in frames
    ensures Entry(1, callback) in Waiting(BodyRun(c, Defer(queue, Some(c), callback, rest), frames, w).world, c, queue)
  {
    var inside, start := frames + [c], OutermostStart(c, w);
    CountPush(frames, c, c);
    FirstWaiting(queue, c, callback, inside, start);
    var queued := RefDefer(queue, Some(c), callback, inside, start).world;
    LaterWaiting(Entry(1, callback), queue, c, rest, inside, queued);
  }

  lemma FirstWaiting(queue: Queue, c: Conn, callback: Callback, frames: seq<Conn>, w: World)
    requires c in frames && w.EventsOf(c) == []
    ensures
      var after := RefDefer(queue, Some(c), callback, frames, w).world;
      Waiting(after, c, queue) == [Entry(Count(frames, c), callback)]
  {
    DeferInside(queue, Some(c), c, callback, frames, w);
    assert Waiting(w, c, queue) == [];
  }

  lemma LaterWaiting(entry: Entry, queue: Queue, c: Conn, p: Prog, frames: seq<Conn>, w: World)
    requires c in frames && Waiting(w, c, queue) == [entry] && entry.level <= Count(frames, c)
    ensures entry in Waiting(Ref(p, frames, w).world, c, queue)
  {
    RunKeepsOwn(p, frames, w);
    assert StillWaits(w, Ref(p, frames, w).world, frames, c, queue);
    WaitsFirst(entry, Waiting(w, c, queue), Waiting(Ref(p, frames, w).world, c, queue), Count(frames, c) + 1);
  }

  lemma WaitsFirst(entry: Entry, before: seq<Entry>, after: seq<Entry>, level: nat)
    requires before == [entry] && entry.level < level && Below(before, level) <= Below(after, level)
    ensures entry in after
  {
    BelowHead(before, level);
    assert entry == Below(after, level)[0];
  }

  // ------------------------------------------------------------ two surprises

  /** A nested body registers a callback and returns; a later sibling throws and is caught. */
  function SiblingProgram(c: Conn, callback: Callback): Prog {
    Nest(c, false, Write(c, "order", 1, Defer(OnCommit, None, callback, Done)),
      Try(Nest(c, false, Throw, Done), Done))
  }

  /**
   * Keeping exactly the callbacks of surviving work is not what `discardFrom` does: the first body's write
   * is committed and its callback never runs, because the sibling rolled back at the same level.
   */
  lemma SiblingRollbackDropsCallback(c: Conn, callback: Callback)
    ensures
      var r := RefTransaction(c, SiblingProgram(c, callback), [], World(map[], map[], map[], []));
      r.ok && r.world.Reads(c, "order", 1) && r.world.ran == []
  {
    var w0 := OutermostStart(c, World(map[], map[], map[], []));
    assert [] + [c] == [c];
    var w2 := FirstSibling(c, callback, w0);
    var w3 := NestedFailure(c, 2, w2, w2);
    assert Ref(Try(Nest(c, false, Throw, Done), Done), [c], w2) == Outcome(true, w3) by {
      assert Ref(Throw, [c] + [c], w2) == Outcome(false, w2);
      assert RefTransaction(c, Throw, [c], w2) == Outcome(false, w3);
      assert Ref(Nest(c, false, Throw, Done), [c], w2) == Outcome(false, w3);
    }
    assert Ref(SiblingProgram(c, callback), [c], w0) == Outcome(true, w3);
    var events := w3.EventsOf(c);
    assert events == [Registered(OnCommit, Entry(2, callback)), RolledBack(2)];
    NoSurvivor(events);
  }

  lemma NoSurvivor(events: seq<Event>)
    requires |events| == 2 && events[0].Registered? && events[0].entry.level == 2 && events[1] == RolledBack(2)
    ensures Survivors(events, OnCommit) == []
  {
    assert SurvivorsFrom(events, OnCommit, 2) == [];
    assert SurvivorsFrom(events, OnCommit, 1) == [];
    assert !Survives(events, 0);
  }

  lemma FirstSibling(c: Conn, callback: Callback, w0: World) returns (w2: World)
    requires w0.EventsOf(c) == [] && w0.ran == []
    ensures RefTransaction(c, Write(c, "order", 1, Defer(OnCommit, None, callback, Done)), [c], w0) == Outcome(true, w2)
    ensures w2.Reads(c, "order", 1) && w2.EventsOf(c) == [Registered(OnCommit, Entry(2, callback))] && w2.ran == []
  {
    var frames := [c] + [c];
    OrderPush([], c);
    OrderPush([c], c);
    assert [] + [c] == [c];
    assert Order(frames) == [c] && Order([]) == [];
    var i := DeepestLeads(frames, [c], 1);
    assert Target(frames, None) == Some(c);
    var w1 := w0.(data := w0.data[c := w0.DataOf(c)["order" := 1]]);
    var defer := Defer(OnCommit, None, callback, Done);
    w2 := Register(w1, c, OnCommit, Entry(2, callback));
    assert Ref(Done, frames, w2) == Outcome(true, w2);
    assert Ref(defer, frames, w1) == Outcome(true, w2);
    assert Ref(Write(c, "order", 1, defer), frames, w0) == Outcome(true, w2);
  }

  /** `a` was opened before `b`. */
  ghost predicate OpenedBefore(frames: seq<Conn>, a: Conn, b: Conn) {
    exists i, j :: 0 <= i < j < |Order(frames)| && Order(frames)[i] == a && Order(frames)[j] == b
  }

  /**
   * Code that names no connection defers against the transaction it is written in exactly when that
   * one's level exceeds every connection opened before it and reaches every one opened after it.
   */
  lemma InnermostIsEnclosing(frames: seq<Conn>, c: Conn)
    requires c in frames
    ensures Innermost(frames) == Some(c) <==>
      forall d :: d in frames && d != c ==>
        Count(frames, d) <= Count(frames, c) && (OpenedBefore(frames, d, c) ==> Count(frames, d) < Count(frames, c))
  {
    var order := Order(frames);
    OrderMembers(frames, c);
    OrderDistinct(frames);
    var i := DeepestLeads(frames, order, |order|);
    if Innermost(frames) == Some(c) {
      forall d | d in frames && d != c
        ensures Count(frames, d) <= Count(frames, c)
        ensures OpenedBefore(frames, d, c) ==> Count(frames, d) < Count(frames, c)
      {
        OrderMembers(frames, d);
        var j :| 0 <= j < |order| && order[j] == d;
      }
    } else {
      var d := order[i];
      OrderMembers(frames, d);
      var k :| 0 <= k < |order| && order[k] == c;
      if i < k {
        assert OpenedBefore(frames, d, c);
      }
    }
  }

  /** So a transaction just opened on a second connection is never the one chosen: its level is only 1. */
  lemma SecondConnectionIsNeverInnermost(frames: seq<Conn>, c: Conn)
    requires frames != [] && c !in frames
    ensures Innermost(frames + [c]) != Some(c)
  {
    var d := frames[0];
    OrderPush(frames, c);
    CountPush(frames, c, c);
    CountPush(frames, c, d);
    OrderMembers(frames, d);
    var i :| 0 <= i < |Order(frames)| && Order(frames)[i] == d;
    assert Order(frames + [c])[i] == d && Order(frames + [c])[|Order(frames)|] == c;
    assert OpenedBefore(frames + [c], d, c);
    assert c in frames + [c] && d in frames + [c];
    InnermostIsEnclosing(frames + [c], c);
  }
}
