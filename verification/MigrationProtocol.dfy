/** Any number of `up` and `rollback` runs, interleaved step by step, with failures and crashes anywhere. */
module MigrationProtocol {
  import opened Text
  import opened Migrations
  import opened MigrationRunner

  /** What a process was asked to do, after discovery. */
  datatype Op = UpOp(order: seq<string>) | RollbackOp(known: set<string>, step: Option<nat>)

  datatype Phase =
    | Idle
    | Waiting(op: Op)
    | Holding(op: Op)
    | Pending(todo: seq<string>)
    | Applying(todo: seq<string>, batch: nat)
    | Recording(done: string, todo: seq<string>, batch: nat)
    | Targeting(known: set<string>, step: Option<nat>, targets: set<nat>)
    | Undoing(known: set<string>, todo: seq<string>)
    | Erasing(known: set<string>, done: string, todo: seq<string>)
    | Leaving
    | Crashed

  /**
   * `holder` is the lock row, `rows` the migrations table; `log` is the effects in the schema: the migrations
   * applied and not undone, in the order in which they were applied.
   */
  datatype Cluster = Cluster(holder: Option<nat>, rows: set<Entry>, log: seq<Entry>, procs: seq<Phase>)

  datatype Action = Start(op: Op) | Advance | Fail | Crash

  predicate Inside(phase: Phase) { !phase.Idle? && !phase.Waiting? && !phase.Crashed? }

  function PendingOf(order: seq<string>, rows: set<Entry>): seq<string> {
    if order == [] then []
    else PendingOf(order[..|order| - 1], rows)
         + if order[|order| - 1] in RowNames(rows) then [] else [order[|order| - 1]]
  }

  lemma NextExists(rows: set<Entry>)
    ensures exists b :: IsNext(rows, b)
  {
    if rows == {} {
      assert IsNext(rows, 1);
    } else {
      var g := Greatest(rows);
      assert g in rows && IsNext(rows, g.batch + 1);
    }
  }

  ghost function NextOf(rows: set<Entry>): (b: nat)
    ensures IsNext(rows, b)
  {
    NextExists(rows);
    var b :| IsNext(rows, b);
    b
  }

  /** The effects left once the last one of that name is undone. */
  function LogWithout(log: seq<Entry>, name: string): seq<Entry> {
    if log == [] then []
    else if log[|log| - 1].name == name then log[..|log| - 1]
    else LogWithout(log[..|log| - 1], name) + [log[|log| - 1]]
  }

  function Put(s: Cluster, p: nat, phase: Phase): Cluster
    requires p < |s.procs|
  {
    s.(procs := s.procs[p := phase])
  }

  /** One step of process `p`. On a dialect without transactional DDL an effect and its row are two steps. */
  ghost function Step(transactional: bool, s: Cluster, p: nat, a: Action): Cluster
    requires p < |s.procs|
  {
    match (s.procs[p], a)
    case (Crashed, _) => s
    case (_, Crash) => Put(s, p, Crashed)
    case (Idle, Start(UpOp(order))) => if Ascending(order) then Put(s, p, Waiting(UpOp(order))) else s
    case (Idle, Start(op)) => Put(s, p, Waiting(op))
    case (Waiting(op), Advance) =>
      if s.holder.None? then Put(s.(holder := Some(p)), p, Holding(op)) else Put(s, p, Idle)
    case (Waiting(_), Fail) => Put(s, p, Idle)
    case (Holding(UpOp(order)), Advance) => Put(s, p, Pending(PendingOf(order, s.rows)))
    case (Pending(todo), Advance) =>
      Put(s, p, if todo == [] then Leaving else Applying(todo, NextOf(s.rows)))
    case (Applying(todo, batch), Advance) =>
      if todo == [] then Put(s, p, Leaving)
      else
        var e := Entry(todo[0], batch);
        var applied := s.(log := s.log + [e]);
        if transactional then Put(applied.(rows := s.rows + {e}), p, Applying(todo[1..], batch))
        else Put(applied, p, Recording(todo[0], todo[1..], batch))
    case (Recording(done, todo, batch), Advance) =>
      Put(s.(rows := s.rows + {Entry(done, batch)}), p, Applying(todo, batch))
    case (Holding(RollbackOp(known, step)), Advance) => Put(s, p, Targeting(known, step, Top(s.rows, step)))
    case (Targeting(known, step, targets), Advance) =>
      var chosen := set e | e in s.rows && e.batch in targets;
      Put(s, p, Undoing(known, Names(Reversed(Order(chosen)))))
    case (Undoing(known, todo), Advance) =>
      if todo == [] || todo[0] !in known then Put(s, p, Leaving)
      else
        var undone := s.(log := LogWithout(s.log, todo[0]));
        if transactional then Put(undone.(rows := Without(s.rows, todo[0])), p, Undoing(known, todo[1..]))
        else Put(undone, p, Erasing(known, todo[0], todo[1..]))
    case (Erasing(known, done, todo), Advance) => Put(s.(rows := Without(s.rows, done)), p, Undoing(known, todo))
    case (Leaving, Advance) => Put(s.(holder := None), p, Idle)
    case (Leaving, Fail) => Put(s, p, Idle)
    case (phase, Fail) => if Inside(phase) then Put(s, p, Leaving) else s
    case _ => s
  }

  ghost function Run(transactional: bool, s: Cluster, steps: seq<(nat, Action)>): Cluster
    requires forall i :: 0 <= i < |steps| ==> steps[i].0 < |s.procs|
    ensures |Run(transactional, s, steps).procs| == |s.procs|
  {
    if steps == [] then s
    else
      var before := Run(transactional, s, steps[..|steps| - 1]);
      var (p, a) := steps[|steps| - 1];
      StepKeepsProcs(transactional, before, p, a);
      Step(transactional, before, p, a)
  }

  lemma StepKeepsProcs(transactional: bool, s: Cluster, p: nat, a: Action)
    requires p < |s.procs|
    ensures |Step(transactional, s, p, a).procs| == |s.procs|
  {
  }

  function Initial(n: nat): Cluster {
    Cluster(None, {}, [], seq(n, i => Idle))
  }

  // ------------------------------------------------------------------ the lock

  /** Whoever is inside holds the lock row. */
  ghost predicate Exclusive(s: Cluster) {
    forall p :: 0 <= p < |s.procs| && Inside(s.procs[p]) ==> s.holder == Some(p)
  }

  lemma StepKeepsExclusive(transactional: bool, s: Cluster, p: nat, a: Action)
    requires p < |s.procs| && Exclusive(s)
    ensures Exclusive(Step(transactional, s, p, a))
  {
    var t := Step(transactional, s, p, a);
    forall q | 0 <= q < |t.procs| && Inside(t.procs[q]) ensures t.holder == Some(q) {
      if q != p {
        assert t.procs[q] == s.procs[q];
      }
    }
  }

  /** On every dialect, in every run, at most one process is inside the lock. */
  lemma {:induction false} AtMostOneInside(transactional: bool, n: nat, steps: seq<(nat, Action)>, p: nat, q: nat)
    requires forall i :: 0 <= i < |steps| ==> steps[i].0 < n
    requires
      var procs := Run(transactional, Initial(n), steps).procs;
      p < n && q < n && Inside(procs[p]) && Inside(procs[q])
    ensures p == q
  {
    RunKeepsExclusive(transactional, n, steps);
  }

  lemma {:induction false} RunKeepsExclusive(transactional: bool, n: nat, steps: seq<(nat, Action)>)
    requires forall i :: 0 <= i < |steps| ==> steps[i].0 < n
    ensures Exclusive(Run(transactional, Initial(n), steps))
  {
    if steps != [] {
      RunKeepsExclusive(transactional, n, steps[..|steps| - 1]);
      StepKeepsExclusive(transactional, Run(transactional, Initial(n), steps[..|steps| - 1]), steps[|steps| - 1].0,
                         steps[|steps| - 1].1);
    }
  }

  /** A process that dies inside leaves the row behind, and no later run ever gets in or touches anything. */
  lemma {:induction false} CrashInsideBlocks(transactional: bool, s: Cluster, p: nat, steps: seq<(nat, Action)>)
    requires p < |s.procs| && Exclusive(s) && s.holder == Some(p) && s.procs[p] == Crashed
    requires forall i :: 0 <= i < |steps| ==> steps[i].0 < |s.procs|
    ensures
      var t := Run(transactional, s, steps);
      t.holder == Some(p) && t.procs[p] == Crashed && Exclusive(t) && t.rows == s.rows && t.log == s.log
  {
    if steps != [] {
      var init, last := steps[..|steps| - 1], steps[|steps| - 1];
      CrashInsideBlocks(transactional, s, p, init);
      StepKeepsExclusive(transactional, Run(transactional, s, init), last.0, last.1);
    }
  }

  // ------------------------------------------------------- rows and effects

  /** What a process inside knows of the table, which nobody else can change meanwhile. */
  ghost predicate Sound(rows: set<Entry>, log: seq<Entry>, phase: Phase) {
    match phase
    case Waiting(UpOp(order)) => Ascending(order)
    case Holding(UpOp(order)) => Ascending(order)
    case Pending(todo) => Ascending(todo) && forall n <- todo :: n !in RowNames(rows)
    case Applying(todo, batch) => Ascending(todo) && Ahead(log, todo, batch)
    case Targeting(known, step, targets) => targets == Top(rows, step)
    case Undoing(known, todo) => |todo| <= |log| && todo == Names(Reversed(log[|log| - |todo|..]))
    case Recording(_, _, _) => false
    case Erasing(_, _, _) => false
    case _ => true
  }

  /** The effects are the rows, and the order of application is the order by batch and name. */
  ghost predicate Consistent(s: Cluster) {
    && Exclusive(s)
    && IsHistory(s.log, s.rows) && UniqueNames(s.log)
    && forall p :: 0 <= p < |s.procs| ==> Sound(s.rows, s.log, s.procs[p])
  }

  lemma {:induction false} PendingIsAscending(order: seq<string>, rows: set<Entry>)
    requires Ascending(order)
    ensures Ascending(PendingOf(order, rows))
    ensures forall n :: n in PendingOf(order, rows) <==> n in order && n !in RowNames(rows)
  {
    if order != [] {
      var init, last := order[..|order| - 1], order[|order| - 1];
      PendingIsAscending(init, rows);
      assert order == init + [last];
      forall n | n in init ensures Less(n, last) {
        var i :| 0 <= i < |init| && init[i] == n;
        assert order[i] == n;
      }
    }
  }

  /** With unique names the effect undone is the one of that name, and undoing the last is dropping it. */
  lemma LogWithoutLast(log: seq<Entry>, rows: set<Entry>)
    requires log != [] && UniqueNames(log) && IsHistory(log, rows)
    ensures
      var init, last := log[..|log| - 1], log[|log| - 1];
      LogWithout(log, last.name) == init && IsHistory(init, Without(rows, last.name))
  {
    var last := log[|log| - 1];
    HistoryWithoutLast(log, rows);
    forall e: Entry | e in rows ensures e.name == last.name <==> e == last {
      var i :| 0 <= i < |log| && log[i] == e;
    }
    assert Without(rows, last.name) == rows - {last};
  }

  /** The others hear nothing of a step that changes rows or effects: it is taken inside. */
  lemma OthersStaySound(s: Cluster, t: Cluster, p: nat)
    requires p < |s.procs| == |t.procs| && Consistent(s) && s.holder == Some(p)
    requires forall q :: 0 <= q < |s.procs| && q != p ==> t.procs[q] == s.procs[q]
    requires Sound(t.rows, t.log, t.procs[p])
    ensures forall q :: 0 <= q < |t.procs| ==> Sound(t.rows, t.log, t.procs[q])
  {
    forall q | 0 <= q < |t.procs| ensures Sound(t.rows, t.log, t.procs[q]) {
      if q != p {
        assert !Inside(s.procs[q]) && Sound(s.rows, s.log, s.procs[q]);
      }
    }
  }

  /** Steps that touch neither rows nor effects. */
  predicate Quiet(phase: Phase, a: Action) {
    !a.Advance? || !((phase.Applying? || phase.Undoing?) && phase.todo != [])
  }

  lemma QuietStep(s: Cluster, p: nat, a: Action)
    requires p < |s.procs| && Consistent(s) && Quiet(s.procs[p], a)
    ensures
      var t := Step(true, s, p, a);
      t.rows == s.rows && t.log == s.log && Sound(t.rows, t.log, t.procs[p])
  {
    assert Sound(s.rows, s.log, s.procs[p]);
    match (s.procs[p], a)
    case (Holding(UpOp(order)), Advance) => PendingIsAscending(order, s.rows);
    case (Pending(todo), Advance) => PendingIsAhead(s.rows, s.log, todo);
    case (Targeting(known, step, targets), Advance) => PlanIsTail(s.rows, s.log, step);
    case _ =>
  }

  lemma PendingIsAhead(rows: set<Entry>, log: seq<Entry>, todo: seq<string>)
    requires IsHistory(log, rows) && Ascending(todo) && forall n <- todo :: n !in RowNames(rows)
    ensures Ahead(log, todo, NextOf(rows))
  {
    forall e, m | e in log && m in todo ensures e.name != m && Before(e, Entry(m, NextOf(rows))) {
      assert e in rows && e.name in RowNames(rows);
    }
  }

  lemma PlanIsTail(rows: set<Entry>, log: seq<Entry>, step: Option<nat>)
    requires IsHistory(log, rows)
    ensures
      var todo := Names(Reversed(Order(set e | e in rows && e.batch in Top(rows, step))));
      && |todo| <= |log| && todo == Names(Reversed(log[|log| - |todo|..]))
      && todo == Names(Undo(rows, step))
  {
    var chosen := set e | e in rows && e.batch in Top(rows, step);
    SuffixIsHistory(log, rows, step);
    HistoryIsUnique(Order(chosen), log[Cut(log, Top(rows, step))..], chosen);
    HistoryIsUnique(log, Order(rows), rows);
  }

  /** One migration applied, or undone, inside its transaction. */
  lemma ApplyStep(s: Cluster, p: nat)
    requires p < |s.procs| && Consistent(s) && s.procs[p].Applying? && s.procs[p].todo != []
    ensures
      var t := Step(true, s, p, Advance);
      IsHistory(t.log, t.rows) && UniqueNames(t.log) && Sound(t.rows, t.log, t.procs[p])
  {
    var todo, batch := s.procs[p].todo, s.procs[p].batch;
    assert Sound(s.rows, s.log, s.procs[p]) && todo[0] in todo;
    AppendKeepsHistory(s.log, s.rows, Entry(todo[0], batch));
    StillAhead(s.log, todo, batch);
  }

  lemma UndoStep(s: Cluster, p: nat)
    requires p < |s.procs| && Consistent(s) && s.procs[p].Undoing? && s.procs[p].todo != []
    ensures
      var t := Step(true, s, p, Advance);
      IsHistory(t.log, t.rows) && UniqueNames(t.log) && Sound(t.rows, t.log, t.procs[p])
  {
    var todo, log := s.procs[p].todo, s.log;
    assert Sound(s.rows, log, s.procs[p]);
    assert todo[0] == log[|log| - 1].name;
    if todo[0] in s.procs[p].known {
      LogWithoutLast(log, s.rows);
      var init := log[..|log| - 1];
      assert todo[1..] == Names(Reversed(init[|init| - |todo[1..]|..]));
    }
  }

  lemma StepKeepsConsistent(s: Cluster, p: nat, a: Action)
    requires p < |s.procs| && Consistent(s)
    ensures Consistent(Step(true, s, p, a))
  {
    var t := Step(true, s, p, a);
    StepKeepsExclusive(true, s, p, a);
    if Quiet(s.procs[p], a) {
      QuietStep(s, p, a);
      forall q | 0 <= q < |t.procs| ensures Sound(t.rows, t.log, t.procs[q]) {
        if q != p { assert Sound(s.rows, s.log, s.procs[q]); }
      }
    } else {
      if s.procs[p].Applying? { ApplyStep(s, p); } else { UndoStep(s, p); }
      OthersStaySound(s, t, p);
    }
  }

  /**
   * On a dialect with transactional DDL, whatever the interleaving, failures and crashes: the effects in the
   * schema are exactly the recorded migrations, each once, in the order by batch and name.
   */
  lemma {:induction false} RunsAreConsistent(n: nat, steps: seq<(nat, Action)>)
    requires forall i :: 0 <= i < |steps| ==> steps[i].0 < n
    ensures Consistent(Run(true, Initial(n), steps))
  {
    if steps != [] {
      RunsAreConsistent(n, steps[..|steps| - 1]);
      StepKeepsConsistent(Run(true, Initial(n), steps[..|steps| - 1]), steps[|steps| - 1].0, steps[|steps| - 1].1);
    }
  }

  lemma {:induction false} RunConcat(transactional: bool, s: Cluster, first: seq<(nat, Action)>,
                                     later: seq<(nat, Action)>)
    requires forall i :: 0 <= i < |first| ==> first[i].0 < |s.procs|
    requires forall i :: 0 <= i < |later| ==> later[i].0 < |s.procs|
    ensures Run(transactional, s, first + later) == Run(transactional, Run(transactional, s, first), later)
  {
    if later == [] {
      assert first + later == first;
    } else {
      RunConcat(transactional, s, first, later[..|later| - 1]);
      assert (first + later)[..|first + later| - 1] == first + later[..|later| - 1];
    }
  }

  lemma RunOnce(transactional: bool, s: Cluster, p: nat, a: Action)
    requires p < |s.procs|
    ensures Run(transactional, s, [(p, a)]) == Step(transactional, s, p, a)
  {
    assert [(p, a)][..0] == [];
  }

  // ---------------------------------------------------------- a process left alone

  ghost predicate OnlyBy(steps: seq<(nat, Action)>, p: nat) {
    forall i :: 0 <= i < |steps| ==> steps[i].0 == p && !steps[i].1.Fail? && !steps[i].1.Crash?
  }

  /** One more step before the rest. */
  lemma Going(transactional: bool, s: Cluster, p: nat, a: Action, rest: seq<(nat, Action)>)
    requires p < |s.procs| && OnlyBy(rest, p) && !a.Fail? && !a.Crash?
    ensures OnlyBy([(p, a)] + rest, p) && |Step(transactional, s, p, a).procs| == |s.procs|
    ensures Run(transactional, s, [(p, a)] + rest) == Run(transactional, Step(transactional, s, p, a), rest)
  {
    StepKeepsProcs(transactional, s, p, a);
    RunOnce(transactional, s, p, a);
    RunConcat(transactional, s, [(p, a)], rest);
  }

  lemma PutTwice(s: Cluster, p: nat, a: Phase, b: Phase)
    requires p < |s.procs|
    ensures s.procs[p := a][p := b] == s.procs[p := b]
  {
  }

  function Finished(s: Cluster, p: nat, rows: set<Entry>, log: seq<Entry>): Cluster
    requires p < |s.procs|
  {
    Put(s.(rows := rows, log := log), p, Leaving)
  }

  /** One migration applied in one step, or in two. */
  lemma OneApplied(transactional: bool, s: Cluster, p: nat, rest: seq<(nat, Action)>)
    returns (steps: seq<(nat, Action)>)
    requires p < |s.procs| && s.procs[p].Applying? && s.procs[p].todo != [] && OnlyBy(rest, p)
    ensures OnlyBy(steps, p)
    ensures
      var e, todo := Entry(s.procs[p].todo[0], s.procs[p].batch), s.procs[p].todo[1..];
      Run(transactional, s, steps)
      == Run(transactional, Put(s.(rows := s.rows + {e}, log := s.log + [e]), p, Applying(todo, e.batch)), rest)
  {
    steps := rest;
    if !transactional {
      PutTwice(s, p, Recording(s.procs[p].todo[0], s.procs[p].todo[1..], s.procs[p].batch),
               Applying(s.procs[p].todo[1..], s.procs[p].batch));
      Going(transactional, Step(transactional, s, p, Advance), p, Advance, steps);
      steps := [(p, Advance)] + steps;
    }
    Going(transactional, s, p, Advance, steps);
    steps := [(p, Advance)] + steps;
  }

  lemma {:induction false} AllApplied(transactional: bool, s: Cluster, p: nat) returns (steps: seq<(nat, Action)>)
    requires p < |s.procs| && s.procs[p].Applying?
    ensures OnlyBy(steps, p)
    ensures
      var done := Batch(s.procs[p].todo, s.procs[p].batch);
      Run(transactional, s, steps) == Finished(s, p, s.rows + Elements(done), s.log + done)
    decreases |s.procs[p].todo|
  {
    var todo, batch := s.procs[p].todo, s.procs[p].batch;
    if todo == [] {
      Going(transactional, s, p, Advance, []);
      steps := [(p, Advance)] + [];
      assert s.rows + Elements(Batch([], batch)) == s.rows && s.log + Batch([], batch) == s.log;
    } else {
      var e := Entry(todo[0], batch);
      var s' := Put(s.(rows := s.rows + {e}, log := s.log + [e]), p, Applying(todo[1..], batch));
      var rest := AllApplied(transactional, s', p);
      steps := OneApplied(transactional, s, p, rest);
      PutTwice(s, p, s'.procs[p], Leaving);
      BatchCons(s.rows, s.log, todo, batch);
    }
  }

  lemma ElementsCons(e: Entry, later: seq<Entry>)
    ensures Elements([e] + later) == {e} + Elements(later)
  {
  }

  lemma BatchCons(rows: set<Entry>, log: seq<Entry>, todo: seq<string>, batch: nat)
    requires todo != []
    ensures
      var e, later := Entry(todo[0], batch), Batch(todo[1..], batch);
      && rows + Elements(Batch(todo, batch)) == rows + {e} + Elements(later)
      && log + Batch(todo, batch) == log + [e] + later
  {
    var e, later := Entry(todo[0], batch), Batch(todo[1..], batch);
    assert Batch(todo, batch) == [e] + later;
    ElementsCons(e, later);
    assert log + ([e] + later) == log + [e] + later;
  }

  /** Taking the lock, and letting go of it at the end. */
  lemma Enclosed(transactional: bool, s: Cluster, p: nat, op: Op, rows: set<Entry>, log: seq<Entry>,
                 inside: seq<(nat, Action)>) returns (steps: seq<(nat, Action)>)
    requires p < |s.procs| && s.procs[p] == Idle && s.holder == None && (op.UpOp? ==> Ascending(op.order))
    requires OnlyBy(inside, p)
    requires Run(transactional, Put(s.(holder := Some(p)), p, Holding(op)), inside)
          == Finished(s.(holder := Some(p)), p, rows, log)
    ensures OnlyBy(steps, p) && Run(transactional, s, steps) == s.(rows := rows, log := log)
  {
    var last := Finished(s.(holder := Some(p)), p, rows, log);
    var held := Put(s.(holder := Some(p)), p, Holding(op));
    RunOnce(transactional, last, p, Advance);
    RunConcat(transactional, held, inside, [(p, Advance)]);
    steps := inside + [(p, Advance)];
    PutTwice(s, p, Leaving, Idle);
    PutTwice(s, p, Holding(op), Leaving);
    PutTwice(s, p, Waiting(op), Holding(op));
    Going(transactional, Put(s, p, Waiting(op)), p, Advance, steps);
    steps := [(p, Advance)] + steps;
    Going(transactional, s, p, Start(op), steps);
    steps := [(p, Start(op))] + steps;
    assert s.procs[p := Idle] == s.procs;
  }

  /**
   * A run of `up` that nothing disturbs applies and records all that is pending, under one new batch, and lets go of
   * the lock, on every dialect.
   */
  lemma UpRunsThrough(transactional: bool, s: Cluster, p: nat, order: seq<string>) returns (steps: seq<(nat, Action)>)
    requires p < |s.procs| && s.procs[p] == Idle && s.holder == None && Ascending(order)
    ensures OnlyBy(steps, p) && forall n :: n in PendingOf(order, s.rows) <==> n in order && n !in RowNames(s.rows)
    ensures
      var done := Batch(PendingOf(order, s.rows), NextOf(s.rows));
      Run(transactional, s, steps) == s.(rows := s.rows + Elements(done), log := s.log + done)
  {
    var todo, batch := PendingOf(order, s.rows), NextOf(s.rows);
    PendingIsAscending(order, s.rows);
    var held := Put(s.(holder := Some(p)), p, Holding(UpOp(order)));
    var read := Put(held, p, Pending(todo));
    var inside: seq<(nat, Action)> := [];
    if todo == [] {
      assert s.rows + Elements(Batch(todo, batch)) == s.rows && s.log + Batch(todo, batch) == s.log;
    } else {
      inside := AllApplied(transactional, Put(read, p, Applying(todo, batch)), p);
    }
    Going(transactional, read, p, Advance, inside);
    inside := [(p, Advance)] + inside;
    Going(transactional, held, p, Advance, inside);
    inside := [(p, Advance)] + inside;
    steps := Enclosed(transactional, s, p, UpOp(order), s.rows + Elements(Batch(todo, batch)),
                      s.log + Batch(todo, batch), inside);
  }

  /** One migration undone in one step, or in two. */
  lemma OneUndone(transactional: bool, s: Cluster, p: nat, rest: seq<(nat, Action)>) returns (steps: seq<(nat, Action)>)
    requires p < |s.procs| && s.procs[p].Undoing? && s.procs[p].todo != [] && s.procs[p].todo[0] in s.procs[p].known
    requires OnlyBy(rest, p)
    ensures OnlyBy(steps, p)
    ensures
      var name, left := s.procs[p].todo[0], Undoing(s.procs[p].known, s.procs[p].todo[1..]);
      Run(transactional, s, steps)
      == Run(transactional, Put(s.(rows := Without(s.rows, name), log := LogWithout(s.log, name)), p, left), rest)
  {
    var name, left := s.procs[p].todo[0], Undoing(s.procs[p].known, s.procs[p].todo[1..]);
    steps := rest;
    if !transactional {
      PutTwice(s, p, Erasing(s.procs[p].known, name, s.procs[p].todo[1..]), left);
      Going(transactional, Step(transactional, s, p, Advance), p, Advance, steps);
      steps := [(p, Advance)] + steps;
    }
    Going(transactional, s, p, Advance, steps);
    steps := [(p, Advance)] + steps;
  }

  /** The names left to undo are the latest of the history, last first. */
  ghost predicate Latest(log: seq<Entry>, rows: set<Entry>, known: set<string>, todo: seq<string>) {
    && IsHistory(log, rows) && UniqueNames(log) && (forall n <- todo :: n in known)
    && |todo| <= |log| && todo == Names(Reversed(log[|log| - |todo|..]))
  }

  lemma LatestIsLast(log: seq<Entry>, rows: set<Entry>, known: set<string>, todo: seq<string>)
    requires Latest(log, rows, known, todo) && todo != []
    ensures todo[0] in known && LogWithout(log, todo[0]) == log[..|log| - 1]
    ensures Latest(log[..|log| - 1], Without(rows, todo[0]), known, todo[1..])
  {
    var init := log[..|log| - 1];
    assert todo[0] in todo && todo[0] == log[|log| - 1].name;
    LogWithoutLast(log, rows);
    assert todo[1..] == Names(Reversed(init[|init| - |todo[1..]|..]));
  }

  lemma WholeLog(log: seq<Entry>, rows: set<Entry>)
    requires IsHistory(log, rows)
    ensures log[..|log|] == log && Elements(log) == rows
  {
  }

  lemma ShorterLog(log: seq<Entry>, n: nat)
    requires 0 < n <= |log|
    ensures log[..|log| - 1][..|log| - 1 - (n - 1)] == log[..|log| - n]
  {
  }

  lemma {:induction false} AllUndone(transactional: bool, s: Cluster, p: nat) returns (steps: seq<(nat, Action)>)
    requires p < |s.procs| && s.procs[p].Undoing? && Latest(s.log, s.rows, s.procs[p].known, s.procs[p].todo)
    ensures OnlyBy(steps, p)
    ensures
      var left := s.log[..|s.log| - |s.procs[p].todo|];
      Run(transactional, s, steps) == Finished(s, p, Elements(left), left)
    decreases |s.procs[p].todo|
  {
    var known, todo := s.procs[p].known, s.procs[p].todo;
    if todo == [] {
      Going(transactional, s, p, Advance, []);
      steps := [(p, Advance)] + [];
      WholeLog(s.log, s.rows);
    } else {
      LatestIsLast(s.log, s.rows, known, todo);
      ShorterLog(s.log, |todo|);
      var init := s.log[..|s.log| - 1];
      var s' := Put(s.(rows := Without(s.rows, todo[0]), log := init), p, Undoing(known, todo[1..]));
      var rest := AllUndone(transactional, s', p);
      steps := OneUndone(transactional, s, p, rest);
      PutTwice(s, p, s'.procs[p], Leaving);
    }
  }

  lemma ElementsReversed(h: seq<Entry>)
    ensures Elements(Reversed(h)) == Elements(h)
  {
    forall e ensures e in Reversed(h) <==> e in h {
      InReversed(h, e);
    }
  }

  lemma ElementsBefore(log: seq<Entry>, k: nat)
    requires UniqueNames(log) && k <= |log|
    ensures Elements(log[..k]) == Elements(log) - Elements(log[k..])
  {
    assert log == log[..k] + log[k..];
    forall e | e in log[..k] ensures e !in log[k..] {
      var i :| 0 <= i < k && log[i] == e;
      assert forall j :: k <= j < |log| ==> log[j].name != log[i].name;
    }
  }

  /** The plan of a rollback is the history from some place on, last first. */
  lemma PlanFrom(log: seq<Entry>, rows: set<Entry>, step: Option<nat>) returns (k: nat)
    requires IsHistory(log, rows)
    ensures k <= |log| && Undo(rows, step) == Reversed(log[k..])
  {
    HistoryIsUnique(log, Order(rows), rows);
    k := Cut(log, Top(rows, step));
  }

  lemma UndoingEnds(transactional: bool, s: Cluster, p: nat, k: nat) returns (steps: seq<(nat, Action)>)
    requires p < |s.procs| && s.procs[p].Undoing? && RowNames(s.rows) <= s.procs[p].known
    requires IsHistory(s.log, s.rows) && UniqueNames(s.log) && k <= |s.log|
    requires s.procs[p].todo == Names(Reversed(s.log[k..]))
    ensures OnlyBy(steps, p)
    ensures Run(transactional, s, steps) == Finished(s, p, s.rows - Elements(Reversed(s.log[k..])), s.log[..k])
  {
    AllKnown(s.log, s.rows, s.procs[p].known, k);
    steps := AllUndone(transactional, s, p);
    ElementsReversed(s.log[k..]);
    ElementsBefore(s.log, k);
    assert Elements(s.log) == s.rows;
  }

  lemma AllKnown(log: seq<Entry>, rows: set<Entry>, known: set<string>, k: nat)
    requires IsHistory(log, rows) && RowNames(rows) <= known && k <= |log|
    ensures forall n <- Names(Reversed(log[k..])) :: n in known
  {
    var plan := Reversed(log[k..]);
    forall n | n in Names(plan) ensures n in known {
      var i :| 0 <= i < |plan| && plan[i].name == n;
      assert log[|log| - 1 - i] == plan[i];
      assert plan[i] in rows;
    }
  }

  lemma Aiming(transactional: bool, s: Cluster, p: nat, inside: seq<(nat, Action)>) returns (steps: seq<(nat, Action)>)
    requires p < |s.procs| && s.procs[p].Holding? && s.procs[p].op.RollbackOp? && IsHistory(s.log, s.rows)
    requires OnlyBy(inside, p)
    ensures OnlyBy(steps, p)
    ensures
      var op := s.procs[p].op;
      Run(transactional, s, steps)
      == Run(transactional, Put(s, p, Undoing(op.known, Names(Undo(s.rows, op.step)))), inside)
  {
    var op := s.procs[p].op;
    var aimed := Targeting(op.known, op.step, Top(s.rows, op.step));
    PlanIsTail(s.rows, s.log, op.step);
    PutTwice(s, p, aimed, Undoing(op.known, Names(Undo(s.rows, op.step))));
    Going(transactional, Put(s, p, aimed), p, Advance, inside);
    steps := [(p, Advance)] + inside;
    Going(transactional, s, p, Advance, steps);
    steps := [(p, Advance)] + steps;
  }

  lemma HeldRollbackEnds(transactional: bool, s: Cluster, p: nat, k: nat) returns (steps: seq<(nat, Action)>)
    requires p < |s.procs| && s.procs[p].Holding? && s.procs[p].op.RollbackOp?
    requires RowNames(s.rows) <= s.procs[p].op.known
    requires IsHistory(s.log, s.rows) && UniqueNames(s.log) && k <= |s.log|
    requires Undo(s.rows, s.procs[p].op.step) == Reversed(s.log[k..])
    ensures OnlyBy(steps, p)
    ensures Run(transactional, s, steps) == Finished(s, p, s.rows - Elements(Reversed(s.log[k..])), s.log[..k])
  {
    var undoing := Undoing(s.procs[p].op.known, Names(Reversed(s.log[k..])));
    var inside := UndoingEnds(transactional, Put(s, p, undoing), p, k);
    PutTwice(s, p, undoing, Leaving);
    steps := Aiming(transactional, s, p, inside);
  }

  lemma RollbackEnds(transactional: bool, s: Cluster, p: nat, known: set<string>, step: Option<nat>, k: nat)
    returns (steps: seq<(nat, Action)>)
    requires p < |s.procs| && s.procs[p] == Idle && s.holder == None && RowNames(s.rows) <= known
    requires IsHistory(s.log, s.rows) && UniqueNames(s.log) && k <= |s.log|
    requires Undo(s.rows, step) == Reversed(s.log[k..])
    ensures OnlyBy(steps, p)
    ensures Run(transactional, s, steps) == s.(rows := s.rows - Elements(Undo(s.rows, step)), log := s.log[..k])
  {
    var op := RollbackOp(known, step);
    var inside := HeldRollbackEnds(transactional, Put(s.(holder := Some(p)), p, Holding(op)), p, k);
    PutTwice(s, p, Holding(op), Leaving);
    steps := Enclosed(transactional, s, p, op, s.rows - Elements(Reversed(s.log[k..])), s.log[..k], inside);
  }

  lemma TailParts(log: seq<Entry>, k: nat)
    requires k <= |log|
    ensures log == log[..k] + Reversed(Reversed(log[k..]))
  {
  }

  /**
   * A rollback that nothing disturbs and that knows every name takes exactly the asked number of batches off the end
   * of the history, effects and rows, and lets go of the lock, on every dialect.
   */
  lemma RollbackRunsThrough(transactional: bool, s: Cluster, p: nat, known: set<string>, step: Option<nat>)
    returns (steps: seq<(nat, Action)>, plan: seq<Entry>, left: seq<Entry>)
    requires p < |s.procs| && s.procs[p] == Idle && s.holder == None && RowNames(s.rows) <= known
    requires IsHistory(s.log, s.rows) && UniqueNames(s.log)
    ensures OnlyBy(steps, p) && TakesBatches(plan, s.rows, step) && s.log == left + Reversed(plan)
    ensures Run(transactional, s, steps) == s.(rows := s.rows - Elements(plan), log := left)
  {
    var k := PlanFrom(s.log, s.rows, step);
    plan, left := Undo(s.rows, step), s.log[..k];
    TailParts(s.log, k);
    UndoTakesBatches(s.rows, step);
    steps := RollbackEnds(transactional, s, p, known, step, k);
  }

  /** A failure inside is followed by letting go of the lock, and keeps what is recorded. */
  lemma FailureLetsGo(transactional: bool, s: Cluster, p: nat)
    requires p < |s.procs| && Inside(s.procs[p]) && !s.procs[p].Leaving?
    ensures Run(transactional, s, [(p, Fail)] + [(p, Advance)]) == Put(s.(holder := None), p, Idle)
  {
    RunOnce(transactional, s, p, Fail);
    RunOnce(transactional, Put(s, p, Leaving), p, Advance);
    RunConcat(transactional, s, [(p, Fail)], [(p, Advance)]);
    PutTwice(s, p, Leaving, Idle);
  }

  /** A run that finds the lock held ends there and then; a release that fails, or a crash, leaves the row behind. */
  lemma HeldLockStays(transactional: bool, s: Cluster, p: nat, op: Op)
    requires p < |s.procs| && s.holder.Some?
    ensures s.procs[p] == Waiting(op) ==> Step(transactional, s, p, Advance) == Put(s, p, Idle)
    ensures s.procs[p] == Leaving ==> Step(transactional, s, p, Fail) == Put(s, p, Idle)
    ensures s.procs[p] != Crashed ==> Step(transactional, s, p, Crash) == Put(s, p, Crashed)
  {
  }

  const UNTIL_READ: seq<(nat, Action)> := [(0, Start(UpOp(["a"])))] + [(0, Advance)] + [(0, Advance)]

  /** Up to the effect of its only migration, and before the row. */
  const UNTIL_EFFECT: seq<(nat, Action)> := UNTIL_READ + [(0, Advance)] + [(0, Advance)]

  lemma StartsPending(s: Cluster)
    requires s.procs == [Idle] && s.holder == None && s.rows == {}
    ensures Run(false, s, UNTIL_READ) == Cluster(Some(0), {}, s.log, [Pending(["a"])])
  {
    var s1 := Step(false, s, 0, Start(UpOp(["a"])));
    var s2 := Step(false, s1, 0, Advance);
    assert Ascending(["a"]) && s1.procs == [Waiting(UpOp(["a"]))] && s2.procs == [Holding(UpOp(["a"]))];
    assert ["a"][..0] == [] && PendingOf([], {}) == [] && PendingOf(["a"], {}) == ["a"];
    RunOnce(false, s, 0, Start(UpOp(["a"])));
    RunConcat(false, s, [(0, Start(UpOp(["a"])))], [(0, Advance)]);
    RunOnce(false, s1, 0, Advance);
    RunConcat(false, s, [(0, Start(UpOp(["a"])))] + [(0, Advance)], [(0, Advance)]);
    RunOnce(false, s2, 0, Advance);
  }

  lemma EffectWithoutRow(s: Cluster)
    requires s.procs == [Idle] && s.holder == None && s.rows == {}
    ensures
      var batch := NextOf({});
      Run(false, s, UNTIL_EFFECT) == Cluster(Some(0), {}, s.log + [Entry("a", batch)], [Recording("a", [], batch)])
  {
    var batch := NextOf({});
    var s3 := Cluster(Some(0), {}, s.log, [Pending(["a"])]);
    var s4 := Step(false, s3, 0, Advance);
    var s5 := Step(false, s4, 0, Advance);
    StartsPending(s);
    assert s4.procs == [Applying(["a"], batch)] && ["a"][1..] == [];
    assert s5.procs == [Recording("a", [], batch)];
    RunConcat(false, s, UNTIL_READ, [(0, Advance)]);
    RunOnce(false, s3, 0, Advance);
    RunConcat(false, s, UNTIL_READ + [(0, Advance)], [(0, Advance)]);
    RunOnce(false, s4, 0, Advance);
  }

  /** Where effect and row are two steps, a failure between them makes the next run apply the migration again. */
  lemma SplitStepsApplyTwice()
    ensures
      var t := Run(false, Initial(1), UNTIL_EFFECT + [(0, Fail), (0, Advance)] + UNTIL_EFFECT);
      t.rows == {} && t.log == [Entry("a", NextOf({})), Entry("a", NextOf({}))]
  {
    var s := Run(false, Initial(1), UNTIL_EFFECT);
    assert Initial(1).procs == [Idle];
    EffectWithoutRow(Initial(1));
    var s1 := Step(false, s, 0, Fail);
    var s2 := Step(false, s1, 0, Advance);
    assert s2.procs == [Idle];
    RunOnce(false, s, 0, Fail);
    RunOnce(false, s1, 0, Advance);
    RunConcat(false, s, [(0, Fail)], [(0, Advance)]);
    assert [(0, Fail)] + [(0, Advance)] == [(0, Fail), (0, Advance)];
    RunConcat(false, Initial(1), UNTIL_EFFECT, [(0, Fail), (0, Advance)]);
    RunConcat(false, Initial(1), UNTIL_EFFECT + [(0, Fail), (0, Advance)], UNTIL_EFFECT);
    EffectWithoutRow(s2);
  }
}
