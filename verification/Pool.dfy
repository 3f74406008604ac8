/** `pooled`: workers that share one cursor, whatever the order in which their tasks settle. */
module Pool {
  import opened Text

  datatype Outcome<T> = Value(value: T) | Failed(error: string)

  datatype Worker = Ready | Running(index: nat) | Done

  /** `started` counts how often each task was called. */
  datatype State<T> = State(cursor: nat, workers: seq<Worker>, results: seq<Option<Outcome<T>>>, started: seq<nat>)

  /** The worker's next move: take an index, or settle the task it runs. */
  function Step<T>(tasks: seq<Outcome<T>>, s: State<T>, w: nat): State<T>
    requires w < |s.workers| && |s.results| == |s.started| == |tasks|
    requires s.workers[w].Running? ==> s.workers[w].index < |tasks|
  {
    match s.workers[w]
    case Ready =>
      if s.cursor < |tasks| then
        s.(cursor := s.cursor + 1, workers := s.workers[w := Running(s.cursor)],
           started := s.started[s.cursor := s.started[s.cursor] + 1])
      else s.(cursor := s.cursor + 1, workers := s.workers[w := Done])
    case Running(i) => s.(workers := s.workers[w := Ready], results := s.results[i := Some(tasks[i])])
    case Done => s
  }

  function Least(a: nat, b: nat): nat { if a < b then a else b }

  /** As many workers as the limit allows and there are tasks; no limit means one a task. */
  function Initial<T>(tasks: seq<Outcome<T>>, concurrency: Option<nat>): State<T> {
    var limit := match concurrency case None => |tasks| case Some(c) => c;
    State(0, seq(Least(limit, |tasks|), i => Ready), seq(|tasks|, i => None), seq(|tasks|, i => 0))
  }

  ghost predicate Settled<T>(tasks: seq<Outcome<T>>, s: State<T>, i: nat)
    requires i < |tasks| == |s.results|
  {
    s.results[i] == Some(tasks[i])
  }

  /** An index below the cursor was called once and is running or settled; one above was not called. */
  ghost predicate Orderly<T>(tasks: seq<Outcome<T>>, s: State<T>) {
    && |s.results| == |s.started| == |tasks|
    && (forall w :: 0 <= w < |s.workers| && s.workers[w].Running? ==> s.workers[w].index < s.cursor)
    && (forall w :: 0 <= w < |s.workers| && s.workers[w].Running? ==> s.workers[w].index < |tasks|)
    && (forall v, w :: 0 <= v < w < |s.workers| && s.workers[v].Running? && s.workers[w].Running? ==>
          s.workers[v].index != s.workers[w].index)
    && (forall w :: 0 <= w < |s.workers| && s.workers[w].Done? ==> s.cursor > |tasks|)
    && forall i :: 0 <= i < |tasks| ==>
         && s.started[i] == (if i < s.cursor then 1 else 0)
         && (s.results[i] == None || Settled(tasks, s, i))
         && (i < s.cursor ==> Settled(tasks, s, i) || exists w :: 0 <= w < |s.workers| && s.workers[w] == Running(i))
  }

  lemma StepKeepsOrderly<T>(tasks: seq<Outcome<T>>, s: State<T>, w: nat)
    requires Orderly(tasks, s) && w < |s.workers|
    ensures Orderly(tasks, Step(tasks, s, w))
  {
    var t := Step(tasks, s, w);
    forall i | 0 <= i < |tasks| && i < t.cursor
      ensures Settled(tasks, t, i) || exists v :: 0 <= v < |t.workers| && t.workers[v] == Running(i)
    {
      if s.workers[w].Ready? && i == s.cursor {
        assert t.workers[w] == Running(i);
      } else if !Settled(tasks, s, i) {
        var v :| 0 <= v < |s.workers| && s.workers[v] == Running(i);
        assert v != w ==> t.workers[v] == Running(i);
      }
    }
  }

  ghost function Run<T>(tasks: seq<Outcome<T>>, concurrency: Option<nat>, moves: seq<nat>): (s: State<T>)
    requires forall i :: 0 <= i < |moves| ==> moves[i] < |Initial(tasks, concurrency).workers|
    ensures Orderly(tasks, s) && |s.workers| == |Initial(tasks, concurrency).workers|
  {
    if moves == [] then Initial(tasks, concurrency)
    else
      var before := Run(tasks, concurrency, moves[..|moves| - 1]);
      StepKeepsOrderly(tasks, before, moves[|moves| - 1]);
      Step(tasks, before, moves[|moves| - 1])
  }

  function InFlight(workers: seq<Worker>): nat {
    if workers == [] then 0
    else InFlight(workers[..|workers| - 1]) + if workers[|workers| - 1].Running? then 1 else 0
  }

  lemma {:induction false} InFlightBound(workers: seq<Worker>)
    ensures InFlight(workers) <= |workers|
  {
    if workers != [] {
      InFlightBound(workers[..|workers| - 1]);
    }
  }

  /** At any point of any run: no task called twice, no more in flight than the limit, no result but a task's own. */
  lemma RunsAreOrderly<T>(tasks: seq<Outcome<T>>, concurrency: Option<nat>, moves: seq<nat>)
    requires forall i :: 0 <= i < |moves| ==> moves[i] < |Initial(tasks, concurrency).workers|
    ensures
      var s := Run(tasks, concurrency, moves);
      && (forall i :: 0 <= i < |tasks| ==>
            s.started[i] <= 1 && (s.results[i] == None || s.results[i] == Some(tasks[i])))
      && InFlight(s.workers) <= |tasks| && (concurrency.Some? ==> InFlight(s.workers) <= concurrency.value)
  {
    InFlightBound(Run(tasks, concurrency, moves).workers);
  }

  /** When every worker has returned, every task was called exactly once and its slot holds its own outcome. */
  lemma FinishedRunIsComplete<T>(tasks: seq<Outcome<T>>, concurrency: Option<nat>, moves: seq<nat>)
    requires concurrency.Some? ==> concurrency.value >= 1
    requires forall i :: 0 <= i < |moves| ==> moves[i] < |Initial(tasks, concurrency).workers|
    requires forall w :: 0 <= w < |Run(tasks, concurrency, moves).workers| ==>
      Run(tasks, concurrency, moves).workers[w] == Done
    ensures
      var s := Run(tasks, concurrency, moves);
      forall i :: 0 <= i < |tasks| ==> s.started[i] == 1 && s.results[i] == Some(tasks[i])
  {
    var s := Run(tasks, concurrency, moves);
    if |tasks| > 0 {
      assert s.workers[0] == Done;
    }
  }

  /** The first `k` workers take a task each. */
  ghost predicate Started<T>(tasks: seq<Outcome<T>>, s: State<T>, k: nat) {
    && s.cursor == k <= |tasks| && |s.results| == |s.started| == |tasks| && k <= |s.workers|
    && forall w :: 0 <= w < |s.workers| ==> s.workers[w] == if w < k then Running(w) else Ready
  }

  lemma {:induction false} FirstRunning(workers: seq<Worker>)
    requires forall w :: 0 <= w < |workers| ==> workers[w].Running?
    ensures InFlight(workers) == |workers|
  {
    if workers != [] {
      FirstRunning(workers[..|workers| - 1]);
    }
  }

  lemma {:induction false} FirstStart<T>(tasks: seq<Outcome<T>>, concurrency: Option<nat>, k: nat)
    returns (moves: seq<nat>)
    requires k <= |Initial(tasks, concurrency).workers|
    ensures forall i :: 0 <= i < |moves| ==> moves[i] < |Initial(tasks, concurrency).workers|
    ensures Started(tasks, Run(tasks, concurrency, moves), k)
  {
    moves := [];
    if k > 0 {
      var before := FirstStart(tasks, concurrency, k - 1);
      moves := before + [k - 1];
      assert moves[..|moves| - 1] == before;
    }
  }

  /** The limit is made use of: as many tasks as it allows, or all there are, can be in flight at once. */
  lemma LimitIsMet<T>(tasks: seq<Outcome<T>>, concurrency: Option<nat>) returns (moves: seq<nat>)
    ensures forall i :: 0 <= i < |moves| ==> moves[i] < |Initial(tasks, concurrency).workers|
    ensures
      InFlight(Run(tasks, concurrency, moves).workers)
      == if concurrency.Some? && concurrency.value < |tasks| then concurrency.value else |tasks|
  {
    moves := FirstStart(tasks, concurrency, |Initial(tasks, concurrency).workers|);
    FirstRunning(Run(tasks, concurrency, moves).workers);
  }
}
