/**
 * `rememberViaLock`: any number of callers on one key, interleaved at every await, with timeouts, lapses and
 * crashes.
 */
module SingleFlight {
  import opened Text

  /**
   * Where one caller stands. `Waiting` is about to try the lock; `Refused` has just found it taken, and either tries
   * again or gives up. `Lone` phases are those of a waiter whose wait ran out.
   */
  datatype Phase<V> =
    | Calling
    | Waiting
    | Refused
    | Locked
    | Computing
    | Storing(value: V)
    | Releasing(result: Option<V>)
    | Verified(result: Option<V>)
    | TimedOut
    | LoneComputing
    | LoneStoring(value: V)
    | Returned(value: V)
    | Threw
    | Crashed(completed: bool)

  /** The cached value, the lock entry's owner, and what has happened so far. */
  datatype State<V> = State(value: Option<V>, owner: Option<nat>, callers: seq<Phase<V>>,
                            completions: nat, loneCompletions: nat, timeouts: nat, lapses: nat, lostPuts: nat)

  /**
   * `Advance` takes the next step; `Yield(v)` is the callback resolving; `Fail` is it, or a store operation,
   * throwing.
   */
  datatype Action<V> = Advance | Yield(value: V) | Fail | Timeout | Crash

  function Put<V>(s: State<V>, p: nat, phase: Phase<V>): State<V>
    requires p < |s.callers|
  {
    s.(callers := s.callers[p := phase])
  }

  function Finished<V>(result: Option<V>): Phase<V> {
    match result case None => Threw case Some(v) => Returned(v)
  }

  /** One step of caller `p`; `atomic` says whether the store compares and deletes a lock in one operation. */
  function Step<V>(atomic: bool, s: State<V>, p: nat, a: Action<V>): State<V>
    requires p < |s.callers|
  {
    match (s.callers[p], a)
    case (Returned(_), _) => s
    case (Threw, _) => s
    case (Crashed(_), _) => s
    case (phase, Crash) => Put(s, p, Crashed(phase.Storing?))
    case (Calling, Advance) => Put(s, p, if s.value.Some? then Returned(s.value.value) else Waiting)
    case (Waiting, Advance) => if s.owner.None? then Put(s.(owner := Some(p)), p, Locked) else Put(s, p, Refused)
    case (Refused, Advance) => Put(s, p, Waiting)
    case (Refused, Timeout) => Put(s.(timeouts := s.timeouts + 1), p, TimedOut)
    case (TimedOut, Advance) => Put(s, p, if s.value.Some? then Returned(s.value.value) else LoneComputing)
    case (LoneComputing, Yield(v)) => Put(s.(loneCompletions := s.loneCompletions + 1), p, LoneStoring(v))
    case (LoneComputing, Fail) => Put(s, p, Threw)
    case (LoneStoring(v), Advance) => Put(s.(value := Some(v)), p, Returned(v))
    case (LoneStoring(v), Fail) => Put(s, p, Threw)
    case (Locked, Advance) => Put(s, p, if s.value.Some? then Releasing(s.value) else Computing)
    case (Computing, Yield(v)) => Put(s.(completions := s.completions + 1), p, Storing(v))
    case (Computing, Fail) => Put(s, p, Releasing(None))
    case (Storing(v), Advance) => Put(s.(value := Some(v)), p, Releasing(Some(v)))
    case (Storing(v), Fail) => Put(s.(lostPuts := s.lostPuts + 1), p, Releasing(None))
    case (Releasing(r), Advance) =>
      if s.owner != Some(p) then Put(s, p, Finished(r))
      else if atomic then Put(s.(owner := None), p, Finished(r))
      else Put(s, p, Verified(r))
    case (Verified(r), Advance) => Put(s.(owner := None), p, Finished(r))
    case (Locked, Fail) => Put(s, p, Releasing(None))
    case (Calling, Fail) => Put(s, p, Threw)
    case (Waiting, Fail) => Put(s, p, Threw)
    case (TimedOut, Fail) => Put(s, p, Threw)
    case (Releasing(_), Fail) => Put(s, p, Threw)
    case (Verified(_), Fail) => Put(s, p, Threw)
    case _ => s
  }

  /** The lock entry's TTL runs out. */
  function Lapse<V>(s: State<V>): State<V> {
    if s.owner.None? then s else s.(owner := None, lapses := s.lapses + 1)
  }

  /** A run: each element is a step of one caller, or nothing for a lapse. */
  function Run<V>(atomic: bool, s: State<V>, events: seq<Option<(nat, Action<V>)>>): (t: State<V>)
    requires forall i :: 0 <= i < |events| && events[i].Some? ==> events[i].value.0 < |s.callers|
    ensures |t.callers| == |s.callers|
  {
    if events == [] then s
    else
      var before := Run(atomic, s, events[..|events| - 1]);
      match events[|events| - 1]
      case None => Lapse(before)
      case Some((p, a)) => Step(atomic, before, p, a)
  }

  function Initial<V>(n: nat, value: Option<V>): State<V> {
    State(value, None, AllCalling(n), 0, 0, 0, 0, 0)
  }

  function AllCalling<V>(n: nat): seq<Phase<V>> { seq(n, i => Calling) }

  // -------------------------------------------------------------- accounting

  /** How many completions a caller may still add beyond what the present lock accounts for. */
  function Weight<V>(owner: Option<nat>, p: nat, phase: Phase<V>): nat {
    match phase
    case Locked => if owner == Some(p) then 0 else 1
    case Computing => 1
    case Verified(_) => if owner == Some(p) then 0 else 1
    case _ => 0
  }

  function LoneWeight<V>(phase: Phase<V>): nat { if phase.TimedOut? || phase.LoneComputing? then 1 else 0 }

  function Total<V>(owner: Option<nat>, callers: seq<Phase<V>>): nat {
    if callers == [] then 0
    else Total(owner, callers[..|callers| - 1]) + Weight(owner, |callers| - 1, callers[|callers| - 1])
  }

  function LoneTotal<V>(callers: seq<Phase<V>>): nat {
    if callers == [] then 0 else LoneTotal(callers[..|callers| - 1]) + LoneWeight(callers[|callers| - 1])
  }

  lemma {:induction false} LoneTotalChange<V>(callers: seq<Phase<V>>, p: nat, phase: Phase<V>)
    requires p < |callers|
    ensures LoneTotal(callers[p := phase]) - LoneWeight(phase) == LoneTotal(callers) - LoneWeight(callers[p])
  {
    var init := callers[..|callers| - 1];
    if p < |init| {
      LoneTotalChange(init, p, phase);
      assert callers[p := phase][..|callers| - 1] == init[p := phase];
    } else {
      assert callers[p := phase][..|callers| - 1] == init;
    }
  }

  /** Totals that agree on everyone but `p` differ by what `p` weighs. */
  lemma {:induction false} TotalChange<V>(owner: Option<nat>, callers: seq<Phase<V>>, owner': Option<nat>,
                                          callers': seq<Phase<V>>, p: nat)
    requires |callers| == |callers'|
    requires forall q :: 0 <= q < |callers| && q != p ==> Weight(owner', q, callers'[q]) == Weight(owner, q, callers[q])
    ensures p < |callers| ==>
      Total(owner', callers') - Weight(owner', p, callers'[p]) == Total(owner, callers) - Weight(owner, p, callers[p])
    ensures p >= |callers| ==> Total(owner', callers') == Total(owner, callers)
  {
    if callers != [] {
      TotalChange(owner, callers[..|callers| - 1], owner', callers'[..|callers| - 1], p);
    }
  }

  /** The present lock accounts for one completion: the value is stored, or its owner has begun computing it. */
  function Credit<V>(s: State<V>): nat {
    if s.value.Some? then 1
    else if s.owner.Some? && s.owner.value < |s.callers| && Begun(s.callers[s.owner.value]) then 1
    else 0
  }

  predicate Begun<V>(phase: Phase<V>) { phase.Computing? || phase.Storing? || phase == Crashed(true) }

  predicate Holding<V>(phase: Phase<V>) {
    phase.Locked? || phase.Computing? || phase.Storing? || phase.Releasing? || phase.Verified? || phase.Threw?
    || phase.Crashed?
  }

  predicate Accounted<V>(s: State<V>) { OwnerHolds(s) && Balanced(s) && LoneBalanced(s) }

  predicate OwnerHolds<V>(s: State<V>) {
    s.owner.Some? ==> s.owner.value < |s.callers| && Holding(s.callers[s.owner.value])
  }

  predicate Balanced<V>(s: State<V>) {
    s.completions + Total(s.owner, s.callers) <= s.lapses + s.lostPuts + Credit(s)
  }

  predicate LoneBalanced<V>(s: State<V>) { s.loneCompletions + LoneTotal(s.callers) <= s.timeouts }

  lemma StepKeepsLoneBalanced<V>(atomic: bool, s: State<V>, p: nat, a: Action<V>)
    requires p < |s.callers| && LoneBalanced(s)
    ensures LoneBalanced(Step(atomic, s, p, a))
  {
    var t := Step(atomic, s, p, a);
    LoneTotalChange(s.callers, p, t.callers[p]);
    assert t.callers == s.callers[p := t.callers[p]];
  }

  /** Taking the lock, or letting go of it. */
  predicate MovesLock<V>(s: State<V>, p: nat, a: Action<V>)
    requires p < |s.callers|
  {
    a.Advance? && (s.callers[p].Waiting? || s.callers[p].Releasing? || s.callers[p].Verified?)
  }

  lemma ComputingStepKeepsBalanced<V>(atomic: bool, s: State<V>, p: nat, a: Action<V>)
    requires p < |s.callers| && OwnerHolds(s) && Balanced(s)
    requires s.callers[p].Computing? || s.callers[p].Storing? || s.callers[p].LoneStoring?
    ensures Balanced(Step(atomic, s, p, a))
  {
    var t := Step(atomic, s, p, a);
    TotalChange(s.owner, s.callers, s.owner, t.callers, p);
  }

  /** A step that takes no lock and completes nothing, and after which its caller weighs no more. */
  lemma LightStepKeepsBalanced<V>(s: State<V>, t: State<V>, p: nat, phase: Phase<V>)
    requires p < |s.callers| && OwnerHolds(s) && Balanced(s)
    requires t.callers == s.callers[p := phase] && t.owner == s.owner && t.value == s.value
    requires t.completions == s.completions && t.lapses == s.lapses && t.lostPuts == s.lostPuts
    requires Weight(s.owner, p, phase) <= Weight(s.owner, p, s.callers[p])
    requires s.owner == Some(p) && Begun(s.callers[p]) ==> Begun(phase)
    requires s.owner == Some(p) ==> Holding(phase)
    ensures Balanced(t) && OwnerHolds(t)
  {
    TotalChange(s.owner, s.callers, s.owner, t.callers, p);
  }

  lemma PlainStepKeepsBalanced<V>(atomic: bool, s: State<V>, p: nat, a: Action<V>)
    requires p < |s.callers| && OwnerHolds(s) && Balanced(s) && !MovesLock(s, p, a)
    requires !s.callers[p].Computing? && !s.callers[p].Storing? && !s.callers[p].LoneStoring? && !s.callers[p].Locked?
    ensures Balanced(Step(atomic, s, p, a))
  {
    var t := Step(atomic, s, p, a);
    LightStepKeepsBalanced(s, t, p, t.callers[p]);
  }

  /** The second look at the cache, under the lock. */
  lemma LockedStepKeepsBalanced<V>(atomic: bool, s: State<V>, p: nat, a: Action<V>)
    requires p < |s.callers| && OwnerHolds(s) && Balanced(s) && s.callers[p].Locked?
    ensures Balanced(Step(atomic, s, p, a))
  {
    var t := Step(atomic, s, p, a);
    TotalChange(s.owner, s.callers, s.owner, t.callers, p);
  }

  /** A late `forget` may delete another caller's lock; that caller then weighs what the late one did. */
  lemma LockStepKeepsBalanced<V>(atomic: bool, s: State<V>, p: nat, a: Action<V>)
    requires p < |s.callers| && OwnerHolds(s) && Balanced(s) && MovesLock(s, p, a)
    ensures Balanced(Step(atomic, s, p, a))
  {
    var t := Step(atomic, s, p, a);
    if t.owner == s.owner || s.owner.None? || s.owner == Some(p) {
      TotalChange(s.owner, s.callers, t.owner, t.callers, p);
    } else {
      TotalChange(s.owner, s.callers, t.owner, s.callers, s.owner.value);
      TotalChange(t.owner, s.callers, t.owner, t.callers, p);
    }
  }

  lemma StepKeepsAccounted<V>(atomic: bool, s: State<V>, p: nat, a: Action<V>)
    requires p < |s.callers| && Accounted(s)
    ensures Accounted(Step(atomic, s, p, a))
  {
    StepKeepsLoneBalanced(atomic, s, p, a);
    if MovesLock(s, p, a) {
      LockStepKeepsBalanced(atomic, s, p, a);
    } else if s.callers[p].Computing? || s.callers[p].Storing? || s.callers[p].LoneStoring? {
      ComputingStepKeepsBalanced(atomic, s, p, a);
    } else if s.callers[p].Locked? {
      LockedStepKeepsBalanced(atomic, s, p, a);
    } else {
      PlainStepKeepsBalanced(atomic, s, p, a);
    }
  }

  lemma LapseKeepsAccounted<V>(s: State<V>)
    requires Accounted(s)
    ensures Accounted(Lapse(s))
  {
    if s.owner.Some? {
      TotalChange(s.owner, s.callers, None, s.callers, s.owner.value);
    }
  }

  lemma {:induction false} InitialIsAccounted<V>(n: nat, value: Option<V>)
    ensures Accounted(Initial(n, value))
    ensures Total(None, AllCalling<V>(n)) == 0 && LoneTotal(AllCalling<V>(n)) == 0
  {
    if n > 0 {
      InitialIsAccounted(n - 1, value);
      var all := AllCalling<V>(n);
      assert all[..n - 1] == AllCalling<V>(n - 1);
    }
  }

  lemma {:induction false} RunKeepsAccounted<V>(atomic: bool, n: nat, value: Option<V>,
                                                events: seq<Option<(nat, Action<V>)>>)
    requires forall i :: 0 <= i < |events| && events[i].Some? ==> events[i].value.0 < n
    ensures Accounted(Run(atomic, Initial(n, value), events))
  {
    if events == [] {
      InitialIsAccounted(n, value);
    } else {
      RunKeepsAccounted(atomic, n, value, events[..|events| - 1]);
      var before := Run(atomic, Initial(n, value), events[..|events| - 1]);
      match events[|events| - 1]
      case None => LapseKeepsAccounted(before);
      case Some((p, a)) => StepKeepsAccounted(atomic, before, p, a);
    }
  }

  /**
   * Single flight. However many callers race, and however they are interleaved, the callback completes at most
   * once, plus once for every waiter that timed out, every lock that lapsed and every write that was lost. It
   * does not matter whether the store releases a lock in one operation or two.
   */
  lemma CompletionsAreBounded<V>(atomic: bool, n: nat, value: Option<V>, events: seq<Option<(nat, Action<V>)>>)
    requires forall i :: 0 <= i < |events| && events[i].Some? ==> events[i].value.0 < n
    ensures
      var s := Run(atomic, Initial(n, value), events);
      s.completions + s.loneCompletions <= 1 + s.timeouts + s.lapses + s.lostPuts
  {
    RunKeepsAccounted(atomic, n, value, events);
  }

  // -------------------------------------------------------------- the bound is met

  type Event<V> = Option<(nat, Action<V>)>

  /** How a caller's turn goes wrong: its write is lost, its lock lapses, or its wait for the lock runs out. */
  datatype Mishap = LosesWrite | Lapses | TimesOut

  /**
   * A waiting caller that runs the callback to completion and leaves the cache as empty as it was: under the lock, or,
   * once it has found the lock taken and given up, by itself.
   */
  function Turn<V>(mishap: Mishap, p: nat, v: V): seq<Event<V>> {
    var step: Event<V> := Some((p, Advance));
    match mishap
    case LosesWrite => [step, step, Some((p, Yield(v))), Some((p, Fail)), step, step]
    case Lapses => [step, step, Some((p, Yield(v))), None]
    case TimesOut => [step, Some((p, Timeout)), step, Some((p, Yield(v)))]
  }

  /** The turns of `n` callers from `from` on. */
  function Turns<V>(mishap: Mishap, from: nat, n: nat, v: V): seq<Event<V>> {
    if n == 0 then [] else Turns(mishap, from, n - 1, v) + Turn(mishap, from + n - 1, v)
  }

  /** All callers arrive before any of them takes the lock. */
  function Arrivals<V>(n: nat): seq<Event<V>> {
    if n == 0 then [] else Arrivals(n - 1) + [Some((n - 1, Advance))]
  }

  /** A caller takes the lock, finds nothing stored, and starts the callback. */
  function Start<V>(p: nat): seq<Event<V>> { [Some((p, Advance)), Some((p, Advance))] }

  /** The callback gives a value, which is stored. */
  function Finish<V>(p: nat, v: V): seq<Event<V>> { [Some((p, Yield(v))), Some((p, Advance))] }

  /** All callers up to the last arrive; some lose their writes and some their locks; the last takes the lock. */
  function Opening<V>(lost: nat, lapsed: nat, last: nat, v: V): seq<Event<V>> {
    Arrivals(last + 1) + Turns(LosesWrite, 0, lost, v) + Turns(Lapses, lost, lapsed, v) + Start(last)
  }

  /** Others give up waiting while the last caller computes; then it stores what the callback gave. */
  function Queue<V>(lost: nat, lapsed: nat, late: nat, v: V): seq<Event<V>> {
    var last := lost + lapsed + late;
    Opening(lost, lapsed, last, v) + Turns(TimesOut, lost + lapsed, late, v) + Finish(last, v)
  }

  predicate Addressed<V>(events: seq<Event<V>>, n: nat) {
    forall i :: 0 <= i < |events| && events[i].Some? ==> events[i].value.0 < n
  }

  function Happen<V>(atomic: bool, s: State<V>, event: Event<V>): State<V>
    requires event.Some? ==> event.value.0 < |s.callers|
  {
    match event case None => Lapse(s) case Some((p, a)) => Step(atomic, s, p, a)
  }

  lemma RunSnoc<V>(atomic: bool, s: State<V>, events: seq<Event<V>>, event: Event<V>)
    requires Addressed(events, |s.callers|) && Addressed([event], |s.callers|)
    ensures Addressed(events + [event], |s.callers|)
    ensures event.Some? ==> event.value.0 < |s.callers|
    ensures Run(atomic, s, events + [event]) == Happen(atomic, Run(atomic, s, events), event)
  {
    assert [event][0] == event;
    assert (events + [event])[..|events|] == events;
    assert (events + [event])[|events|] == event;
  }

  lemma {:induction false} RunAppend<V>(atomic: bool, s: State<V>, first: seq<Event<V>>, second: seq<Event<V>>)
    requires Addressed(first, |s.callers|) && Addressed(second, |s.callers|)
    ensures Addressed(first + second, |s.callers|)
    ensures Run(atomic, s, first + second) == Run(atomic, Run(atomic, s, first), second)
  {
    if second == [] {
      assert first + second == first;
    } else {
      var init, last := second[..|second| - 1], second[|second| - 1];
      RunAppend(atomic, s, first, init);
      assert second == init + [last] && first + second == (first + init) + [last];
      RunSnoc(atomic, s, first + init, last);
      RunSnoc(atomic, Run(atomic, s, first), init, last);
    }
  }

  lemma RunFirst<V>(atomic: bool, s: State<V>, events: seq<Event<V>>)
    requires events != [] && Addressed(events, |s.callers|)
    ensures Addressed(events[1..], |s.callers|)
    ensures Run(atomic, s, events) == Run(atomic, Happen(atomic, s, events[0]), events[1..])
  {
    RunAppend(atomic, s, [events[0]], events[1..]);
    assert [events[0]] + events[1..] == events;
    RunSnoc(atomic, s, [], events[0]);
    assert [] + [events[0]] == [events[0]];
  }

  /** Nothing is stored, the lock is free, and the callers from `p` on wait for it. */
  predicate Open<V>(s: State<V>, p: nat) {
    && s.value == None && s.owner == None
    && forall q :: p <= q < |s.callers| ==> s.callers[q] == Waiting
  }

  /** Nothing is stored, `holder` computes under the lock, and the callers from `p` to it wait. */
  predicate Held<V>(s: State<V>, p: nat, holder: nat) {
    && s.value == None && s.owner == Some(holder) && holder < |s.callers| && s.callers[holder] == Computing
    && forall q :: p <= q < holder ==> s.callers[q] == Waiting
  }

  /** Where a turn that goes wrong can begin: late callers need somebody else to hold the lock. */
  predicate Ready<V>(s: State<V>, p: nat, mishap: Mishap, holder: nat) {
    holder < |s.callers| && if mishap.TimesOut? then Held(s, p, holder) else Open(s, p)
  }

  /** `t` has `n` completions more than `s`, and `n` more of the mishap. */
  predicate More<V>(s: State<V>, t: State<V>, mishap: Mishap, n: nat) {
    && |t.callers| == |s.callers|
    && t.completions + t.loneCompletions == s.completions + s.loneCompletions + n
    && t.timeouts == s.timeouts + (if mishap.TimesOut? then n else 0)
    && t.lapses == s.lapses + (if mishap.Lapses? then n else 0)
    && t.lostPuts == s.lostPuts + (if mishap.LosesWrite? then n else 0)
  }

  /** Up to the callback's completion under the lock. */
  lemma LockedTurn<V>(atomic: bool, s: State<V>, p: nat, events: seq<Event<V>>, v: V) returns (t: State<V>)
    requires p < |s.callers| && Open(s, p) && |events| >= 3 && Addressed(events, |s.callers|)
    requires events[0] == events[1] == Some((p, Advance)) && events[2] == Some((p, Yield(v)))
    ensures t == Put(s, p, Storing(v)).(owner := Some(p), completions := s.completions + 1)
    ensures Addressed(events[3..], |s.callers|) && Run(atomic, s, events) == Run(atomic, t, events[3..])
  {
    var locked := Happen(atomic, s, events[0]);
    var computing := Happen(atomic, locked, events[1]);
    t := Happen(atomic, computing, events[2]);
    RunFirst(atomic, s, events);
    RunFirst(atomic, locked, events[1..]);
    RunFirst(atomic, computing, events[1..][1..]);
    assert events[1..][1..][1..] == events[3..];
    assert t.callers == s.callers[p := Storing(v)];
  }

  lemma LosingTurnCompletes<V>(atomic: bool, s: State<V>, p: nat, v: V)
    requires p < |s.callers| && Open(s, p)
    ensures Addressed(Turn(LosesWrite, p, v), |s.callers|)
    ensures
      var t := Run(atomic, s, Turn(LosesWrite, p, v));
      Open(t, p + 1) && More(s, t, LosesWrite, 1)
  {
    var events := Turn(LosesWrite, p, v);
    var storing := LockedTurn(atomic, s, p, events, v);
    var late := events[3..];
    var failed := Happen(atomic, storing, late[0]);
    var verified := Happen(atomic, failed, late[1]);
    RunFirst(atomic, storing, late);
    RunFirst(atomic, failed, late[1..]);
    RunFirst(atomic, verified, late[1..][1..]);
    assert failed == Put(storing, p, Releasing(None)).(lostPuts := s.lostPuts + 1);
  }

  lemma LapsingTurnCompletes<V>(atomic: bool, s: State<V>, p: nat, v: V)
    requires p < |s.callers| && Open(s, p)
    ensures Addressed(Turn(Lapses, p, v), |s.callers|)
    ensures
      var t := Run(atomic, s, Turn(Lapses, p, v));
      Open(t, p + 1) && More(s, t, Lapses, 1)
  {
    var events := Turn(Lapses, p, v);
    var storing := LockedTurn(atomic, s, p, events, v);
    RunFirst(atomic, storing, events[3..]);
  }

  lemma LateTurnTimesOut<V>(atomic: bool, s: State<V>, p: nat, holder: nat, events: seq<Event<V>>) returns (t: State<V>)
    requires p < holder && Held(s, p, holder) && |events| >= 2 && Addressed(events, |s.callers|)
    requires events[0] == Some((p, Advance)) && events[1] == Some((p, Timeout))
    ensures t == Put(s, p, TimedOut).(timeouts := s.timeouts + 1)
    ensures Addressed(events[2..], |s.callers|) && Run(atomic, s, events) == Run(atomic, t, events[2..])
  {
    var refused := Happen(atomic, s, events[0]);
    t := Happen(atomic, refused, events[1]);
    RunFirst(atomic, s, events);
    RunFirst(atomic, refused, events[1..]);
    assert events[1..][1..] == events[2..];
    assert t.callers == s.callers[p := TimedOut];
  }

  lemma LateTurnCompletes<V>(atomic: bool, s: State<V>, p: nat, holder: nat, v: V)
    requires p < holder && Held(s, p, holder)
    ensures Addressed(Turn(TimesOut, p, v), |s.callers|)
    ensures
      var t := Run(atomic, s, Turn(TimesOut, p, v));
      Held(t, p + 1, holder) && More(s, t, TimesOut, 1)
  {
    var events := Turn(TimesOut, p, v);
    var out := LateTurnTimesOut(atomic, s, p, holder, events);
    var lone := Happen(atomic, out, events[2]);
    RunFirst(atomic, out, events[2..]);
    RunFirst(atomic, lone, events[2..][1..]);
  }

  /** `n` turns after `s`: as many callers have completed in vain, and the next ones can follow them. */
  predicate After<V>(s: State<V>, t: State<V>, mishap: Mishap, next: nat, n: nat, holder: nat) {
    Ready(t, next, mishap, holder) && More(s, t, mishap, n)
  }

  lemma AfterOneMore<V>(s: State<V>, t: State<V>, u: State<V>, mishap: Mishap, next: nat, n: nat, holder: nat)
    requires More(s, t, mishap, n) && After(t, u, mishap, next, 1, holder)
    ensures After(s, u, mishap, next, n + 1, holder)
  {
  }

  lemma TurnCompletesInVain<V>(atomic: bool, s: State<V>, mishap: Mishap, p: nat, holder: nat, v: V)
    requires p < holder && Ready(s, p, mishap, holder)
    ensures Addressed(Turn(mishap, p, v), |s.callers|)
    ensures After(s, Run(atomic, s, Turn(mishap, p, v)), mishap, p + 1, 1, holder)
  {
    match mishap
    case LosesWrite => LosingTurnCompletes(atomic, s, p, v);
    case Lapses => LapsingTurnCompletes(atomic, s, p, v);
    case TimesOut => LateTurnCompletes(atomic, s, p, holder, v);
  }

  lemma {:induction false} TurnsCompleteInVain<V>(atomic: bool, s: State<V>, mishap: Mishap, from: nat, n: nat,
                                                  holder: nat, v: V)
    requires from + n <= holder && Ready(s, from, mishap, holder)
    ensures Addressed(Turns(mishap, from, n, v), |s.callers|)
    ensures After(s, Run(atomic, s, Turns(mishap, from, n, v)), mishap, from + n, n, holder)
  {
    if n > 0 {
      TurnsCompleteInVain(atomic, s, mishap, from, n - 1, holder, v);
      var turns, turn := Turns(mishap, from, n - 1, v), Turn(mishap, from + n - 1, v);
      var before := Run(atomic, s, turns);
      TurnCompletesInVain(atomic, before, mishap, from + n - 1, holder, v);
      AfterOneMore(s, before, Run(atomic, before, turn), mishap, from + n, n - 1, holder);
      RunAppend(atomic, s, turns, turn);
    }
  }

  lemma StartHolds<V>(atomic: bool, s: State<V>, p: nat, holder: nat)
    requires p <= holder < |s.callers| && Open(s, p)
    ensures Addressed(Start<V>(holder), |s.callers|)
    ensures
      var t := Run(atomic, s, Start(holder));
      Held(t, p, holder) && More(s, t, Lapses, 0)
  {
    RunFirst(atomic, s, Start(holder));
    RunFirst(atomic, Happen(atomic, s, Start(holder)[0]), Start(holder)[1..]);
  }

  /** One completion more, which is stored. */
  ghost predicate Stored<V>(s: State<V>, t: State<V>, v: V) {
    && t.value == Some(v) && t.completions == s.completions + 1 && t.loneCompletions == s.loneCompletions
    && t.timeouts == s.timeouts && t.lapses == s.lapses && t.lostPuts == s.lostPuts
  }

  lemma FinishStores<V>(atomic: bool, s: State<V>, holder: nat, v: V)
    requires holder < |s.callers| && Held(s, holder, holder)
    ensures Addressed(Finish(holder, v), |s.callers|)
    ensures Stored(s, Run(atomic, s, Finish(holder, v)), v)
  {
    RunFirst(atomic, s, Finish(holder, v));
    RunFirst(atomic, Happen(atomic, s, Finish(holder, v)[0]), Finish(holder, v)[1..]);
  }

  /** The first `k` of `n` callers have looked at the cache and wait for the lock. */
  predicate Arrived<V(==)>(s: State<V>, n: nat, k: nat) {
    && |s.callers| == n && s.value == None && s.owner == None
    && s.completions == s.loneCompletions == s.timeouts == s.lapses == s.lostPuts == 0
    && forall q :: 0 <= q < n ==> s.callers[q] == if q < k then Waiting else Calling
  }

  lemma {:induction false} ArrivalsWait<V>(atomic: bool, n: nat, k: nat)
    requires k <= n
    ensures Addressed(Arrivals<V>(k), n) && Arrived(Run(atomic, Initial<V>(n, None), Arrivals(k)), n, k)
  {
    if k > 0 {
      ArrivalsWait<V>(atomic, n, k - 1);
      var event: Event<V> := Some((k - 1, Advance));
      RunSnoc(atomic, Initial<V>(n, None), Arrivals(k - 1), event);
    }
  }

  predicate Tally<V>(s: State<V>, lost: nat, lapsed: nat, late: nat) {
    && s.lostPuts == lost && s.lapses == lapsed && s.timeouts == late
    && s.completions + s.loneCompletions == lost + lapsed + late
  }

  lemma RunThrice<V>(atomic: bool, s: State<V>, a: seq<Event<V>>, b: seq<Event<V>>, c: seq<Event<V>>)
    requires Addressed(a, |s.callers|) && Addressed(b, |s.callers|) && Addressed(c, |s.callers|)
    ensures Addressed(a + b + c, |s.callers|)
    ensures Run(atomic, s, a + b + c) == Run(atomic, Run(atomic, Run(atomic, s, a), b), c)
  {
    RunAppend(atomic, s, a, b);
    RunAppend(atomic, s, a + b, c);
  }

  lemma OpeningRuns<V>(atomic: bool, s: State<V>, a: seq<Event<V>>, b: seq<Event<V>>, c: seq<Event<V>>,
                       d: seq<Event<V>>)
    requires Addressed(a, |s.callers|) && Addressed(b, |s.callers|)
    requires Addressed(c, |s.callers|) && Addressed(d, |s.callers|)
    ensures Addressed(a + b + c + d, |s.callers|)
    ensures Run(atomic, s, a + b + c + d) == Run(atomic, Run(atomic, Run(atomic, Run(atomic, s, a), b), c), d)
  {
    RunThrice(atomic, s, a, b, c);
    RunAppend(atomic, s, a + b + c, d);
  }

  lemma OpeningHolds<V>(atomic: bool, lost: nat, lapsed: nat, last: nat, v: V)
    requires lost + lapsed <= last
    ensures Addressed(Opening(lost, lapsed, last, v), last + 1)
    ensures
      var t := Run(atomic, Initial(last + 1, None), Opening(lost, lapsed, last, v));
      |t.callers| == last + 1 && Held(t, lost + lapsed, last) && Tally(t, lost, lapsed, 0)
  {
    var initial := Initial<V>(last + 1, None);
    ArrivalsWait<V>(atomic, last + 1, last + 1);
    var waiting := Run(atomic, initial, Arrivals(last + 1));
    TurnsCompleteInVain(atomic, waiting, LosesWrite, 0, lost, last, v);
    var losing := Run(atomic, waiting, Turns(LosesWrite, 0, lost, v));
    TurnsCompleteInVain(atomic, losing, Lapses, lost, lapsed, last, v);
    StartHolds(atomic, Run(atomic, losing, Turns(Lapses, lost, lapsed, v)), lost + lapsed, last);
    OpeningRuns(atomic, initial, Arrivals(last + 1), Turns(LosesWrite, 0, lost, v), Turns(Lapses, lost, lapsed, v),
                Start(last));
  }

  /** As many lost writes, lapses and timeouts as given, a completion for each and once more, and that one stored. */
  ghost predicate Met<V>(s: State<V>, lost: nat, lapsed: nat, late: nat, v: V) {
    && s.lostPuts == lost && s.lapses == lapsed && s.timeouts == late && s.value == Some(v)
    && s.completions + s.loneCompletions == 1 + s.timeouts + s.lapses + s.lostPuts
  }

  lemma StoredMeets<V>(s: State<V>, t: State<V>, u: State<V>, lost: nat, lapsed: nat, late: nat, v: V)
    requires Tally(s, lost, lapsed, 0) && More(s, t, TimesOut, late) && Stored(t, u, v)
    ensures Met(u, lost, lapsed, late, v)
  {
  }

  /** The rest of the queue, after any events that leave the last caller computing under the lock. */
  lemma LateTurnsMeet<V>(atomic: bool, s: State<V>, opening: seq<Event<V>>, lost: nat, lapsed: nat, late: nat, v: V)
    requires Addressed(opening, |s.callers|) && |s.callers| == lost + lapsed + late + 1
    requires
      var held := Run(atomic, s, opening);
      Held(held, lost + lapsed, lost + lapsed + late) && Tally(held, lost, lapsed, 0)
    ensures
      var events := opening + Turns(TimesOut, lost + lapsed, late, v) + Finish(lost + lapsed + late, v);
      Addressed(events, |s.callers|) && Met(Run(atomic, s, events), lost, lapsed, late, v)
  {
    var last := lost + lapsed + late;
    var held, turns, finish := Run(atomic, s, opening), Turns(TimesOut, lost + lapsed, late, v), Finish(last, v);
    TurnsCompleteInVain(atomic, held, TimesOut, lost + lapsed, late, last, v);
    var waited := Run(atomic, held, turns);
    FinishStores(atomic, waited, last, v);
    StoredMeets(held, waited, Run(atomic, waited, finish), lost, lapsed, late, v);
    RunThrice(atomic, s, opening, turns, finish);
  }

  /**
   * The bound is exact, and no term of it can be spared: for any numbers of lost writes, lapsed locks and timeouts
   * there is a run with just as many, in which the callback completes once for each of them and once more.
   */
  lemma BoundIsMet<V>(atomic: bool, lost: nat, lapsed: nat, late: nat, v: V)
    ensures Addressed(Queue(lost, lapsed, late, v), lost + lapsed + late + 1)
    ensures Met(Run(atomic, Initial(lost + lapsed + late + 1, None), Queue(lost, lapsed, late, v)), lost, lapsed,
                late, v)
  {
    OpeningHolds(atomic, lost, lapsed, lost + lapsed + late, v);
    LateTurnsMeet(atomic, Initial(lost + lapsed + late + 1, None), Opening(lost, lapsed, lost + lapsed + late, v),
                  lost, lapsed, late, v);
  }

  /** Two callers, no timeout, no lapse, and two completions, because the first one's write is lost. */
  lemma LostWriteCompletesTwice<V>(atomic: bool, v: V)
    ensures Addressed(Queue(1, 0, 0, v), 2)
    ensures
      var s := Run(atomic, Initial(2, None), Queue(1, 0, 0, v));
      s.completions == 2 && s.loneCompletions == 0 && s.timeouts == s.lapses == 0 && s.lostPuts == 1
  {
    BoundIsMet(atomic, 1, 0, 0, v);
    RunKeepsAccounted(atomic, 2, None, Queue(1, 0, 0, v));
  }

  // -------------------------------------------------------------- one answer

  predicate Undisturbed<V>(s: State<V>) { s.timeouts == 0 && s.lapses == 0 }

  /** Nobody is inside without the lock, nobody computes what is stored, and all answers are the stored value. */
  ghost predicate Agreeing<V>(s: State<V>) {
    && (forall p :: 0 <= p < |s.callers| ==> Fits(s, p, s.callers[p]))
  }

  ghost predicate Fits<V>(s: State<V>, p: nat, phase: Phase<V>) {
    match phase
    case Locked => s.owner == Some(p)
    case Computing => s.owner == Some(p) && s.value == None
    case Storing(_) => s.owner == Some(p) && s.value == None
    case Releasing(r) => s.owner == Some(p) && (r.Some? ==> r == s.value)
    case Verified(r) => s.owner == Some(p) && (r.Some? ==> r == s.value)
    case Returned(v) => s.value == Some(v)
    case TimedOut => false
    case LoneComputing => false
    case LoneStoring(_) => false
    case _ => true
  }

  lemma StepKeepsAgreeing<V>(atomic: bool, s: State<V>, p: nat, a: Action<V>)
    requires p < |s.callers| && Undisturbed(Step(atomic, s, p, a)) && (Undisturbed(s) ==> Agreeing(s))
    ensures Agreeing(Step(atomic, s, p, a))
  {
    var t := Step(atomic, s, p, a);
    forall q | 0 <= q < |t.callers| ensures Fits(t, q, t.callers[q]) {
      assert Fits(s, q, s.callers[q]) && Fits(s, p, s.callers[p]);
    }
  }

  /** Without timeouts and lapses every caller that returns gets the one value that is stored, writes lost or not. */
  lemma {:induction false} UndisturbedCallersAgree<V>(atomic: bool, n: nat, value: Option<V>,
                                                      events: seq<Option<(nat, Action<V>)>>)
    requires forall i :: 0 <= i < |events| && events[i].Some? ==> events[i].value.0 < n
    ensures
      var s := Run(atomic, Initial(n, value), events);
      Undisturbed(s) ==> Agreeing(s)
  {
    if events != [] && Undisturbed(Run(atomic, Initial(n, value), events)) {
      var before := Run(atomic, Initial(n, value), events[..|events| - 1]);
      UndisturbedCallersAgree(atomic, n, value, events[..|events| - 1]);
      match events[|events| - 1]
      case None =>
      case Some((p, a)) => StepKeepsAgreeing(atomic, before, p, a);
    }
  }

  // ------------------------------------------------------- once it is stored

  /** The value is stored, and nobody is about to give another. */
  ghost predicate Quiet<V>(s: State<V>, v: V) {
    && s.value == Some(v)
    && forall p :: 0 <= p < |s.callers| ==> !Busy(s.callers[p])
  }

  predicate Busy<V>(phase: Phase<V>) {
    phase.Computing? || phase.Storing? || phase.LoneComputing? || phase.LoneStoring?
  }

  /** A caller that has not looked at the cache for the last time. */
  predicate Looking<V>(phase: Phase<V>) {
    phase.Calling? || phase.Waiting? || phase.Refused? || phase.Locked? || phase.TimedOut?
  }

  /** It goes on looking, or has found the value, or has failed. */
  ghost predicate Finds<V>(phase: Phase<V>, v: V) {
    match phase
    case Releasing(r) => r == None || r == Some(v)
    case Verified(r) => r == None || r == Some(v)
    case Returned(w) => w == v
    case Threw => true
    case Crashed(_) => true
    case _ => Looking(phase)
  }

  /** Nothing has been computed since, and each caller that was looking has found nothing else. */
  ghost predicate StaysQuiet<V>(s: State<V>, t: State<V>, v: V) {
    && Quiet(t, v) && |t.callers| == |s.callers|
    && t.completions == s.completions && t.loneCompletions == s.loneCompletions && t.lostPuts == s.lostPuts
    && forall p :: 0 <= p < |s.callers| && Looking(s.callers[p]) ==> Finds(t.callers[p], v)
  }

  lemma StepStaysQuiet<V>(atomic: bool, s: State<V>, t: State<V>, v: V, p: nat, a: Action<V>)
    requires StaysQuiet(s, t, v) && p < |t.callers|
    ensures StaysQuiet(s, Step(atomic, t, p, a), v)
  {
    assert !Busy(t.callers[p]);
    assert Looking(s.callers[p]) ==> Finds(t.callers[p], v);
  }

  /**
   * Once a value is stored and nobody is computing, no callback completes in any run, timeouts, lapses and crashes
   * included, and every caller that had not looked for the last time and returns gets that value.
   */
  lemma {:induction false} StoredIsServed<V>(atomic: bool, s: State<V>, v: V, events: seq<Event<V>>)
    requires Addressed(events, |s.callers|) && Quiet(s, v)
    ensures StaysQuiet(s, Run(atomic, s, events), v)
  {
    if events != [] {
      var init, last := events[..|events| - 1], events[|events| - 1];
      StoredIsServed(atomic, s, v, init);
      match last
      case None =>
      case Some((p, a)) => StepStaysQuiet(atomic, s, Run(atomic, s, init), v, p, a);
    }
  }

  /** A caller that arrives then, or whose wait has run out, returns it at once and leaves the lock alone. */
  lemma HitNeedsNoLock<V>(atomic: bool, s: State<V>, v: V, p: nat)
    requires Quiet(s, v) && p < |s.callers| && (s.callers[p].Calling? || s.callers[p].TimedOut?)
    ensures
      var t := Step(atomic, s, p, Advance);
      t.callers == s.callers[p := Returned(v)] && t.owner == s.owner && t.value == s.value
  {
  }

  // ------------------------------------------------------------ letting go

  /** Between taking the lock and the end of its release. */
  predicate Inside<V>(phase: Phase<V>) {
    phase.Locked? || phase.Computing? || phase.Storing? || phase.Releasing? || phase.Verified?
  }

  /**
   * Whatever happens inside, the callback's own failure included, a caller gives up the lock before it ends; it keeps
   * the lock only if it crashes or the release itself fails.
   */
  lemma LockIsLetGo<V>(atomic: bool, s: State<V>, p: nat, a: Action<V>)
    requires p < |s.callers| && s.owner == Some(p) && Inside(s.callers[p])
    ensures
      var t := Step(atomic, s, p, a);
      t.owner == Some(p) ==>
        || Inside(t.callers[p])
        || a.Crash?
        || (a.Fail? && (s.callers[p].Releasing? || s.callers[p].Verified?))
  {
  }

  /** And nobody else's step takes it away, unless that is a late second half of a release. */
  lemma LockIsKept<V>(atomic: bool, s: State<V>, p: nat, q: nat, a: Action<V>)
    requires p < |s.callers| && q < |s.callers| && p != q && s.owner == Some(p)
    ensures Step(atomic, s, q, a).owner == Some(p) || (s.callers[q].Verified? && a.Advance?)
    ensures Step(atomic, s, q, a).callers[p] == s.callers[p]
  {
  }

  /** A caller that crashes leaves the store and the lock as they are: only a lapse frees it then. */
  lemma CrashKeepsLock<V>(atomic: bool, s: State<V>, p: nat, q: nat, a: Action<V>)
    requires p < |s.callers| && q < |s.callers|
    ensures Step(atomic, s, p, Crash).owner == s.owner && Step(atomic, s, p, Crash).value == s.value
    ensures s.callers[p].Crashed? && s.owner == Some(p) ==>
      Step(atomic, s, q, a).owner == Some(p) || (s.callers[q].Verified? && a.Advance?)
    ensures s.owner.Some? ==> Lapse(s) == s.(owner := None, lapses := s.lapses + 1)
  {
  }

  // -------------------------------------------------------------- getting there

  ghost predicate OnlyBy<V>(events: seq<Event<V>>, p: nat) {
    forall i :: 0 <= i < |events| ==> events[i].Some? && events[i].value.0 == p
  }

  /** The events so far and one more step of `p`. */
  lemma Go<V>(atomic: bool, s: State<V>, events: seq<Event<V>>, p: nat, a: Action<V>) returns (more: seq<Event<V>>)
    requires Addressed(events, |s.callers|) && OnlyBy(events, p) && p < |s.callers|
    ensures Addressed(more, |s.callers|) && OnlyBy(more, p)
    ensures Run(atomic, s, more) == Step(atomic, Run(atomic, s, events), p, a)
  {
    more := events + [Some((p, a))];
    assert more[..|more| - 1] == events;
  }

  /** The caller has returned the value, having computed and stored it, and the lock is `owner`'s. */
  predicate Served<V(==)>(s: State<V>, t: State<V>, p: nat, v: V, owner: Option<nat>)
    requires p < |s.callers|
  {
    t.callers == s.callers[p := Returned(v)] && t.value == Some(v) && t.owner == owner
  }

  /** With the lock free and nothing stored, a caller that is left alone takes the lock and finds nothing. */
  lemma AloneComputes<V>(atomic: bool, s: State<V>, p: nat) returns (events: seq<Event<V>>)
    requires p < |s.callers| && s.value == None && s.owner == None
    requires s.callers[p].Calling? || s.callers[p].Waiting? || s.callers[p].Refused?
    ensures Addressed(events, |s.callers|) && OnlyBy(events, p)
    ensures Run(atomic, s, events) == Put(s.(owner := Some(p)), p, Computing)
  {
    events := [];
    if !s.callers[p].Waiting? {
      events := Go(atomic, s, events, p, Advance);
    }
    assert Run(atomic, s, events) == Put(s, p, Waiting);
    events := Go(atomic, s, events, p, Advance);
    assert Run(atomic, s, events) == Put(s.(owner := Some(p)), p, Locked);
    events := Go(atomic, s, events, p, Advance);
  }

  lemma ComputedReturns<V>(atomic: bool, s: State<V>, p: nat, v: V) returns (events: seq<Event<V>>)
    requires p < |s.callers| && s.owner == Some(p) && s.callers[p].Computing?
    ensures Addressed(events, |s.callers|) && OnlyBy(events, p) && Served(s, Run(atomic, s, events), p, v, None)
  {
    events := Go(atomic, s, [], p, Yield(v));
    events := Go(atomic, s, events, p, Advance);
    var done := s.(value := Some(v), completions := s.completions + 1);
    assert Run(atomic, s, events) == Put(done, p, Releasing(Some(v)));
    events := Go(atomic, s, events, p, Advance);
    if !atomic {
      assert Run(atomic, s, events) == Put(done, p, Verified(Some(v)));
      events := Go(atomic, s, events, p, Advance);
    }
  }

  lemma OnlyByAppend<V>(first: seq<Event<V>>, second: seq<Event<V>>, p: nat, n: nat)
    requires OnlyBy(first, p) && OnlyBy(second, p) && p < n
    ensures OnlyBy(first + second, p) && Addressed(first + second, n)
  {
  }

  /** So a caller that is left alone then, once refused or not, computes, stores, lets go of the lock and returns. */
  lemma AloneReturns<V>(atomic: bool, s: State<V>, p: nat, v: V) returns (events: seq<Event<V>>)
    requires p < |s.callers| && s.value == None && s.owner == None
    requires s.callers[p].Calling? || s.callers[p].Waiting? || s.callers[p].Refused?
    ensures Addressed(events, |s.callers|) && OnlyBy(events, p) && Served(s, Run(atomic, s, events), p, v, None)
  {
    var first := AloneComputes(atomic, s, p);
    var second := ComputedReturns(atomic, Run(atomic, s, first), p, v);
    events := first + second;
    RunAppend(atomic, s, first, second);
    OnlyByAppend(first, second, p, |s.callers|);
  }

  /** And one that has given up waiting computes, stores and returns without the lock. */
  lemma LateReturns<V>(atomic: bool, s: State<V>, p: nat, v: V) returns (events: seq<Event<V>>)
    requires p < |s.callers| && s.value == None && s.callers[p].TimedOut?
    ensures Addressed(events, |s.callers|) && OnlyBy(events, p) && Served(s, Run(atomic, s, events), p, v, s.owner)
  {
    events := Go(atomic, s, [], p, Advance);
    assert Run(atomic, s, events) == Put(s, p, LoneComputing);
    events := Go(atomic, s, events, p, Yield(v));
    events := Go(atomic, s, events, p, Advance);
  }

  // ------------------------------------------------------- what callers get

  /** The value a caller has got, or is about to return. */
  function Got<V>(phase: Phase<V>): Option<V> {
    match phase
    case Releasing(r) => r
    case Verified(r) => r
    case Returned(v) => Some(v)
    case _ => None
  }

  ghost predicate StoredAt<V>(atomic: bool, s: State<V>, events: seq<Event<V>>, k: nat, v: V)
    requires Addressed(events, |s.callers|)
  {
    k <= |events| && Run(atomic, s, events[..k]).value == Some(v)
  }

  ghost predicate WasStored<V>(atomic: bool, s: State<V>, events: seq<Event<V>>, v: V)
    requires Addressed(events, |s.callers|)
  {
    exists k: nat :: StoredAt(atomic, s, events, k, v)
  }

  lemma StillWasStored<V>(atomic: bool, s: State<V>, events: seq<Event<V>>, event: Event<V>, v: V)
    requires Addressed(events + [event], |s.callers|)
    ensures Addressed(events, |s.callers|)
    ensures WasStored(atomic, s, events, v) ==> WasStored(atomic, s, events + [event], v)
  {
    assert forall i :: 0 <= i < |events| ==> (events + [event])[i] == events[i];
    if WasStored(atomic, s, events, v) {
      var k: nat :| StoredAt(atomic, s, events, k, v);
      assert (events + [event])[..k] == events[..k];
      assert StoredAt(atomic, s, events + [event], k, v);
    }
  }

  /** What a step gives its caller is in the store before it or after it. */
  lemma GotFromStore<V>(atomic: bool, s: State<V>, p: nat, a: Action<V>)
    requires p < |s.callers|
    ensures
      var t := Step(atomic, s, p, a);
      Got(t.callers[p]).Some? && Got(t.callers[p]) != Got(s.callers[p]) ==>
        Got(t.callers[p]) == s.value || Got(t.callers[p]) == t.value
  {
  }

  lemma JustStored<V>(atomic: bool, s: State<V>, events: seq<Event<V>>, event: Event<V>, v: V)
    requires Addressed(events, |s.callers|) && Addressed(events + [event], |s.callers|)
    requires Run(atomic, s, events).value == Some(v) || Run(atomic, s, events + [event]).value == Some(v)
    ensures WasStored(atomic, s, events + [event], v)
  {
    var more := events + [event];
    assert more[..|events|] == events && more[..|more|] == more;
    assert StoredAt(atomic, s, more, |events|, v) || StoredAt(atomic, s, more, |more|, v);
  }

  /** What the caller has got was stored at some time of the run. */
  ghost predicate Justified<V>(atomic: bool, s: State<V>, events: seq<Event<V>>, p: nat)
    requires Addressed(events, |s.callers|) && p < |s.callers|
  {
    var got := Got(Run(atomic, s, events).callers[p]);
    got.Some? ==> WasStored(atomic, s, events, got.value)
  }

  lemma StoredOrBefore<V>(atomic: bool, s: State<V>, events: seq<Event<V>>, event: Event<V>, v: V)
    requires Addressed(events, |s.callers|) && Addressed(events + [event], |s.callers|)
    requires
      || WasStored(atomic, s, events, v)
      || Run(atomic, s, events).value == Some(v) || Run(atomic, s, events + [event]).value == Some(v)
    ensures WasStored(atomic, s, events + [event], v)
  {
    if WasStored(atomic, s, events, v) {
      StillWasStored(atomic, s, events, event, v);
    } else {
      JustStored(atomic, s, events, event, v);
    }
  }

  lemma HappenGot<V>(atomic: bool, s: State<V>, event: Event<V>, p: nat)
    requires p < |s.callers| && (event.Some? ==> event.value.0 < |s.callers|)
    ensures
      var t := Happen(atomic, s, event);
      p < |t.callers| && (Got(t.callers[p]).Some? ==> Got(t.callers[p]) in {Got(s.callers[p]), s.value, t.value})
  {
    match event
    case None =>
    case Some((q, a)) => GotFromStore(atomic, s, q, a);
  }

  lemma StepIsJustified<V>(atomic: bool, s: State<V>, events: seq<Event<V>>, event: Event<V>, p: nat)
    requires Addressed(events, |s.callers|) && Addressed(events + [event], |s.callers|) && p < |s.callers|
    requires Justified(atomic, s, events, p)
    ensures Justified(atomic, s, events + [event], p)
  {
    assert Addressed([event], |s.callers|) by {
      assert (events + [event])[|events|] == event;
    }
    RunSnoc(atomic, s, events, event);
    HappenGot(atomic, Run(atomic, s, events), event, p);
    var got := Got(Run(atomic, s, events + [event]).callers[p]);
    if got.Some? {
      StoredOrBefore(atomic, s, events, event, got.value);
    }
  }

  /** Whatever goes wrong, no caller is ever given a value that was not in the store at some time. */
  lemma {:induction false} ReturnsWereStored<V>(atomic: bool, n: nat, value: Option<V>, events: seq<Event<V>>, p: nat)
    requires Addressed(events, n) && p < n
    ensures Justified(atomic, Initial(n, value), events, p)
  {
    if events != [] {
      var init, last := events[..|events| - 1], events[|events| - 1];
      assert events == init + [last];
      ReturnsWereStored(atomic, n, value, init, p);
      StepIsJustified(atomic, Initial(n, value), init, last, p);
    }
  }

  /** The callback, or a store operation, has thrown, and no value of the caller's own is left to return. */
  predicate Failing<V>(phase: Phase<V>) {
    phase.Threw? || phase.Crashed? || ((phase.Releasing? || phase.Verified?) && phase.result.None?)
  }

  /** An operation that throws makes the call throw, through the release of the lock when it holds it. */
  lemma FailureIsThrown<V>(atomic: bool, s: State<V>, p: nat, q: nat, a: Action<V>)
    requires p < |s.callers| && q < |s.callers|
    ensures
      !s.callers[p].Returned? && !s.callers[p].Refused? ==> Failing(Step(atomic, s, p, Fail).callers[p])
    ensures Failing(s.callers[p]) ==> Failing(Step(atomic, s, q, a).callers[p])
  {
  }
}
