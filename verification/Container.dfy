/** The service container: recursive resolution with a cycle guard, caches for singletons and scopes, and extenders. */
module Containers {
  import opened Text

  datatype Lifetime = Singleton | Scoped | Transient

  /** A value: one known from outside, or one the container made, by number. */
  datatype Value = Known(id: nat) | Fresh(n: nat)

  /** What a factory does: makes some tokens in order, then throws, or gives a value, a new one unless told. */
  datatype Code = Code(needs: seq<string>, throws: bool, given: Option<nat>)

  /** What an extender makes of the value it receives: a new one, one known from outside, or that same one. */
  datatype Yield = Anew | That(id: nat) | Received

  /** An extender makes some tokens in order, then throws, or gives what it makes of the value it receives. */
  datatype Extender = Extender(needs: seq<string>, throws: bool, onto: Value -> Yield)

  datatype Binding = Binding(factory: Code, lifetime: Lifetime)

  datatype Result = Made(value: Value) | NotFound(token: string) | Circular(cycle: seq<string>) | Threw(token: string)

  // ------------------------------------------------------------------- graph

  datatype Graph = Graph(bindings: map<string, Binding>, extenders: map<string, seq<Extender>>)

  function Extenders(g: Graph, t: string): seq<Extender> { if t in g.extenders then g.extenders[t] else [] }

  function Needs(codes: seq<Extender>): seq<string> {
    if codes == [] then [] else Needs(codes[..|codes| - 1]) + codes[|codes| - 1].needs
  }

  predicate Edge(g: Graph, t: string, d: string) {
    t in g.bindings && d in g.bindings[t].factory.needs + Needs(Extenders(g, t))
  }

  predicate Throws(g: Graph, t: string) {
    && t in g.bindings
    && (g.bindings[t].factory.throws || exists i :: 0 <= i < |Extenders(g, t)| && Extenders(g, t)[i].throws)
  }

  /** None of them needs another token. */
  ghost predicate Independent(codes: seq<Extender>) { forall code <- codes :: code.needs == [] }

  /** A path of tokens that are not cached, each needing the next. */
  ghost predicate Path(g: Graph, cached: set<string>, p: seq<string>) {
    && p != [] && (forall i :: 0 <= i < |p| ==> p[i] !in cached)
    && forall i :: 0 <= i < |p| - 1 ==> Edge(g, p[i], p[i + 1])
  }

  /** The path runs into itself or into a token already being resolved. */
  ghost predicate Loops(g: Graph, cached: set<string>, stack: set<string>, p: seq<string>) {
    Path(g, cached, p) && (p[|p| - 1] in stack || p[|p| - 1] in p[..|p| - 1])
  }

  /** Some path from `t` does. */
  ghost predicate Lasso(g: Graph, cached: set<string>, stack: set<string>, t: string) {
    exists p :: Loops(g, cached, stack, p) && p[0] == t
  }

  ghost predicate Reaches(g: Graph, cached: set<string>, t: string, u: string) {
    exists p :: Path(g, cached, p) && p[0] == t && p[|p| - 1] == u
  }

  predicate Sound(g: Graph, t: string) { t in g.bindings && !Throws(g, t) }

  /** Nothing in the way of making `t`: no loop, and all it comes to is bound and does not throw. */
  ghost predicate Fine(g: Graph, cached: set<string>, stack: set<string>, t: string) {
    !Lasso(g, cached, stack, t) && forall u :: Reaches(g, cached, t, u) ==> Sound(g, u)
  }

  ghost predicate AllFine(g: Graph, cached: set<string>, stack: set<string>, tokens: seq<string>) {
    forall d <- tokens :: Fine(g, cached, stack, d)
  }

  lemma FewerStackedLassos(g: Graph, cached: set<string>, stack: set<string>, more: set<string>, t: string)
    requires Lasso(g, cached, stack, t) && stack <= more
    ensures Lasso(g, cached, more, t)
  {
    var p :| Loops(g, cached, stack, p) && p[0] == t;
    assert Loops(g, cached, more, p);
  }

  lemma FewerCachedLassos(g: Graph, cached: set<string>, more: set<string>, stack: set<string>, t: string)
    requires Lasso(g, more, stack, t) && cached <= more
    ensures Lasso(g, cached, stack, t)
  {
    var p :| Loops(g, more, stack, p) && p[0] == t;
    assert Loops(g, cached, stack, p);
  }

  lemma FewerCachedReach(g: Graph, cached: set<string>, more: set<string>, t: string, u: string)
    requires Reaches(g, more, t, u) && cached <= more
    ensures Reaches(g, cached, t, u)
  {
    var p :| Path(g, more, p) && p[0] == t && p[|p| - 1] == u;
    assert Path(g, cached, p);
  }

  /** One token further up the path. */
  lemma LassoBelow(g: Graph, cached: set<string>, stack: set<string>, t: string, d: string)
    requires t !in cached && Edge(g, t, d) && Lasso(g, cached, stack + {t}, d)
    ensures Lasso(g, cached, stack, t)
  {
    var p :| Loops(g, cached, stack + {t}, p) && p[0] == d;
    var q := [t] + p;
    assert forall i :: 0 < i < |q| ==> q[i] == p[i - 1];
    if p[|p| - 1] in p[..|p| - 1] {
      var i :| 0 <= i < |p| - 1 && p[i] == p[|p| - 1];
      assert q[..|q| - 1][i + 1] == q[|q| - 1];
    } else if p[|p| - 1] == t {
      assert q[..|q| - 1][0] == q[|q| - 1];
    }
    assert Loops(g, cached, stack, q);
  }

  lemma ReachBelow(g: Graph, cached: set<string>, t: string, d: string, u: string)
    requires t !in cached && Edge(g, t, d) && Reaches(g, cached, d, u)
    ensures Reaches(g, cached, t, u)
  {
    var p :| Path(g, cached, p) && p[0] == d && p[|p| - 1] == u;
    var q := [t] + p;
    assert forall i :: 0 < i < |q| ==> q[i] == p[i - 1];
    assert Path(g, cached, q);
  }

  /** A token that loops needs one that does, with the token itself being resolved. */
  lemma LassoFrom(g: Graph, cached: set<string>, stack: set<string>, t: string) returns (d: string)
    requires t !in stack && Lasso(g, cached, stack, t)
    ensures Edge(g, t, d) && Lasso(g, cached, stack + {t}, d)
  {
    var p :| Loops(g, cached, stack, p) && p[0] == t;
    var q := p[1..];
    assert |p| > 1;
    d := p[1];
    assert Edge(g, p[0], p[1]);
    assert forall i :: 0 <= i < |q| ==> q[i] == p[i + 1];
    if p[|p| - 1] in p[..|p| - 1] && p[|p| - 1] != t {
      var i :| 0 <= i < |p| - 1 && p[i] == p[|p| - 1];
      assert q[..|q| - 1][i - 1] == q[|q| - 1];
    }
    assert Loops(g, cached, stack + {t}, q);
  }

  /** A token that is not being resolved and needs nothing that loops does not loop. */
  lemma NoLassoFrom(g: Graph, cached: set<string>, stack: set<string>, t: string)
    requires t !in stack && forall d :: Edge(g, t, d) ==> !Lasso(g, cached, stack + {t}, d)
    ensures !Lasso(g, cached, stack, t)
  {
    if Lasso(g, cached, stack, t) {
      var d := LassoFrom(g, cached, stack, t);
    }
  }

  lemma FineFrom(g: Graph, cached: set<string>, stack: set<string>, t: string)
    requires t !in stack && Sound(g, t) && forall d :: Edge(g, t, d) ==> Fine(g, cached, stack + {t}, d)
    ensures Fine(g, cached, stack, t)
  {
    NoLassoFrom(g, cached, stack, t);
    forall u | Reaches(g, cached, t, u) ensures Sound(g, u) {
      if u != t {
        var d := ReachFrom(g, cached, t, u);
      }
    }
  }

  lemma ReachFrom(g: Graph, cached: set<string>, t: string, u: string) returns (d: string)
    requires Reaches(g, cached, t, u) && u != t
    ensures Edge(g, t, d) && Reaches(g, cached, d, u)
  {
    var p :| Path(g, cached, p) && p[0] == t && p[|p| - 1] == u;
    d := p[1];
    assert Edge(g, p[0], p[1]);
    PathSlice(g, cached, p, 1, |p|);
  }

  /**
   * Caching tokens from which nothing loops changes no verdict: a loop through one of them would have been a
   * loop from it.
   */
  lemma CachingKeepsVerdict(g: Graph, cached: set<string>, more: set<string>, stack: set<string>, t: string)
    requires cached <= more && forall k <- more - cached :: !Lasso(g, cached, stack, k)
    ensures Lasso(g, more, stack, t) <==> Lasso(g, cached, stack, t)
  {
    if Lasso(g, more, stack, t) {
      FewerCachedLassos(g, cached, more, stack, t);
    }
    if Lasso(g, cached, stack, t) {
      var p :| Loops(g, cached, stack, p) && p[0] == t;
      if j :| 0 <= j < |p| && p[j] in more {
        LoopsFrom(g, cached, stack, p, j);
      } else {
        assert Loops(g, more, stack, p);
      }
    }
  }

  lemma CachingKeepsReach(g: Graph, cached: set<string>, more: set<string>, stack: set<string>, t: string)
    requires Harmless(g, cached, stack, more) && forall u :: Reaches(g, more, t, u) ==> Sound(g, u)
    ensures forall u :: Reaches(g, cached, t, u) ==> Sound(g, u)
  {
    forall u | Reaches(g, cached, t, u) ensures Sound(g, u) {
      var p :| Path(g, cached, p) && p[0] == t && p[|p| - 1] == u;
      if j :| 0 <= j < |p| && p[j] in more {
        ReachVia(g, cached, p, j);
        assert Fine(g, cached, stack, p[j]);
      } else {
        UncachedReach(g, cached, more, p);
      }
    }
  }

  lemma ReachVia(g: Graph, cached: set<string>, p: seq<string>, j: nat)
    requires Path(g, cached, p) && j < |p|
    ensures Reaches(g, cached, p[j], p[|p| - 1])
  {
    PathSlice(g, cached, p, j, |p|);
  }

  lemma UncachedReach(g: Graph, cached: set<string>, more: set<string>, p: seq<string>)
    requires Path(g, cached, p) && forall i :: 0 <= i < |p| ==> p[i] !in more
    ensures Reaches(g, more, p[0], p[|p| - 1])
  {
    assert Path(g, more, p);
  }

  lemma CachingKeepsFine(g: Graph, cached: set<string>, more: set<string>, stack: set<string>, t: string)
    requires Harmless(g, cached, stack, more)
    ensures Fine(g, more, stack, t) <==> Fine(g, cached, stack, t)
  {
    CachingKeepsVerdict(g, cached, more, stack, t);
    if Fine(g, more, stack, t) {
      CachingKeepsReach(g, cached, more, stack, t);
    } else if u :| Reaches(g, more, t, u) && !Sound(g, u) {
      FewerCachedReach(g, cached, more, t, u);
    }
  }

  /** Nor is it changed for what a token needs, with that token, too, being resolved. */
  lemma CachingKeepsNeed(g: Graph, cached: set<string>, more: set<string>, stack: set<string>, t: string, d: string)
    requires Harmless(g, cached, stack, more) && Edge(g, t, d)
    ensures Fine(g, more, stack + {t}, d) <==> Fine(g, cached, stack + {t}, d)
  {
    if Fine(g, more, stack + {t}, d) {
      CachingKeepsReach(g, cached, more, stack, d);
      if Lasso(g, cached, stack + {t}, d) {
        LassoStays(g, cached, more, stack, t, d);
      }
    } else if Lasso(g, more, stack + {t}, d) {
      FewerCachedLassos(g, cached, more, stack + {t}, d);
    } else {
      var u :| Reaches(g, more, d, u) && !Sound(g, u);
      FewerCachedReach(g, cached, more, d, u);
    }
  }

  lemma LassoStays(g: Graph, cached: set<string>, more: set<string>, stack: set<string>, t: string, d: string)
    requires Harmless(g, cached, stack, more) && Edge(g, t, d) && Lasso(g, cached, stack + {t}, d)
    ensures Lasso(g, more, stack + {t}, d)
  {
    var p :| Loops(g, cached, stack + {t}, p) && p[0] == d;
    forall j | 0 <= j < |p| ensures p[j] !in more {
      NoWayRound(g, cached, stack, t, d, p, j);
    }
    assert Loops(g, more, stack + {t}, p);
  }

  /** A token on a looping way from what `t` needs has a loop that does not count on `t` being resolved. */
  lemma NoWayRound(g: Graph, cached: set<string>, stack: set<string>, t: string, d: string, p: seq<string>, j: nat)
    requires Loops(g, cached, stack + {t}, p) && p[0] == d && j < |p| && Edge(g, t, d)
    ensures Lasso(g, cached, stack, p[j])
  {
    LoopsFrom(g, cached, stack + {t}, p, j);
    if !Lasso(g, cached, stack, p[j]) {
      var q :| Loops(g, cached, stack + {t}, q) && q[0] == p[j];
      assert !Loops(g, cached, stack, q);
      PathSlice(g, cached, p, 0, j + 1);
      PathJoin(g, cached, q, p[0..j + 1]);
      var around := q + p[0..j + 1];
      assert around[|around| - 1] == p[j] && around[..|around| - 1][0] == p[j];
      assert Loops(g, cached, stack, around);
    }
  }

  lemma PathSlice(g: Graph, cached: set<string>, p: seq<string>, i: nat, j: nat)
    requires Path(g, cached, p) && i < j <= |p|
    ensures Path(g, cached, p[i..j])
  {
    var q := p[i..j];
    assert forall m :: 0 <= m < |q| ==> q[m] == p[i + m];
  }

  lemma PathJoin(g: Graph, cached: set<string>, p: seq<string>, q: seq<string>)
    requires Path(g, cached, p) && Path(g, cached, q) && Edge(g, p[|p| - 1], q[0])
    ensures Path(g, cached, p + q)
  {
    forall m | 0 <= m < |p + q| - 1 ensures Edge(g, (p + q)[m], (p + q)[m + 1]) {
      if m == |p| - 1 {
        assert (p + q)[m] == p[|p| - 1] && (p + q)[m + 1] == q[0];
      }
    }
  }

  /** Every token of a looping path has a looping path of its own. */
  lemma LoopsFrom(g: Graph, cached: set<string>, stack: set<string>, p: seq<string>, j: nat)
    requires Loops(g, cached, stack, p) && j < |p|
    ensures Lasso(g, cached, stack, p[j])
  {
    var last, tail := p[|p| - 1], p[j..|p|];
    PathSlice(g, cached, p, j, |p|);
    if last in stack {
      assert Loops(g, cached, stack, tail);
    } else {
      var i :| 0 <= i < |p| - 1 && p[i] == last;
      if i >= j {
        assert tail[..|tail| - 1][i - j] == last;
        assert Loops(g, cached, stack, tail);
      } else {
        LoopsAround(g, cached, stack, p, i, j);
      }
    }
  }

  /** From a token further down: on to the end, and from where the end returns to, back to the token. */
  lemma LoopsAround(g: Graph, cached: set<string>, stack: set<string>, p: seq<string>, i: nat, j: nat)
    requires Path(g, cached, p) && i < j < |p| && p[i] == p[|p| - 1]
    ensures Lasso(g, cached, stack, p[j])
  {
    var tail, back := p[j..|p|], p[i + 1..j + 1];
    PathSlice(g, cached, p, j, |p|);
    PathSlice(g, cached, p, i + 1, j + 1);
    assert Edge(g, p[i], p[i + 1]);
    PathJoin(g, cached, tail, back);
    var around := tail + back;
    assert around[|around| - 1] == p[j] && around[..|around| - 1][0] == p[j];
    assert Loops(g, cached, stack, around);
  }

  /** What a resolution may answer, told from the graph and the caches as they were before it. */
  ghost predicate Verdict(g: Graph, cached: set<string>, stack: set<string>, t: string, r: Result) {
    match r
    case Made(_) => Fine(g, cached, stack, t)
    case Circular(cycle) => Lasso(g, cached, stack, t) && |cycle| > 1 && cycle[|cycle| - 1] in cycle[..|cycle| - 1]
    case NotFound(u) => Reaches(g, cached, t, u) && u !in g.bindings
    case Threw(u) => Reaches(g, cached, t, u) && Throws(g, u)
  }

  /** What running a token's factory and extenders may answer. */
  ghost predicate Outcome(g: Graph, cached: set<string>, stack: set<string>, t: string, r: Result) {
    t in g.bindings &&
    if r.Made? then !Throws(g, t) && forall d :: Edge(g, t, d) ==> Fine(g, cached, stack, d)
    else (r == Threw(t) && Throws(g, t))
         || Refused(g, cached, stack, g.bindings[t].factory.needs + Needs(Extenders(g, t)), r)
  }

  lemma OutcomeOf(g: Graph, cached: set<string>, now: set<string>, stack: set<string>, t: string, first: Result,
                  r: Result)
    requires t in g.bindings && Harmless(g, cached, stack, now)
    requires first.Made? ==> !g.bindings[t].factory.throws && AllFine(g, cached, stack, g.bindings[t].factory.needs)
    requires !first.Made? ==> r == first
    requires !first.Made? ==>
      (r == Threw(t) && Throws(g, t)) || Refused(g, cached, stack, g.bindings[t].factory.needs, r)
    requires first.Made? && r.Made? ==> Pass(g, now, stack, Extenders(g, t))
    requires first.Made? && !r.Made? ==> Stopped(g, now, stack, Extenders(g, t), t, r)
    ensures Outcome(g, cached, stack, t, r)
  {
    var factory, added := g.bindings[t].factory.needs, Needs(Extenders(g, t));
    if r.Made? {
      forall d | Edge(g, t, d) ensures Fine(g, cached, stack, d) {
        CachingKeepsFine(g, cached, now, stack, d);
      }
    } else if !first.Made? {
      if Refused(g, cached, stack, factory, r) {
        RefusedBefore(g, cached, cached, stack, factory, factory + added, r);
      }
    } else if Refused(g, now, stack, added, r) {
      RefusedBefore(g, cached, now, stack, added, factory + added, r);
    }
  }

  /** Something the token needs was refused, with reason. */
  ghost predicate Refused(g: Graph, cached: set<string>, stack: set<string>, needs: seq<string>, r: Result) {
    !r.Made? && exists d :: d in needs && Verdict(g, cached, stack, d, r)
  }

  /** Nothing was in the way of making what is newly cached. */
  ghost predicate Harmless(g: Graph, cached: set<string>, stack: set<string>, now: set<string>) {
    cached <= now && forall k :: k in now && k !in cached ==> Fine(g, cached, stack, k)
  }

  lemma VerdictBefore(g: Graph, cached: set<string>, now: set<string>, stack: set<string>, t: string, r: Result)
    requires Harmless(g, cached, stack, now) && Verdict(g, now, stack, t, r)
    ensures Verdict(g, cached, stack, t, r)
  {
    CachingKeepsVerdict(g, cached, now, stack, t);
    CachingKeepsFine(g, cached, now, stack, t);
    match r
    case NotFound(u) => FewerCachedReach(g, cached, now, t, u);
    case Threw(u) => FewerCachedReach(g, cached, now, t, u);
    case _ =>
  }

  lemma HarmlessChain(g: Graph, cached: set<string>, now: set<string>, later: set<string>, stack: set<string>)
    requires Harmless(g, cached, stack, now) && Harmless(g, now, stack, later)
    ensures Harmless(g, cached, stack, later)
  {
    forall k | k in later - cached ensures Fine(g, cached, stack, k) {
      if k !in now {
        CachingKeepsFine(g, cached, now, stack, k);
      }
    }
  }

  /** The cycle is what was being resolved, then the token, then one after the other what each of them needs. */
  ghost predicate Trail(g: Graph, base: seq<string>, t: string, cycle: seq<string>) {
    && |base| < |cycle| && cycle[..|base|] == base && cycle[|base|] == t
    && forall i :: |base| <= i < |cycle| - 1 ==> Edge(g, cycle[i], cycle[i + 1])
  }

  ghost predicate Traced(g: Graph, base: seq<string>, t: string, r: Result) {
    r.Circular? ==> Trail(g, base, t, r.cycle)
  }

  /** The same of one of several tokens. */
  ghost predicate TracedOne(g: Graph, base: seq<string>, needs: seq<string>, r: Result) {
    r.Circular? ==> exists d :: d in needs && Trail(g, base, d, r.cycle)
  }

  lemma TracedMore(g: Graph, base: seq<string>, needs: seq<string>, all: seq<string>, r: Result)
    requires TracedOne(g, base, needs, r) && forall d <- needs :: d in all
    ensures TracedOne(g, base, all, r)
  {
  }

  lemma TracedAbove(g: Graph, base: seq<string>, t: string, r: Result)
    requires t in g.bindings
    requires TracedOne(g, base + [t], g.bindings[t].factory.needs + Needs(Extenders(g, t)), r)
    ensures Traced(g, base, t, r)
  {
    if r.Circular? {
      var cycle := r.cycle;
      var d :| d in g.bindings[t].factory.needs + Needs(Extenders(g, t)) && Trail(g, base + [t], d, cycle);
      assert cycle[..|base|] == cycle[..|base| + 1][..|base|];
      assert cycle[|base|] == cycle[..|base| + 1][|base|];
    }
  }

  // ----------------------------------------------------------------- values

  /** What a factory told to give `given` gives while the container's numbers run from `from` to `to`. */
  ghost predicate Gives(given: Option<nat>, v: Value, from: nat, to: nat) {
    match given
    case Some(id) => v == Known(id)
    case None => v.Fresh? && from <= v.n < to
  }

  /** The same of an extender and the value it receives. */
  ghost predicate Yields(e: Extender, received: Value, v: Value, from: nat, to: nat) {
    match e.onto(received)
    case Received => v == received
    case That(id) => v == Known(id)
    case Anew => v.Fresh? && from <= v.n < to
  }

  /** What the extenders, in this order, make of a value: each receives what the one before it gave. */
  ghost predicate Decorated(codes: seq<Extender>, received: Value, v: Value, from: nat, to: nat) {
    if codes == [] then v == received
    else
      var last := codes[|codes| - 1];
      exists u :: Decorated(codes[..|codes| - 1], received, u, from, to) && Yields(last, u, v, from, to)
  }

  /** The value of a token built: what its factory gives, as its extenders leave it. */
  ghost predicate BuiltAs(g: Graph, t: string, v: Value, from: nat, to: nat) {
    t in g.bindings
    && exists u :: Gives(g.bindings[t].factory.given, u, from, to) && Decorated(Extenders(g, t), u, v, from, to)
  }

  lemma {:induction false} DecoratedLater(codes: seq<Extender>, received: Value, v: Value, from: nat, to: nat,
                                          earlier: nat, later: nat)
    requires Decorated(codes, received, v, from, to) && earlier <= from && to <= later
    ensures Decorated(codes, received, v, earlier, later)
  {
    if codes != [] {
      var init, last := codes[..|codes| - 1], codes[|codes| - 1];
      var u :| Decorated(init, received, u, from, to) && Yields(last, u, v, from, to);
      DecoratedLater(init, received, u, from, to, earlier, later);
      assert Yields(last, u, v, earlier, later);
    }
  }

  lemma DecoratedMore(codes: seq<Extender>, i: nat, received: Value, u: Value, v: Value, from: nat, mid: nat, to: nat)
    requires i < |codes| && from <= mid <= to
    requires Decorated(codes[..i], received, u, from, mid) && Yields(codes[i], u, v, mid, to)
    ensures Decorated(codes[..i + 1], received, v, from, to)
  {
    DecoratedLater(codes[..i], received, u, from, mid, from, to);
    assert codes[..i + 1][..i] == codes[..i];
    assert Yields(codes[i], u, v, from, to);
  }

  lemma Composed(g: Graph, t: string, u: Value, v: Value, from: nat, mid: nat, to: nat)
    requires t in g.bindings && Gives(g.bindings[t].factory.given, u, from, mid) && from <= mid <= to
    requires Decorated(Extenders(g, t), u, v, mid, to)
    ensures BuiltAs(g, t, v, from, to)
  {
    DecoratedLater(Extenders(g, t), u, v, mid, to, from, to);
    assert Gives(g.bindings[t].factory.given, u, from, to);
  }

  ghost predicate MayYield(e: Extender, v: Value, from: nat, to: nat) { exists u :: Yields(e, u, v, from, to) }

  /** The last extender decides, where it does not mind what it receives; without extenders the factory does. */
  lemma LastExtenderDecides(g: Graph, t: string, v: Value, from: nat, to: nat)
    requires BuiltAs(g, t, v, from, to)
    ensures
      var codes := Extenders(g, t);
      && (codes == [] ==> Gives(g.bindings[t].factory.given, v, from, to))
      && (codes != [] ==> MayYield(codes[|codes| - 1], v, from, to))
  {
  }

  /** A number the container has given out already. */
  predicate Numbered(v: Value, n: nat) { v.Fresh? ==> v.n < n }

  ghost predicate AllNumbered(values: map<string, Value>, n: nat) {
    forall t <- values :: Numbered(values[t], n)
  }

  // --------------------------------------------------------------- counting

  /** With `t` being resolved, its factory gives a value. */
  ghost predicate Completes(g: Graph, cached: set<string>, stack: set<string>, t: string) {
    t in g.bindings && !g.bindings[t].factory.throws && AllFine(g, cached, stack, g.bindings[t].factory.needs)
  }

  /** Extenders that let a value pass. */
  ghost predicate Pass(g: Graph, cached: set<string>, stack: set<string>, codes: seq<Extender>) {
    (forall code <- codes :: !code.throws) && AllFine(g, cached, stack, Needs(codes))
  }

  ghost predicate Lasts(g: Graph, cached: set<string>, stack: set<string>, t: string) {
    Pass(g, cached, stack, Extenders(g, t))
  }

  /** To make `t` is to run its factory in vain. */
  ghost predicate Wastes(g: Graph, cached: set<string>, stack: set<string>, t: string) {
    Completes(g, cached, stack + {t}, t) && !Lasts(g, cached, stack + {t}, t)
  }

  /** How often each token's factory gave a value, and how often in vain. */
  datatype Counts = Counts(completed: multiset<string>, wasted: multiset<string>)

  ghost predicate InReach(g: Graph, cached: set<string>, from: seq<string>, t: string) {
    exists d :: d in from && Reaches(g, cached, d, t)
  }

  ghost predicate SpentOn(g: Graph, cached: set<string>, stack: set<string>, from: seq<string>, t: string,
                          before: Counts, after: Counts)
  {
    && (after.completed[t] != before.completed[t] ==> InReach(g, cached, from, t))
    && (after.wasted[t] != before.wasted[t] ==> InReach(g, cached, from, t) && Wastes(g, cached, stack, t))
  }

  /** Only tokens in reach have been counted, and in vain only those that could not but be. */
  ghost predicate Spent(g: Graph, cached: set<string>, stack: set<string>, from: seq<string>, but: set<string>,
                        before: Counts, after: Counts)
  {
    forall t :: t !in but ==> SpentOn(g, cached, stack, from, t, before, after)
  }

  /** What one attempt at `t` adds to its own counts, and whether it ends in a value. */
  ghost predicate Tallied(g: Graph, cached: set<string>, stack: set<string>, t: string, made: bool, before: Counts,
                          after: Counts)
  {
    && (made <==> Completes(g, cached, stack, t) && Lasts(g, cached, stack, t))
    && after.completed[t] == before.completed[t] + (if Completes(g, cached, stack, t) then 1 else 0)
    && after.wasted[t] == before.wasted[t] + (if Completes(g, cached, stack, t) && !made then 1 else 0)
  }

  /** A singleton's factory has given one value if it is cached, besides those an extender then lost. */
  ghost predicate Even(bindings: map<string, Binding>, instances: set<string>, counts: Counts, t: string) {
    && counts.wasted[t] <= counts.completed[t]
    && (t in bindings && bindings[t].lifetime.Singleton? ==>
          counts.completed[t] <= counts.wasted[t] + if t in instances then 1 else 0)
  }

  ghost predicate AllEven(bindings: map<string, Binding>, instances: set<string>, counts: Counts, but: set<string>) {
    forall t :: t !in but ==> Even(bindings, instances, counts, t)
  }

  lemma Besides<V>(m: map<string, V>, t: string, v: V)
    ensures m[t := v] - {t} == m - {t} && m[t := v].Keys - {t} == m.Keys - {t}
  {
    assert forall u :: u in m[t := v] - {t} <==> u in m - {t};
  }

  lemma KeepingEvens(bindings: map<string, Binding>, instances: set<string>, more: set<string>, counts: Counts,
                     stack: set<string>, t: string)
    requires AllEven(bindings, instances, counts, stack + {t}) && Even(bindings, more, counts, t)
    requires instances <= more <= instances + {t}
    ensures AllEven(bindings, more, counts, stack)
  {
    forall u | u !in stack ensures Even(bindings, more, counts, u) {
      assert u != t ==> Even(bindings, instances, counts, u);
    }
  }

  lemma EvensAreBounded(bindings: map<string, Binding>, instances: set<string>, counts: Counts, stack: set<string>)
    requires AllEven(bindings, instances, counts, stack)
    ensures forall t <- bindings :: bindings[t].lifetime.Singleton? && t !in stack ==>
      counts.completed[t] <= counts.wasted[t] + 1
  {
    forall t | t in bindings && bindings[t].lifetime.Singleton? && t !in stack
      ensures counts.completed[t] <= counts.wasted[t] + 1
    {
      assert Even(bindings, instances, counts, t);
    }
  }

  /** A token's counts set back, with or without a value cached for it. */
  lemma ResettingEvens(bindings: map<string, Binding>, now: map<string, Binding>, instances: set<string>,
                       later: set<string>, counts: Counts, stack: set<string>, t: string)
    requires AllEven(bindings, instances, counts, stack)
    requires now - {t} == bindings - {t} && later - {t} == instances - {t}
    ensures AllEven(now, later, Counts(counts.completed[t := 0], counts.wasted[t := 0]), stack)
  {
    var reset := Counts(counts.completed[t := 0], counts.wasted[t := 0]);
    forall u | u !in stack ensures Even(now, later, reset, u) {
      if u != t {
        assert Even(bindings, instances, counts, u);
        assert u in now <==> u in now - {t};
        assert u in bindings <==> u in bindings - {t};
        assert u in now ==> now[u] == (now - {t})[u] == (bindings - {t})[u];
        assert u in later <==> u in later - {t};
        assert u in instances <==> u in instances - {t};
      }
    }
  }

  lemma LastsBefore(g: Graph, cached: set<string>, now: set<string>, stack: set<string>, t: string)
    requires Harmless(g, cached, stack, now)
    ensures Lasts(g, now, stack, t) <==> Lasts(g, cached, stack, t)
  {
    forall d | d in Needs(Extenders(g, t)) ensures Fine(g, now, stack, d) <==> Fine(g, cached, stack, d) {
      CachingKeepsFine(g, cached, now, stack, d);
    }
  }

  /** What making a token comes to is not changed by what has been made before. */
  lemma AttemptBefore(g: Graph, cached: set<string>, now: set<string>, stack: set<string>, t: string)
    requires Harmless(g, cached, stack, now) && t in g.bindings
    ensures Completes(g, now, stack + {t}, t) <==> Completes(g, cached, stack + {t}, t)
    ensures Lasts(g, now, stack + {t}, t) <==> Lasts(g, cached, stack + {t}, t)
  {
    forall d | Edge(g, t, d) ensures Fine(g, now, stack + {t}, d) <==> Fine(g, cached, stack + {t}, d) {
      CachingKeepsNeed(g, cached, now, stack, t, d);
    }
    assert forall d <- g.bindings[t].factory.needs :: Edge(g, t, d);
    assert forall d <- Needs(Extenders(g, t)) :: Edge(g, t, d);
  }

  lemma SpentBefore(g: Graph, cached: set<string>, now: set<string>, stack: set<string>, from: seq<string>, t: string,
                    before: Counts, after: Counts)
    requires Harmless(g, cached, stack, now) && SpentOn(g, now, stack, from, t, before, after)
    ensures SpentOn(g, cached, stack, from, t, before, after)
  {
    if InReach(g, now, from, t) {
      var d :| d in from && Reaches(g, now, d, t);
      FewerCachedReach(g, cached, now, d, t);
    }
    if Wastes(g, now, stack, t) {
      AttemptBefore(g, cached, now, stack, t);
    }
  }

  lemma SpentChain(g: Graph, cached: set<string>, now: set<string>, stack: set<string>, first: seq<string>,
                   second: seq<string>, all: seq<string>, but: set<string>, a: Counts, b: Counts, c: Counts)
    requires Spent(g, cached, stack, first, but, a, b)
    requires Harmless(g, cached, stack, now) && Spent(g, now, stack, second, but, b, c)
    requires (forall d <- first :: d in all) && forall d <- second :: d in all
    ensures Spent(g, cached, stack, all, but, a, c)
  {
    forall t | t !in but ensures SpentOn(g, cached, stack, all, t, a, c) {
      assert SpentOn(g, cached, stack, first, t, a, b);
      SpentBefore(g, cached, now, stack, second, t, b, c);
    }
  }

  /** One token further up: what is wasted below it would be wasted without it. */
  lemma WastesAbove(g: Graph, cached: set<string>, stack: set<string>, u: string, d: string, t: string)
    requires u !in cached && Edge(g, u, d) && Reaches(g, cached, d, t) && Wastes(g, cached, stack + {u}, t)
    ensures Wastes(g, cached, stack, t)
  {
    assert stack + {u} + {t} == stack + {t} + {u};
    forall x | Fine(g, cached, stack + {u} + {t}, x) ensures Fine(g, cached, stack + {t}, x) {
      FewerStackedFine(g, cached, stack + {t}, stack + {u} + {t}, x);
    }
    forall x | Edge(g, t, x) && Fine(g, cached, stack + {t}, x) ensures Fine(g, cached, stack + {u} + {t}, x) {
      NoneUpLeadsUp(g, cached, stack, u, d, t, x);
    }
    assert forall x <- Needs(Extenders(g, t)) :: Edge(g, t, x);
  }

  lemma FewerStackedFine(g: Graph, cached: set<string>, stack: set<string>, more: set<string>, t: string)
    requires stack <= more && Fine(g, cached, more, t)
    ensures Fine(g, cached, stack, t)
  {
    if Lasso(g, cached, stack, t) {
      FewerStackedLassos(g, cached, stack, more, t);
    }
  }

  /** A way from `x` to the token further up would go on to `t`. */
  lemma NoneUpLeadsUp(g: Graph, cached: set<string>, stack: set<string>, u: string, d: string, t: string, x: string)
    requires Edge(g, u, d) && Reaches(g, cached, d, t) && Fine(g, cached, stack + {t}, x)
    ensures Fine(g, cached, stack + {u} + {t}, x)
  {
    if Lasso(g, cached, stack + {u} + {t}, x) {
      var p :| Loops(g, cached, stack + {u} + {t}, p) && p[0] == x;
      var q :| Path(g, cached, q) && q[0] == d && q[|q| - 1] == t;
      assert !Loops(g, cached, stack + {t}, p);
      PathJoin(g, cached, p, q);
      assert Loops(g, cached, stack + {t}, p + q);
    }
  }

  lemma SpentAbove(g: Graph, cached: set<string>, stack: set<string>, u: string, from: seq<string>, a: Counts,
                   b: Counts)
    requires u !in cached && forall d <- from :: Edge(g, u, d)
    requires Spent(g, cached, stack + {u}, from, {u}, a, b)
    requires b.wasted[u] != a.wasted[u] ==> Wastes(g, cached, stack, u)
    ensures Spent(g, cached, stack, [u], {}, a, b)
  {
    forall t ensures SpentOn(g, cached, stack, [u], t, a, b) {
      assert u in [u] && (t != u ==> SpentOn(g, cached, stack + {u}, from, t, a, b));
      if t == u {
        assert Path(g, cached, [u]);
        assert Reaches(g, cached, u, u);
      } else if InReach(g, cached, from, t) {
        var d :| d in from && Reaches(g, cached, d, t);
        ReachBelow(g, cached, u, d, t);
        if Wastes(g, cached, stack + {u}, t) {
          WastesAbove(g, cached, stack, u, d, t);
        }
      }
    }
  }

  /** One of them stops it. */
  ghost predicate Stopped(g: Graph, cached: set<string>, stack: set<string>, codes: seq<Extender>, token: string,
                          r: Result)
  {
    || (r == Threw(token) && exists i :: 0 <= i < |codes| && codes[i].throws)
    || Refused(g, cached, stack, Needs(codes), r)
  }

  lemma PassMore(g: Graph, cached: set<string>, now: set<string>, stack: set<string>, codes: seq<Extender>, i: nat)
    requires i < |codes| && Pass(g, cached, stack, codes[..i]) && Harmless(g, cached, stack, now)
    requires !codes[i].throws && AllFine(g, now, stack, codes[i].needs)
    ensures Pass(g, cached, stack, codes[..i + 1])
  {
    assert codes[..i + 1][..i] == codes[..i] && codes[..i + 1] == codes[..i] + [codes[i]];
    forall d | d in codes[i].needs ensures Fine(g, cached, stack, d) {
      CachingKeepsFine(g, cached, now, stack, d);
    }
  }

  lemma StoppedAt(g: Graph, cached: set<string>, now: set<string>, stack: set<string>, codes: seq<Extender>, i: nat,
                  token: string, r: Result)
    requires i < |codes| && Harmless(g, cached, stack, now)
    requires (r == Threw(token) && codes[i].throws) || Refused(g, now, stack, codes[i].needs, r)
    ensures Stopped(g, cached, stack, codes, token, r)
  {
    NeedsGrow(codes, i);
    if Refused(g, now, stack, codes[i].needs, r) {
      RefusedBefore(g, cached, now, stack, codes[i].needs, Needs(codes), r);
    }
  }

  lemma AllFineMore(g: Graph, cached: set<string>, stack: set<string>, needs: seq<string>, i: nat)
    requires i < |needs| && AllFine(g, cached, stack, needs[..i]) && Fine(g, cached, stack, needs[i])
    ensures AllFine(g, cached, stack, needs[..i + 1])
  {
    assert needs[..i + 1] == needs[..i] + [needs[i]];
  }

  lemma RefusedIsNotFine(g: Graph, cached: set<string>, stack: set<string>, needs: seq<string>, r: Result)
    requires Refused(g, cached, stack, needs, r)
    ensures !AllFine(g, cached, stack, needs)
  {
  }

  // --------------------------------------------------------------- container

  class Container {
    var bindings: map<string, Binding>
    var instances: map<string, Value>
    var extenders: map<string, seq<Extender>>
    var resolving: seq<string>
    var scope: Option<map<string, Value>>
    var values: nat
    /** How often each token's factory gave a value since it was bound or its instance forgotten, and in vain. */
    ghost var completed: multiset<string>
    ghost var wasted: multiset<string>

    constructor ()
      ensures bindings == map[] && instances == map[] && extenders == map[] && resolving == [] && scope == None
      ensures Valid()
    {
      bindings, instances, extenders, resolving, scope, values := map[], map[], map[], [], None, 0;
      completed, wasted := multiset{}, multiset{};
    }

    ghost function Count(): Counts
      reads this
    {
      Counts(completed, wasted)
    }

    ghost function G(): Graph
      reads this
    {
      Graph(bindings, extenders)
    }

    ghost function Cached(): set<string>
      reads this
    {
      instances.Keys + if scope.Some? then scope.value.Keys else {}
    }

    ghost function Stack(): set<string>
      reads this
    {
      set t | t in resolving
    }

    /** What is being resolved is bound and not cached. */
    ghost predicate Open()
      reads this
    {
      forall t <- resolving :: t in bindings && t !in Cached()
    }

    /** And the counts of everything else are even. */
    ghost predicate Valid()
      reads this
    {
      Open() && AllEven(bindings, instances.Keys, Count(), Stack()) && Minted()
    }

    /** No cached value has a number still to be given out. */
    ghost predicate Minted()
      reads this
    {
      AllNumbered(instances, values) && (scope.Some? ==> AllNumbered(scope.value, values))
    }

    /** Tokens that may still be resolved below the present ones. */
    ghost function Free(): set<string>
      reads this
    {
      bindings.Keys - Stack()
    }

    /** The value a token is cached with: the container's own caches are asked before the scope's. */
    function Lookup(t: string): Option<Value>
      reads this
    {
      if t in instances then Some(instances[t])
      else if scope.Some? && t in scope.value then Some(scope.value[t])
      else None
    }

    /** Whether a value of that lifetime is cached once made. */
    predicate Keeps(lifetime: Lifetime)
      reads this
    {
      lifetime.Singleton? || (lifetime.Scoped? && scope.Some?)
    }

    /** Resolution changes no binding and no cached value, and does not count for what is being resolved. */
    twostate predicate Kept(but: set<string>)
      reads this
    {
      resolving == old(resolving) && KeptBelow(but)
    }

    /** The same of a resolution that may have left its token on the stack. */
    twostate predicate KeptBelow(but: set<string>)
      reads this
    {
      && bindings == old(bindings) && extenders == old(extenders)
      && old(values) <= values
      && (scope.Some? <==> old(scope).Some?)
      && (forall t <- old(instances) :: t in instances && instances[t] == old(instances[t]))
      && (forall t <- instances ::
            t in old(instances) || (t in bindings && bindings[t].lifetime.Singleton? && t !in old(Cached())))
      && (scope.Some? ==> forall t <- old(scope).value :: t in scope.value && scope.value[t] == old(scope).value[t])
      && (scope.Some? ==> forall t <- scope.value ::
            t in old(scope).value || (t in bindings && bindings[t].lifetime.Scoped? && t !in old(Cached())))
      && forall t <- old(resolving) :: t in but || (completed[t] == old(completed[t]) && wasted[t] == old(wasted[t]))
    }

    /** No cache has changed and no factory has been counted. */
    twostate predicate Same()
      reads this
    {
      && instances == old(instances) && scope == old(scope)
      && completed == old(completed) && wasted == old(wasted)
    }

    /** The factory gives a value and then an extender throws; none of them needs another token. */
    ghost predicate Spoiled(t: string)
      reads this
    {
      && t in bindings && bindings[t].factory.needs == [] && !bindings[t].factory.throws
      && Independent(Extenders(G(), t))
      && exists i :: 0 <= i < |Extenders(G(), t)| && Extenders(G(), t)[i].throws
    }

    /** The factory of `t` has completed once more, in vain. */
    twostate predicate Wasted(t: string, r: Result)
      reads this
    {
      && r == Threw(t) && instances == old(instances) && scope == old(scope)
      && completed[t] == old(completed[t]) + 1 && wasted[t] == old(wasted[t]) + 1
    }

    /** Makes one of several tokens after others of them; what it answers is told from the caches as they were first. */
    method MakeSince(token: string, ghost cached: set<string>, ghost all: seq<string>, ghost counts: Counts)
      returns (r: Result)
      requires Valid() && Harmless(G(), cached, Stack(), Cached())
      requires token in all && Spent(G(), cached, Stack(), all, {}, counts, Count())
      modifies this
      ensures Valid() && Kept({}) && Harmless(old(G()), cached, old(Stack()), Cached())
      ensures Verdict(old(G()), cached, old(Stack()), token, r)
      ensures r.Made? && token in bindings && Keeps(bindings[token].lifetime) ==> Lookup(token) == Some(r.value)
      ensures Spent(old(G()), cached, old(Stack()), all, {}, counts, Count())
      ensures Traced(old(G()), old(resolving), token, r)
      decreases Free(), 0, 4
    {
      ghost var g, stack, now, before := G(), Stack(), Cached(), Count();
      r := Make(token);
      VerdictBefore(g, cached, now, stack, token, r);
      HarmlessChain(g, cached, now, Cached(), stack);
      SpentChain(g, cached, now, stack, all, [token], all, {}, counts, before, Count());
    }

    /** Makes `needs` in order, up to the first that is refused. */
    method MakeAll(needs: seq<string>) returns (refused: Option<Result>)
      requires Valid()
      modifies this
      ensures Valid() && Kept({}) && Harmless(old(G()), old(Cached()), old(Stack()), Cached())
      ensures refused.None? ==> AllFine(old(G()), old(Cached()), old(Stack()), needs)
      ensures refused.Some? ==> Refused(old(G()), old(Cached()), old(Stack()), needs, refused.value)
      ensures needs == [] ==> Same()
      ensures Spent(old(G()), old(Cached()), old(Stack()), needs, {}, old(Count()), Count())
      ensures refused.Some? ==> TracedOne(old(G()), old(resolving), needs, refused.value)
      decreases Free(), 1, 0
    {
      ghost var g, cached, stack, counts := G(), Cached(), Stack(), Count();
      for i := 0 to |needs|
        invariant Valid() && Kept({}) && G() == g && Stack() == stack && Harmless(g, cached, stack, Cached())
        invariant AllFine(g, cached, stack, needs[..i])
        invariant needs == [] ==> Same()
        invariant Spent(g, cached, stack, needs, {}, counts, Count())
      {
        var r := MakeSince(needs[i], cached, needs, counts);
        if !r.Made? {
          return Some(r);
        }
        AllFineMore(g, cached, stack, needs, i);
      }
      assert needs[..|needs|] == needs;
      refused := None;
    }

    /** Runs a factory or an extender of `token`, up to its value. */
    method Run(needs: seq<string>, throws: bool, token: string) returns (refused: Option<Result>)
      requires Valid()
      modifies this
      ensures Valid() && Kept({}) && Harmless(old(G()), old(Cached()), old(Stack()), Cached())
      ensures refused.None? ==> !throws && AllFine(old(G()), old(Cached()), old(Stack()), needs)
      ensures refused.Some? ==> !refused.value.Made?
      ensures refused.Some? ==>
        || (refused.value == Threw(token) && throws)
        || Refused(old(G()), old(Cached()), old(Stack()), needs, refused.value)
      ensures needs == [] ==> Same() && (refused.None? || refused.value == Threw(token))
      ensures Spent(old(G()), old(Cached()), old(Stack()), needs, {}, old(Count()), Count())
      ensures refused.Some? ==> TracedOne(old(G()), old(resolving), needs, refused.value)
      decreases Free(), 2, 0
    {
      refused := MakeAll(needs);
      if refused.None? && throws {
        refused := Some(Threw(token));
      }
    }

    /** A value not handed out before. */
    method Mint() returns (v: Value)
      requires Valid()
      modifies this`values
      ensures Valid() && v == Fresh(old(values)) && values == old(values) + 1
    {
      v := Fresh(values);
      values := values + 1;
    }

    /** What an extender makes of the value it receives. */
    method Apply(e: Extender, received: Value) returns (v: Value)
      requires Valid() && Numbered(received, values)
      modifies this`values
      ensures Valid() && old(values) <= values && Numbered(v, values)
      ensures Yields(e, received, v, old(values), values)
    {
      match e.onto(received)
      case Received => v := received;
      case That(id) => v := Known(id);
      case Anew => v := Mint();
    }

    /** The next extender of a token. */
    method DecorateNext(codes: seq<Extender>, i: nat, token: string, received: Value, ghost value: Value,
                        ghost cached: set<string>, ghost counts: Counts, ghost first: nat) returns (r: Result)
      requires Valid() && i < |codes| && first <= values && Numbered(received, values)
      requires Harmless(G(), cached, Stack(), Cached()) && Pass(G(), cached, Stack(), codes[..i])
      requires Decorated(codes[..i], value, received, first, values)
      requires Spent(G(), cached, Stack(), Needs(codes), {}, counts, Count())
      modifies this
      ensures Valid() && Kept({}) && Harmless(old(G()), cached, old(Stack()), Cached())
      ensures r.Made? ==> Pass(old(G()), cached, old(Stack()), codes[..i + 1])
      ensures r.Made? ==> Decorated(codes[..i + 1], value, r.value, first, values) && Numbered(r.value, values)
      ensures !r.Made? ==> Stopped(old(G()), cached, old(Stack()), codes, token, r)
      ensures Independent(codes) ==> Same() && (r.Made? || r == Threw(token))
      ensures Spent(old(G()), cached, old(Stack()), Needs(codes), {}, counts, Count())
      ensures TracedOne(old(G()), old(resolving), Needs(codes), r)
      decreases Free(), 3, 0
    {
      ghost var g, stack, now, before, minted := G(), Stack(), Cached(), Count(), values;
      var refused := Run(codes[i].needs, codes[i].throws, token);
      HarmlessChain(g, cached, now, Cached(), stack);
      NeedsGrow(codes, i);
      SpentChain(g, cached, now, stack, Needs(codes), codes[i].needs, Needs(codes), {}, counts, before, Count());
      if refused.Some? {
        r := refused.value;
        TracedMore(g, old(resolving), codes[i].needs, Needs(codes), r);
        StoppedAt(g, cached, now, stack, codes, i, token, r);
        return;
      }
      PassMore(g, cached, now, stack, codes, i);
      DecoratedLater(codes[..i], value, received, first, minted, first, values);
      ghost var mid := values;
      var v := Apply(codes[i], received);
      r := Made(v);
      DecoratedMore(codes, i, value, received, v, first, mid, values);
    }

    /** The extenders of a token, in the order in which they were registered. */
    method Decorate(codes: seq<Extender>, token: string, value: Value) returns (r: Result)
      requires Valid() && Numbered(value, values)
      modifies this
      ensures Valid() && Kept({}) && Harmless(old(G()), old(Cached()), old(Stack()), Cached())
      ensures r.Made? ==> Pass(old(G()), old(Cached()), old(Stack()), codes)
      ensures r.Made? ==> Decorated(codes, value, r.value, old(values), values) && Numbered(r.value, values)
      ensures !r.Made? ==> Stopped(old(G()), old(Cached()), old(Stack()), codes, token, r)
      ensures Independent(codes) ==> Same() && (r.Made? || r == Threw(token))
      ensures Spent(old(G()), old(Cached()), old(Stack()), Needs(codes), {}, old(Count()), Count())
      ensures TracedOne(old(G()), old(resolving), Needs(codes), r)
      decreases Free(), 3, 1
    {
      ghost var g, cached, stack, counts, first := G(), Cached(), Stack(), Count(), values;
      r := Made(value);
      for i := 0 to |codes|
        invariant Valid() && Kept({}) && G() == g && Stack() == stack && Harmless(g, cached, stack, Cached())
        invariant r.Made? && Pass(g, cached, stack, codes[..i])
        invariant Decorated(codes[..i], value, r.value, first, values) && Numbered(r.value, values)
        invariant Independent(codes) ==> Same()
        invariant Spent(g, cached, stack, Needs(codes), {}, counts, Count())
      {
        r := DecorateNext(codes, i, token, r.value, value, cached, counts, first);
        if !r.Made? {
          return;
        }
      }
      assert codes[..|codes|] == codes;
    }

    /** The factory of a token being resolved. */
    method Produce(token: string, binding: Binding) returns (r: Result)
      requires Valid() && token in resolving && bindings[token] == binding
      modifies this
      ensures Valid() && Kept({token}) && Harmless(old(G()), old(Cached()), old(Stack()), Cached())
      ensures r.Made? ==>
        !binding.factory.throws && AllFine(old(G()), old(Cached()), old(Stack()), binding.factory.needs)
      ensures !r.Made? ==>
        || (r == Threw(token) && binding.factory.throws)
        || Refused(old(G()), old(Cached()), old(Stack()), binding.factory.needs, r)
      ensures wasted[token] == old(wasted[token])
      ensures completed[token] == old(completed[token]) + if r.Made? then 1 else 0
      ensures binding.factory.needs == [] ==> instances == old(instances) && scope == old(scope)
      ensures r.Made? <==> Completes(old(G()), old(Cached()), old(Stack()), token)
      ensures r.Made? ==> Gives(binding.factory.given, r.value, old(values), values) && Numbered(r.value, values)
      ensures Spent(old(G()), old(Cached()), old(Stack()), binding.factory.needs, {token}, old(Count()), Count())
      ensures TracedOne(old(G()), old(resolving), binding.factory.needs, r)
      decreases Free(), 3, 0
    {
      var refused := Run(binding.factory.needs, binding.factory.throws, token);
      if refused.Some? {
        return refused.value;
      }
      if binding.factory.given.Some? {
        r := Made(Known(binding.factory.given.value));
      } else {
        var v := Mint();
        r := Made(v);
      }
      completed := completed + multiset{token};
    }

    /** The extenders of a token being resolved, on the value its factory gave. */
    method Adorn(token: string, value: Value) returns (r: Result)
      requires Valid() && token in resolving && Numbered(value, values)
      modifies this
      ensures Valid() && Kept({token}) && Harmless(old(G()), old(Cached()), old(Stack()), Cached())
      ensures !r.Made? ==>
        Stopped(old(G()), old(Cached()), old(Stack()), Extenders(old(G()), token), token, r)
      ensures r.Made? <==> Lasts(old(G()), old(Cached()), old(Stack()), token)
      ensures r.Made? ==> Numbered(r.value, values)
      ensures r.Made? ==> Decorated(Extenders(old(G()), token), value, r.value, old(values), values)
      ensures Spent(old(G()), old(Cached()), old(Stack()), Needs(Extenders(old(G()), token)), {token}, old(Count()),
                    Count())
      ensures completed[token] == old(completed[token])
      ensures wasted[token] == old(wasted[token]) + if r.Made? then 0 else 1
      ensures old(Spoiled(token)) ==> r == Threw(token) && instances == old(instances) && scope == old(scope)
      ensures TracedOne(old(G()), old(resolving), Needs(Extenders(old(G()), token)), r)
      decreases Free(), 4, 0
    {
      var codes := if token in extenders then extenders[token] else [];
      r := Decorate(codes, token, value);
      if !r.Made? {
        wasted := wasted + multiset{token};
      }
    }

    /** The factory of a token being resolved, then its extenders. */
    method Build(token: string, binding: Binding) returns (r: Result)
      requires Valid() && token in resolving && bindings[token] == binding
      modifies this
      ensures Valid() && Kept({token}) && Harmless(old(G()), old(Cached()), old(Stack()), Cached())
      ensures Outcome(old(G()), old(Cached()), old(Stack()), token, r)
      ensures completed[token] + old(wasted[token])
           == old(completed[token]) + wasted[token] + if r.Made? then 1 else 0
      ensures old(Spoiled(token)) ==> Wasted(token, r)
      ensures r.Made? ==> BuiltAs(old(G()), token, r.value, old(values), values) && Numbered(r.value, values)
      ensures Tallied(old(G()), old(Cached()), old(Stack()), token, r.Made?, old(Count()), Count())
      ensures Spent(old(G()), old(Cached()), old(Stack()),
                    binding.factory.needs + Needs(Extenders(old(G()), token)), {token}, old(Count()), Count())
      ensures TracedOne(old(G()), old(resolving), binding.factory.needs + Needs(Extenders(old(G()), token)), r)
      decreases Free(), 5, 0
    {
      ghost var g, cached, stack, counts := G(), Cached(), Stack(), Count();
      ghost var factory, added := binding.factory.needs, Needs(Extenders(g, token));
      r := Produce(token, binding);
      ghost var now, made, before, mid := Cached(), r, Count(), values;
      if r.Made? {
        r := Adorn(token, r.value);
        if r.Made? {
          Composed(g, token, made.value, r.value, old(values), mid, values);
        }
        HarmlessChain(g, cached, now, Cached(), stack);
        LastsBefore(g, cached, now, stack, token);
      }
      SpentChain(g, cached, now, stack, factory, added, factory + added, {token}, counts, before, Count());
      OutcomeOf(g, cached, now, stack, token, made, r);
    }

    /** Puts a token on the stack and builds it. */
    method BuildAbove(token: string, binding: Binding) returns (r: Result)
      requires Valid() && token in bindings && bindings[token] == binding && token !in resolving && token !in Cached()
      modifies this
      ensures Valid() && KeptBelow({}) && resolving == old(resolving) + [token] && Stack() == old(Stack()) + {token}
      ensures Harmless(old(G()), old(Cached()), old(Stack()) + {token}, Cached())
      ensures Outcome(old(G()), old(Cached()), old(Stack()) + {token}, token, r)
      ensures wasted[token] <= completed[token]
      ensures binding.lifetime.Singleton? ==> completed[token] <= wasted[token] + if r.Made? then 1 else 0
      ensures old(Spoiled(token)) ==> Wasted(token, r)
      ensures r.Made? ==> BuiltAs(old(G()), token, r.value, old(values), values) && Numbered(r.value, values)
      ensures Tallied(old(G()), old(Cached()), old(Stack()) + {token}, token, r.Made?, old(Count()), Count())
      ensures Spent(old(G()), old(Cached()), old(Stack()) + {token},
                    binding.factory.needs + Needs(Extenders(old(G()), token)), {token}, old(Count()), Count())
      ensures TracedOne(old(G()), old(resolving) + [token],
                        binding.factory.needs + Needs(Extenders(old(G()), token)), r)
      decreases Free(), 0, 0
    {
      assert Even(bindings, instances.Keys, Count(), token);
      ghost var stack := Stack();
      resolving := resolving + [token];
      assert Stack() == stack + {token};
      r := Build(token, binding);
      assert token in resolving;
    }

    /** Builds a token with the token on the stack, and takes it off again whatever happens. */
    method Attempt(token: string, binding: Binding) returns (r: Result)
      requires Valid() && token in bindings && bindings[token] == binding && token !in resolving && token !in Cached()
      modifies this
      ensures Kept({}) && Harmless(old(G()), old(Cached()), old(Stack()), Cached())
      ensures Outcome(old(G()), old(Cached()), old(Stack()) + {token}, token, r)
      ensures token !in Cached() && Open() && Minted()
      ensures AllEven(bindings, instances.Keys, Count(), old(Stack()) + {token})
      ensures wasted[token] <= completed[token]
      ensures binding.lifetime.Singleton? ==> completed[token] <= wasted[token] + if r.Made? then 1 else 0
      ensures old(Spoiled(token)) ==> Wasted(token, r)
      ensures r.Made? ==> BuiltAs(old(G()), token, r.value, old(values), values) && Numbered(r.value, values)
      ensures Tallied(old(G()), old(Cached()), old(Stack()) + {token}, token, r.Made?, old(Count()), Count())
      ensures Spent(old(G()), old(Cached()), old(Stack()), [token], {}, old(Count()), Count())
      ensures Traced(old(G()), old(resolving), token, r)
      decreases Free(), 0, 1
    {
      ghost var g, cached, stack, counts := G(), Cached(), Stack(), Count();
      r := BuildAbove(token, binding);
      resolving := resolving[..|resolving| - 1];
      assert Stack() == stack;
      TracedAbove(g, resolving, token, r);
      HarmlessAbove(g, cached, stack, token, Cached());
      SpentAbove(g, cached, stack, token, binding.factory.needs + Needs(Extenders(g, token)), counts, Count());
    }

    /** Builds a bound token that is neither cached nor being resolved, and caches it as its lifetime asks. */
    method Resolve(token: string, binding: Binding) returns (r: Result)
      requires Valid() && token in bindings && bindings[token] == binding && token !in resolving && token !in Cached()
      modifies this
      ensures Valid() && Kept({}) && Harmless(old(G()), old(Cached()), old(Stack()), Cached())
      ensures Verdict(old(G()), old(Cached()), old(Stack()), token, r)
      ensures r.Made? && binding.lifetime.Singleton? ==> token in instances && instances[token] == r.value
      ensures r.Made? && binding.lifetime.Scoped? && scope.Some? ==>
        token in scope.value && scope.value[token] == r.value
      ensures !binding.lifetime.Singleton? ==> token !in instances
      ensures old(Spoiled(token)) ==> Wasted(token, r)
      ensures r.Made? ==> BuiltAs(old(G()), token, r.value, old(values), values) && Numbered(r.value, values)
      ensures Tallied(old(G()), old(Cached()), old(Stack()) + {token}, token, r.Made?, old(Count()), Count())
      ensures Spent(old(G()), old(Cached()), old(Stack()), [token], {}, old(Count()), Count())
      ensures Traced(old(G()), old(resolving), token, r)
      decreases Free(), 0, 2
    {
      r := Attempt(token, binding);
      VerdictAbove(old(G()), old(Cached()), old(Stack()), token, r);
      ghost var made := instances.Keys;
      if r.Made? {
        Keep(token, binding.lifetime, r.value);
      }
      KeepingEvens(bindings, made, instances.Keys, Count(), Stack(), token);
    }

    /** Caches a value just built. */
    method Keep(token: string, lifetime: Lifetime, value: Value)
      requires token !in Cached() && Minted() && Numbered(value, values)
      modifies this`instances, this`scope
      ensures Minted()
      ensures instances == if lifetime.Singleton? then old(instances)[token := value] else old(instances)
      ensures scope == if lifetime.Scoped? && old(scope).Some? then Some(old(scope).value[token := value])
                       else old(scope)
      ensures Cached() == old(Cached())
                          + if lifetime.Singleton? || (lifetime.Scoped? && scope.Some?) then {token} else {}
    {
      if lifetime.Singleton? {
        instances := instances[token := value];
      } else if lifetime.Scoped? && scope.Some? {
        scope := Some(scope.value[token := value]);
      }
    }

    /** `make`. */
    method Make(token: string) returns (r: Result)
      requires Valid()
      modifies this
      ensures Valid() && Kept({}) && Harmless(old(G()), old(Cached()), old(Stack()), Cached())
      ensures Verdict(old(G()), old(Cached()), old(Stack()), token, r)
      ensures r.Made? <==> Fine(old(G()), old(Cached()), old(Stack()), token)
      ensures old(Lookup(token)).Some? ==> r == Made(old(Lookup(token)).value) && Same()
      ensures r.Made? && token in bindings && Keeps(bindings[token].lifetime) ==> Lookup(token) == Some(r.value)
      ensures forall t <- bindings :: bindings[t].lifetime.Singleton? && t !in resolving ==>
        completed[t] <= wasted[t] + 1
      ensures old(Spoiled(token) && token !in Cached() && token !in resolving) ==> Wasted(token, r)
      ensures old(token in bindings && token !in Cached() && token !in resolving) ==>
        && Tallied(old(G()), old(Cached()), old(Stack()) + {token}, token, r.Made?, old(Count()), Count())
        && (r.Made? ==> BuiltAs(old(G()), token, r.value, old(values), values))
      ensures r.Made? ==> Numbered(r.value, values)
      ensures Spent(old(G()), old(Cached()), old(Stack()), [token], {}, old(Count()), Count())
      ensures Traced(old(G()), old(resolving), token, r)
      decreases Free(), 0, 3
    {
      EvensAreBounded(bindings, instances.Keys, Count(), Stack());
      if token in instances {
        return Made(instances[token]);
      }
      if scope.Some? && token in scope.value {
        return Made(scope.value[token]);
      }
      if token !in bindings {
        assert Path(G(), Cached(), [token]);
        assert Reaches(G(), Cached(), token, token);
        return NotFound(token);
      }
      if token in resolving {
        assert Loops(G(), Cached(), Stack(), [token]);
        assert Lasso(G(), Cached(), Stack(), token);
        return Circular(resolving + [token]);
      }
      r := Resolve(token, bindings[token]);
      EvensAreBounded(bindings, instances.Keys, Count(), Stack());
    }

    // -------------------------------------------------------- registration

    /** `bind`, `singleton` and `scoped`: a clean slate for the token, except in a scope that is open. */
    method Rebind(token: string, binding: Binding)
      requires Valid()
      modifies this
      ensures Valid() && bindings == old(bindings)[token := binding]
      ensures instances == old(instances) - {token} && extenders == old(extenders) - {token}
      ensures scope == old(scope) && resolving == old(resolving)
      ensures completed == old(completed)[token := 0] && wasted == old(wasted)[token := 0]
    {
      bindings := bindings[token := binding];
      instances := instances - {token};
      extenders := extenders - {token};
      completed, wasted := completed[token := 0], wasted[token := 0];
      ResettingEvens(old(bindings), bindings, old(instances).Keys, instances.Keys, old(Count()), Stack(), token);
    }

    /** `instance`: an already made value. */
    method Instance(token: string, value: nat)
      requires Valid() && token !in resolving
      modifies this
      ensures Valid() && bindings == old(bindings)[token := Binding(Code([], false, Some(value)), Singleton)]
      ensures instances == old(instances)[token := Known(value)] && extenders == old(extenders) - {token}
      ensures scope == old(scope) && resolving == old(resolving)
      ensures completed == old(completed)[token := 0] && wasted == old(wasted)[token := 0]
    {
      bindings := bindings[token := Binding(Code([], false, Some(value)), Singleton)];
      extenders := extenders - {token};
      instances := instances[token := Known(value)];
      completed, wasted := completed[token := 0], wasted[token := 0];
      Besides(old(bindings), token, bindings[token]);
      Besides(old(instances), token, Known(value));
      ResettingEvens(old(bindings), bindings, old(instances).Keys, instances.Keys, old(Count()), Stack(), token);
    }

    /** `extend`: registers the extender first, then runs it at once on a value already cached. */
    method Extend(token: string, code: Extender) returns (refused: Option<Result>)
      requires Valid()
      modifies this
      ensures Valid() && bindings == old(bindings) && resolving == old(resolving)
      ensures extenders == old(extenders)[token := Extenders(old(G()), token) + [code]]
      ensures token !in old(instances) ==> refused == None && instances == old(instances)
      ensures token !in old(instances) ==> scope == old(scope) && completed == old(completed) && wasted == old(wasted)
      ensures token in old(instances) ==>
        && token in instances
        && (if refused.Some? then instances[token] == old(instances[token])
            else Yields(code, old(instances[token]), instances[token], old(values), values))
        && Spent(G(), old(Cached()), old(Stack()), code.needs, {}, old(Count()), Count())
    {
      extenders := extenders[token := (if token in extenders then extenders[token] else []) + [code]];
      refused := None;
      if token in instances {
        refused := Redecorate(token, code);
      }
    }

    /** Runs an extender on the value that its token is cached with. */
    method Redecorate(token: string, code: Extender) returns (refused: Option<Result>)
      requires Valid() && token in instances
      modifies this
      ensures Valid() && bindings == old(bindings) && resolving == old(resolving) && extenders == old(extenders)
      ensures
        && token in instances
        && (if refused.Some? then instances[token] == old(instances[token])
            else Yields(code, old(instances[token]), instances[token], old(values), values))
      ensures Spent(G(), old(Cached()), old(Stack()), code.needs, {}, old(Count()), Count())
    {
      var cached := instances[token];
      refused := Run(code.needs, code.throws, token);
      if refused.None? {
        var v := Apply(code, cached);
        instances := instances[token := v];
        assert instances.Keys == instances.Keys + {token};
      }
    }

    /** `forgetInstance`: the next `make` builds the token anew. */
    method ForgetInstance(token: string)
      requires Valid()
      modifies this
      ensures Valid() && token !in Cached() && bindings == old(bindings) && extenders == old(extenders)
      ensures resolving == old(resolving) && instances == old(instances) - {token}
      ensures scope == if old(scope).Some? then Some(old(scope).value - {token}) else None
      ensures completed == old(completed)[token := 0] && wasted == old(wasted)[token := 0]
    {
      instances := instances - {token};
      if scope.Some? {
        scope := Some(scope.value - {token});
      }
      completed, wasted := completed[token := 0], wasted[token := 0];
      ResettingEvens(old(bindings), bindings, old(instances).Keys, instances.Keys, old(Count()), Stack(), token);
    }

    /** What was made of a token that is cached is what is cached. */
    predicate Settled(t: string, r: Result)
      reads this
    {
      r.Made? && t in bindings && Keeps(bindings[t].lifetime) ==> Lookup(t) == Some(r.value)
    }

    predicate AllSettled(tokens: seq<string>, made: seq<Result>)
      requires |made| <= |tokens|
      reads this
    {
      forall i :: 0 <= i < |made| ==> Settled(tokens[i], made[i])
    }

    /** The next of several tokens. */
    method MakeNext(tokens: seq<string>, before: seq<Result>, ghost cached: set<string>, ghost counts: Counts)
      returns (made: seq<Result>)
      requires Valid() && |before| < |tokens| && AllSettled(tokens, before) && Harmless(G(), cached, Stack(), Cached())
      requires Spent(G(), cached, Stack(), tokens, {}, counts, Count())
      modifies this
      ensures Valid() && Kept({}) && |made| == |before| + 1 && made[..|before|] == before && AllSettled(tokens, made)
      ensures Harmless(old(G()), cached, old(Stack()), Cached())
      ensures Verdict(old(G()), cached, old(Stack()), tokens[|before|], made[|before|])
      ensures Spent(old(G()), cached, old(Stack()), tokens, {}, counts, Count())
    {
      var r := MakeSince(tokens[|before|], cached, tokens, counts);
      made := before + [r];
    }

    /** Makes `tokens` one after the other, whatever is refused. */
    method MakeEach(tokens: seq<string>) returns (made: seq<Result>)
      requires Valid()
      modifies this
      ensures Valid() && Kept({}) && |made| == |tokens| && AllSettled(tokens, made)
      ensures Harmless(old(G()), old(Cached()), old(Stack()), Cached())
      ensures Answered(old(G()), old(Cached()), old(Stack()), tokens, made)
      ensures Spent(old(G()), old(Cached()), old(Stack()), tokens, {}, old(Count()), Count())
    {
      ghost var g, cached, stack, counts := G(), Cached(), Stack(), Count();
      made := [];
      for i := 0 to |tokens|
        invariant Valid() && Kept({}) && G() == g && Stack() == stack && Harmless(g, cached, stack, Cached())
        invariant |made| == i && Answered(g, cached, stack, tokens[..i], made) && AllSettled(tokens, made)
        invariant Spent(g, cached, stack, tokens, {}, counts, Count())
      {
        ghost var before := made;
        made := MakeNext(tokens, made, cached, counts);
        AnsweredSnoc(g, cached, stack, tokens, before, made);
      }
      assert tokens[..|tokens|] == tokens;
    }

    /**
     * `runScoped` around some resolutions: each answers by the graph and caches at the start, within the scope a
     * token that is cached at all is made once, and nothing made for the scope outlives it.
     */
    method RunScoped(tokens: seq<string>) returns (made: seq<Result>)
      requires Valid()
      modifies this
      ensures Valid() && scope == old(scope) && bindings == old(bindings) && extenders == old(extenders)
      ensures resolving == old(resolving)
      ensures forall t <- old(instances) :: t in instances && instances[t] == old(instances[t])
      ensures forall t <- instances :: t in old(instances) || (t in bindings && bindings[t].lifetime.Singleton?)
      ensures Answered(old(G()), old(instances).Keys, old(Stack()), tokens, made)
      ensures Spent(old(G()), old(instances).Keys, old(Stack()), tokens, {}, old(Count()), Count())
      ensures forall t <- tokens :: t in bindings && !bindings[t].lifetime.Transient? ==> Once(tokens, made, t)
    {
      var outer := scope;
      scope := Some(map[]);
      assert Cached() == instances.Keys;
      made := MakeEach(tokens);
      scope := outer;
    }
  }

  /** Each token is answered by the graph and caches given. */
  ghost predicate Answered(g: Graph, cached: set<string>, stack: set<string>, tokens: seq<string>, made: seq<Result>) {
    |made| == |tokens| && forall i :: 0 <= i < |made| ==> Verdict(g, cached, stack, tokens[i], made[i])
  }

  lemma AnsweredSnoc(g: Graph, cached: set<string>, stack: set<string>, tokens: seq<string>, before: seq<Result>,
                     made: seq<Result>)
    requires |before| < |tokens| && Answered(g, cached, stack, tokens[..|before|], before)
    requires |made| == |before| + 1 && made[..|before|] == before
    requires Verdict(g, cached, stack, tokens[|before|], made[|before|])
    ensures Answered(g, cached, stack, tokens[..|made|], made)
  {
    forall i | 0 <= i < |made| ensures Verdict(g, cached, stack, tokens[..|made|][i], made[i]) {
      if i < |before| {
        assert made[i] == before[i] && tokens[..|before|][i] == tokens[i];
      }
    }
  }

  predicate MadeOf(tokens: seq<string>, made: seq<Result>, t: string, i: int)
    requires |made| == |tokens|
  {
    0 <= i < |made| && tokens[i] == t && made[i].Made?
  }

  /** Whatever was made of `t` is one value. */
  ghost predicate Once(tokens: seq<string>, made: seq<Result>, t: string)
    requires |made| == |tokens|
  {
    forall i, j :: MadeOf(tokens, made, t, i) && MadeOf(tokens, made, t, j) ==> made[i] == made[j]
  }

  /**
   * A singleton whose extender throws is built anew each time it is asked for: its factory completes as often as
   * it is asked for, and the token is never cached.
   */
  method MakeSpoiled(c: Container, token: string, times: nat) returns (made: seq<Result>)
    requires c.Valid() && c.Spoiled(token) && token !in c.Cached() && token !in c.resolving
    modifies c
    ensures c.Valid() && c.bindings == old(c.bindings) && c.instances == old(c.instances) && c.scope == old(c.scope)
    ensures |made| == times && forall r <- made :: r == Threw(token)
    ensures c.completed[token] == old(c.completed[token]) + times
  {
    made := [];
    for i := 0 to times
      invariant c.Valid() && c.Spoiled(token) && c.instances == old(c.instances) && c.scope == old(c.scope)
      invariant c.bindings == old(c.bindings) && c.resolving == old(c.resolving)
      invariant |made| == i && forall r <- made :: r == Threw(token)
      invariant c.completed[token] == old(c.completed[token]) + i
    {
      var r := c.Make(token);
      made := made + [r];
    }
  }

  /** A singleton that is not made in vain has its factory run at most once, and not again once it is cached. */
  method MakeAround(c: Container, token: string, tokens: seq<string>) returns (made: seq<Result>)
    requires c.Valid() && token in c.bindings && c.bindings[token].lifetime.Singleton? && token !in c.resolving
    requires !Wastes(c.G(), c.Cached(), c.Stack(), token)
    modifies c
    ensures c.Valid() && c.Kept({}) && Answered(old(c.G()), old(c.Cached()), old(c.Stack()), tokens, made)
    ensures !Wastes(c.G(), c.Cached(), c.Stack(), token) && c.wasted[token] == old(c.wasted[token])
    ensures c.completed[token] <= old(c.completed[token]) + if token in old(c.Cached()) then 0 else 1
  {
    ghost var g, cached, stack, counts := c.G(), c.Cached(), c.Stack(), c.Count();
    assert Even(c.bindings, c.instances.Keys, counts, token);
    made := c.MakeEach(tokens);
    AttemptBefore(g, cached, c.Cached(), stack, token);
    assert Even(c.bindings, c.instances.Keys, c.Count(), token);
    assert SpentOn(g, cached, stack, tokens, token, counts, c.Count());
  }

  /** How often the factory of an uncached singleton completes when the token is asked for so many times. */
  ghost function Completions(g: Graph, cached: set<string>, stack: set<string>, t: string, times: nat): nat {
    if !Completes(g, cached, stack + {t}, t) then 0
    else if !Lasts(g, cached, stack + {t}, t) then times
    else if times == 0 then 0 else 1
  }

  /** It has completed as often for the times it has been asked for, and the token is cached if it is at all. */
  ghost predicate Often(g: Graph, cached: set<string>, stack: set<string>, t: string, now: set<string>, times: nat,
                        start: nat, completed: nat)
  {
    && completed == start + Completions(g, cached, stack, t, times)
    && (t in now <==> times > 0 && Completes(g, cached, stack + {t}, t) && Lasts(g, cached, stack + {t}, t))
  }

  lemma OftenMore(g: Graph, cached: set<string>, now: set<string>, later: set<string>, stack: set<string>, t: string,
                  times: nat, start: nat, made: bool, before: Counts, after: Counts)
    requires t in g.bindings && Harmless(g, cached, stack, now) && now <= later
    requires Often(g, cached, stack, t, now, times, start, before.completed[t])
    requires t in now ==> after == before
    requires t !in now ==> Tallied(g, now, stack + {t}, t, made, before, after) && (t in later <==> made)
    ensures Often(g, cached, stack, t, later, times + 1, start, after.completed[t])
  {
    AttemptBefore(g, cached, now, stack, t);
  }

  lemma RefusedIsNotCached(g: Graph, now: set<string>, later: set<string>, stack: set<string>, t: string, r: Result)
    requires Harmless(g, now, stack, later) && t !in now && Verdict(g, now, stack, t, r)
    ensures !r.Made? ==> t !in later
  {
  }

  /** Once more. */
  method MakeAgain(c: Container, token: string, ghost cached: set<string>, ghost times: nat, ghost start: nat)
    returns (r: Result)
    requires c.Valid() && token in c.bindings && c.bindings[token].lifetime.Singleton? && token !in c.resolving
    requires Harmless(c.G(), cached, c.Stack(), c.Cached())
    requires Often(c.G(), cached, c.Stack(), token, c.Cached(), times, start, c.completed[token])
    modifies c
    ensures c.Valid() && c.Kept({}) && Harmless(old(c.G()), cached, old(c.Stack()), c.Cached())
    ensures Often(old(c.G()), cached, old(c.Stack()), token, c.Cached(), times + 1, start, c.completed[token])
  {
    ghost var g, now, stack, before := c.G(), c.Cached(), c.Stack(), c.Count();
    assert token in now ==> c.Lookup(token).Some?;
    r := c.Make(token);
    ghost var later := c.Cached();
    if token !in now {
      RefusedIsNotCached(g, now, later, stack, token, r);
    }
    OftenMore(g, cached, now, later, stack, token, times, start, r.Made?, before, c.Count());
    HarmlessChain(g, cached, now, later, stack);
  }

  /**
   * At most once, if and only if the factory does not complete or the extenders let its value pass: otherwise it
   * completes each time.
   */
  method MakeOften(c: Container, token: string, times: nat) returns (made: seq<Result>)
    requires c.Valid() && token in c.bindings && c.bindings[token].lifetime.Singleton?
    requires token !in c.Cached() && token !in c.resolving
    modifies c
    ensures c.Valid() && c.Kept({}) && |made| == times
    ensures c.completed[token]
         == old(c.completed[token]) + Completions(old(c.G()), old(c.Cached()), old(c.Stack()), token, times)
    ensures times > 1 ==>
      (c.completed[token] <= old(c.completed[token]) + 1
       <==> !Wastes(old(c.G()), old(c.Cached()), old(c.Stack()), token))
  {
    ghost var g, cached, stack, start := c.G(), c.Cached(), c.Stack(), c.completed[token];
    made := [];
    for i := 0 to times
      invariant c.Valid() && c.Kept({}) && c.G() == g && c.Stack() == stack && Harmless(g, cached, stack, c.Cached())
      invariant |made| == i && Often(g, cached, stack, token, c.Cached(), i, start, c.completed[token])
    {
      var r := MakeAgain(c, token, cached, i, start);
      made := made + [r];
    }
  }

  /** Where the extenders need nothing, that is: unless one of them throws. */
  lemma IndependentWastes(g: Graph, cached: set<string>, stack: set<string>, t: string)
    requires Independent(Extenders(g, t))
    ensures Wastes(g, cached, stack, t) <==>
      Completes(g, cached, stack + {t}, t) && exists code :: code in Extenders(g, t) && code.throws
  {
    IndependentNeeds(Extenders(g, t));
  }

  lemma {:induction false} IndependentNeeds(codes: seq<Extender>)
    requires Independent(codes)
    ensures Needs(codes) == []
  {
    if codes != [] {
      IndependentNeeds(codes[..|codes| - 1]);
    }
  }

  /** From an empty container: one singleton, one extender that throws, and two completions of the factory. */
  method SingletonRunsTwice(token: string) returns (c: Container)
    ensures fresh(c) && c.Valid() && c.bindings == map[token := Binding(Code([], false, None), Singleton)]
    ensures token !in c.Cached() && c.completed[token] == 2
  {
    c := new Container();
    c.Rebind(token, Binding(Code([], false, None), Singleton));
    var thrower := Extender([], true, (v: Value) => Received);
    var refused := c.Extend(token, thrower);
    assert Extenders(c.G(), token)[0] == thrower;
    var made := MakeSpoiled(c, token, 2);
  }

  /** A value cached in an open scope survives a rebinding of its token: it is what `make` still answers. */
  method RebindInScope(c: Container, token: string, binding: Binding) returns (r: Result)
    requires c.Valid() && c.scope.Some? && token in c.scope.value
    modifies c
    ensures c.Valid() && c.bindings == old(c.bindings)[token := binding]
    ensures r == Made(old(c.scope.value[token]))
  {
    c.Rebind(token, binding);
    r := c.Make(token);
  }

  /**
   * When everything within reach is bound and nothing throws, `make` with nothing else being resolved returns
   * if and only if no path of uncached tokens leads back into itself; otherwise it names the cycle.
   */
  lemma MakeReturnsIffAcyclic(g: Graph, cached: set<string>, t: string, r: Result)
    requires Verdict(g, cached, {}, t, r)
    requires forall u :: Reaches(g, cached, t, u) ==> u in g.bindings && !Throws(g, u)
    ensures r.Made? <==> !exists p :: Path(g, cached, p) && p[0] == t && p[|p| - 1] in p[..|p| - 1]
    ensures r.Made? || r.Circular?
  {
    if r.Made? {
      forall p | Path(g, cached, p) && p[0] == t ensures p[|p| - 1] !in p[..|p| - 1] {
        assert !Loops(g, cached, {}, p);
      }
    } else if r.Circular? {
      var p :| Loops(g, cached, {}, p) && p[0] == t;
    }
  }

  lemma HarmlessAbove(g: Graph, cached: set<string>, stack: set<string>, t: string, now: set<string>)
    requires Harmless(g, cached, stack + {t}, now)
    ensures Harmless(g, cached, stack, now)
  {
    forall k | k in now && k !in cached ensures Fine(g, cached, stack, k) {
      FewerStackedFine(g, cached, stack, stack + {t}, k);
    }
  }

  /** What building a token answers is the verdict on the token. */
  lemma VerdictAbove(g: Graph, cached: set<string>, stack: set<string>, t: string, r: Result)
    requires t !in cached && t !in stack && Outcome(g, cached, stack + {t}, t, r)
    ensures Verdict(g, cached, stack, t, r)
  {
    if r.Made? {
      FineFrom(g, cached, stack, t);
    } else if r == Threw(t) && Throws(g, t) {
      assert Path(g, cached, [t]);
    } else {
      var d :| d in g.bindings[t].factory.needs + Needs(Extenders(g, t)) && Verdict(g, cached, stack + {t}, d, r);
      assert Edge(g, t, d);
      match r
      case Circular(_) => LassoBelow(g, cached, stack, t, d);
      case NotFound(u) => ReachBelow(g, cached, t, d, u);
      case Threw(u) => ReachBelow(g, cached, t, d, u);
    }
  }

  lemma RefusedBefore(g: Graph, cached: set<string>, now: set<string>, stack: set<string>, needs: seq<string>,
                      all: seq<string>,
                      r: Result)
    requires Harmless(g, cached, stack, now) && Refused(g, now, stack, needs, r) && forall d <- needs :: d in all
    ensures Refused(g, cached, stack, all, r)
  {
    var d :| d in needs && Verdict(g, now, stack, d, r);
    VerdictBefore(g, cached, now, stack, d, r);
  }

  lemma {:induction false} NeedsGrow(codes: seq<Extender>, i: nat)
    requires i < |codes|
    ensures forall d <- codes[i].needs :: d in Needs(codes)
  {
    var init := codes[..|codes| - 1];
    if i < |codes| - 1 {
      NeedsGrow(init, i);
    }
  }
}
