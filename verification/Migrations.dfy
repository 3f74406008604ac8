/** Migration rows as an unordered table, the order they stand for, and what a rollback of some batches undoes. */
module Migrations {
  import opened Text

  datatype Entry = Entry(name: string, batch: nat)

  /** By batch, then by name. */
  predicate Before(e: Entry, f: Entry) {
    e.batch < f.batch || (e.batch == f.batch && Less(e.name, f.name))
  }

  lemma BeforeIsStrict(e: Entry, f: Entry)
    ensures !(Before(e, f) && Before(f, e)) && !Before(e, e)
    ensures Before(e, f) || Before(f, e) || e == f
  {
    LessIsStrict(e.name, f.name);
  }

  lemma BeforeIsTransitive(e: Entry, f: Entry, g: Entry)
    requires Before(e, f) && Before(f, g)
    ensures Before(e, g)
  {
    if e.batch == f.batch && f.batch == g.batch {
      LessIsTransitive(e.name, f.name, g.name);
    }
  }

  ghost predicate Sorted(h: seq<Entry>) {
    forall i, j :: 0 <= i < j < |h| ==> Before(h[i], h[j])
  }

  ghost predicate Ascending(names: seq<string>) {
    forall i, j :: 0 <= i < j < |names| ==> Less(names[i], names[j])
  }

  /** `h` lists the rows in the order (batch, name). */
  ghost predicate IsHistory(h: seq<Entry>, rows: set<Entry>) {
    Sorted(h) && forall e :: e in h <==> e in rows
  }

  lemma {:induction false} LastIsGreatest(h: seq<Entry>, e: Entry)
    requires Sorted(h) && h != [] && e in h
    ensures e == h[|h| - 1] || Before(e, h[|h| - 1])
  {
    var i :| 0 <= i < |h| && h[i] == e;
  }

  /** The order decides the list: there is only one history of a table. */
  lemma {:induction false} HistoryIsUnique(g: seq<Entry>, h: seq<Entry>, rows: set<Entry>)
    requires IsHistory(g, rows) && IsHistory(h, rows)
    ensures g == h
    decreases |g|
  {
    assert |g| > 0 ==> g[0] in h;
    assert |h| > 0 ==> h[0] in g;
    if g != [] {
      var last := g[|g| - 1];
      LastIsGreatest(g, h[|h| - 1]);
      LastIsGreatest(h, last);
      BeforeIsStrict(last, h[|h| - 1]);
      assert last == h[|h| - 1];
      HistoryWithoutLast(g, rows);
      HistoryWithoutLast(h, rows);
      HistoryIsUnique(g[..|g| - 1], h[..|h| - 1], rows - {last});
    }
  }

  lemma HistoryWithoutLast(h: seq<Entry>, rows: set<Entry>)
    requires IsHistory(h, rows) && h != []
    ensures IsHistory(h[..|h| - 1], rows - {h[|h| - 1]})
  {
    var init, last := h[..|h| - 1], h[|h| - 1];
    forall e ensures e in init <==> e in rows - {last} {
      if e in h {
        var i :| 0 <= i < |h| && h[i] == e;
        if i < |h| - 1 {
          assert init[i] == e;
          BeforeIsStrict(e, last);
        }
      }
      if e in init {
        var i :| 0 <= i < |init| && init[i] == e;
        assert h[i] == e && Before(h[i], last);
        BeforeIsStrict(e, last);
      }
    }
  }

  ghost function Greatest(rows: set<Entry>): (e: Entry)
    requires rows != {}
    ensures e in rows && forall f <- rows :: f == e || Before(f, e)
  {
    var e :| e in rows;
    if rows == {e} then e
    else
      var g := Greatest(rows - {e});
      BeforeIsStrict(g, e);
      if Before(g, e) then
        assert forall f <- rows :: f == e || f == g || Before(f, g);
        assert forall f <- rows :: f == e || Before(f, e) by {
          forall f | f in rows && f != e && f != g ensures Before(f, e) { BeforeIsTransitive(f, g, e); }
        }
        e
      else g
  }

  /** The one history of a table. */
  ghost function Order(rows: set<Entry>): (h: seq<Entry>)
    ensures IsHistory(h, rows)
  {
    if rows == {} then [] else
      var last := Greatest(rows);
      var init := Order(rows - {last});
      assert forall e :: e in init + [last] <==> e in init || e == last;
      init + [last]
  }

  // ------------------------------------------------------------------ batches

  function Batches(rows: set<Entry>): set<nat> { set e | e in rows :: e.batch }

  function Higher(rows: set<Entry>, b: nat): set<nat> { set c | c in Batches(rows) && c > b }

  /** The `step` highest batches; no step means all of them. */
  function Top(rows: set<Entry>, step: Option<nat>): set<nat> {
    set b | b in Batches(rows) && (step.None? || |Higher(rows, b)| < step.value)
  }

  lemma FewerElements<T>(a: set<T>, b: set<T>)
    requires a <= b
    ensures |a| <= |b|
  {
    assert b == a + (b - a);
  }

  lemma TopIsUpwardClosed(rows: set<Entry>, step: Option<nat>, b: nat, c: nat)
    requires b in Top(rows, step) && c in Batches(rows) && b <= c
    ensures c in Top(rows, step)
  {
    FewerElements(Higher(rows, c), Higher(rows, b));
  }

  /** How many of the earliest entries lie outside `top`. */
  function Cut(h: seq<Entry>, top: set<nat>): (n: nat)
    ensures n <= |h|
    ensures forall i :: 0 <= i < n ==> h[i].batch !in top
    ensures n < |h| ==> h[n].batch in top
  {
    if h == [] || h[0].batch in top then 0 else 1 + Cut(h[1..], top)
  }

  /** The rows of the highest batches are the latest stretch of the history. */
  lemma TopIsSuffix(h: seq<Entry>, rows: set<Entry>, step: Option<nat>)
    requires IsHistory(h, rows)
    ensures forall i :: 0 <= i < |h| ==> (h[i].batch in Top(rows, step) <==> Cut(h, Top(rows, step)) <= i)
  {
    var n := Cut(h, Top(rows, step));
    forall i | n <= i < |h| ensures h[i].batch in Top(rows, step) {
      if i > n {
        assert h[n] in h && h[i] in h && Before(h[n], h[i]);
        TopIsUpwardClosed(rows, step, h[n].batch, h[i].batch);
      }
    }
  }

  function Names(h: seq<Entry>): (names: seq<string>)
    ensures |names| == |h| && forall i :: 0 <= i < |h| ==> names[i] == h[i].name
  {
    seq(|h|, i requires 0 <= i < |h| => h[i].name)
  }

  function Reversed<T>(s: seq<T>): (r: seq<T>)
    ensures |r| == |s| && forall i :: 0 <= i < |s| ==> r[i] == s[|s| - 1 - i]
  {
    seq(|s|, i requires 0 <= i < |s| => s[|s| - 1 - i])
  }

  /** What rolling back `step` batches undoes, in the order it undoes it. */
  ghost function Undo(rows: set<Entry>, step: Option<nat>): seq<Entry> {
    Reversed(Order(rows)[Cut(Order(rows), Top(rows, step))..])
  }

  // ------------------------------------------------------------------ sorting

  /** The names in code-unit order. */
  method SortNames(all: set<string>) returns (sorted: seq<string>)
    ensures Ascending(sorted) && forall n :: n in sorted <==> n in all
  {
    sorted := [];
    var rest := all;
    while rest != {}
      invariant rest <= all && Ascending(sorted)
      invariant forall n :: n in sorted <==> n in all - rest
      decreases rest
    {
      var n :| n in rest;
      sorted := InsertName(sorted, n);
      rest := rest - {n};
    }
  }

  method InsertName(sorted: seq<string>, n: string) returns (more: seq<string>)
    requires Ascending(sorted) && n !in sorted
    ensures Ascending(more) && forall m :: m in more <==> m in sorted || m == n
  {
    var i := 0;
    while i < |sorted| && Less(sorted[i], n)
      invariant i <= |sorted| && forall j :: 0 <= j < i ==> Less(sorted[j], n)
    {
      i := i + 1;
    }
    forall j | i <= j < |sorted| ensures Less(n, sorted[j]) {
      LessIsStrict(n, sorted[i]);
      assert sorted[i] in sorted;
      if j > i {
        LessIsTransitive(n, sorted[i], sorted[j]);
      }
    }
    more := sorted[..i] + [n] + sorted[i..];
    assert sorted == sorted[..i] + sorted[i..];
  }

  /** The rows newest batch first, and within a batch by name downwards. */
  method SortDescending(all: set<Entry>) returns (sorted: seq<Entry>)
    ensures IsHistory(Reversed(sorted), all)
  {
    var ascending: seq<Entry> := [];
    var rest := all;
    while rest != {}
      invariant rest <= all && IsHistory(ascending, all - rest)
      decreases rest
    {
      var e :| e in rest;
      ascending := InsertEntry(ascending, e, all - rest);
      rest := rest - {e};
      assert all - rest == all - (rest + {e}) + {e};
    }
    sorted := Reversed(ascending);
    assert all - rest == all;
    assert Reversed(sorted) == ascending;
  }

  method InsertEntry(sorted: seq<Entry>, e: Entry, ghost rows: set<Entry>) returns (more: seq<Entry>)
    requires IsHistory(sorted, rows) && e !in rows
    ensures IsHistory(more, rows + {e})
  {
    var i := 0;
    while i < |sorted| && Before(sorted[i], e)
      invariant i <= |sorted| && forall j :: 0 <= j < i ==> Before(sorted[j], e)
    {
      i := i + 1;
    }
    forall j | i <= j < |sorted| ensures Before(e, sorted[j]) {
      assert sorted[i] in sorted && sorted[i] != e;
      BeforeIsStrict(e, sorted[i]);
      if j > i {
        BeforeIsTransitive(e, sorted[i], sorted[j]);
      }
    }
    more := sorted[..i] + [e] + sorted[i..];
    InsertedIsSorted(sorted, e, i);
    Inserted(sorted, e, i);
  }

  lemma InsertedIsSorted(sorted: seq<Entry>, e: Entry, i: nat)
    requires Sorted(sorted) && i <= |sorted|
    requires forall j :: 0 <= j < i ==> Before(sorted[j], e)
    requires forall j :: i <= j < |sorted| ==> Before(e, sorted[j])
    ensures Sorted(sorted[..i] + [e] + sorted[i..])
  {
    var more := sorted[..i] + [e] + sorted[i..];
    forall j, k | 0 <= j < k < |more| ensures Before(more[j], more[k]) {
      assert more[j] == if j < i then sorted[j] else if j == i then e else sorted[j - 1];
      assert more[k] == if k < i then sorted[k] else if k == i then e else sorted[k - 1];
    }
  }

  /** The batches of a table, highest first. */
  method DistinctBatches(rows: set<Entry>) returns (batches: seq<nat>)
    ensures forall b :: b in batches <==> b in Batches(rows)
    ensures forall i, j :: 0 <= i < j < |batches| ==> batches[i] > batches[j]
  {
    batches := [];
    var rest := Batches(rows);
    while rest != {}
      invariant rest <= Batches(rows)
      invariant forall b :: b in batches <==> b in Batches(rows) - rest
      invariant forall i, j :: 0 <= i < j < |batches| ==> batches[i] > batches[j]
      decreases rest
    {
      var b :| b in rest;
      batches := InsertBatch(batches, b);
      rest := rest - {b};
    }
  }

  method InsertBatch(batches: seq<nat>, b: nat) returns (more: seq<nat>)
    requires (forall i, j :: 0 <= i < j < |batches| ==> batches[i] > batches[j]) && b !in batches
    ensures forall i, j :: 0 <= i < j < |more| ==> more[i] > more[j]
    ensures forall c :: c in more <==> c in batches || c == b
  {
    var i := 0;
    while i < |batches| && batches[i] > b
      invariant i <= |batches| && forall j :: 0 <= j < i ==> batches[j] > b
    {
      i := i + 1;
    }
    assert i < |batches| ==> batches[i] in batches;
    more := batches[..i] + [b] + batches[i..];
    Inserted(batches, b, i);
  }

  lemma Inserted<T>(s: seq<T>, x: T, i: nat)
    requires i <= |s|
    ensures forall y :: y in s[..i] + [x] + s[i..] <==> y in s || y == x
  {
    assert s == s[..i] + s[i..];
  }

  /** In a list that falls, the elements above one are exactly those that stand before it. */
  lemma HigherStandBefore(rows: set<Entry>, batches: seq<nat>, i: nat)
    requires forall b :: b in batches <==> b in Batches(rows)
    requires forall i, j :: 0 <= i < j < |batches| ==> batches[i] > batches[j]
    requires i < |batches|
    ensures |Higher(rows, batches[i])| == i
  {
    var higher := set j | 0 <= j < i :: batches[j];
    forall b ensures b in higher <==> b in Higher(rows, batches[i]) {
      if b in Higher(rows, batches[i]) {
        var j :| 0 <= j < |batches| && batches[j] == b;
        assert j < i;
      }
    }
    assert higher == Higher(rows, batches[i]);
    DistinctCount(batches, i);
  }

  lemma {:induction false} DistinctCount(s: seq<nat>, n: nat)
    requires forall i, j :: 0 <= i < j < |s| ==> s[i] > s[j]
    requires n <= |s|
    ensures |set i | 0 <= i < n :: s[i]| == n
  {
    if n > 0 {
      DistinctCount(s, n - 1);
      assert (set i | 0 <= i < n :: s[i]) == (set i | 0 <= i < n - 1 :: s[i]) + {s[n - 1]};
    }
  }

  // ------------------------------------------------------- how many batches

  /** The numbers of a set, falling. */
  ghost function Falling(s: set<nat>): (f: seq<nat>)
    ensures forall b :: b in f <==> b in s
    ensures forall i, j :: 0 <= i < j < |f| ==> f[i] > f[j]
  {
    if s == {} then []
    else
      var b := Highest(s);
      var rest := Falling(s - {b});
      assert forall c :: c in [b] + rest <==> c == b || c in rest;
      [b] + rest
  }

  ghost function Highest(s: set<nat>): (b: nat)
    requires s != {}
    ensures b in s && forall c <- s :: c <= b
  {
    var c :| c in s;
    if s == {c} then c
    else
      var b := Highest(s - {c});
      assert forall d <- s :: d == c || d in s - {c};
      if b < c then c else b
  }

  /** As many batches as asked for, or as there are. */
  function Asked(step: Option<nat>, all: nat): nat { if step.None? || step.value > all then all else step.value }

  /** The rows are in batches above every batch of the other rows. */
  ghost predicate OnTop(some: set<Entry>, rows: set<Entry>) {
    some <= rows && forall e, f :: e in some && f in rows - some ==> f.batch < e.batch
  }

  function Elements(h: seq<Entry>): set<Entry> { set e | e in h }

  /**
   * The plan lists, last first, all rows of as many batches as asked for, or of all there are, and these are above
   * every batch that is left.
   */
  ghost predicate TakesBatches(plan: seq<Entry>, rows: set<Entry>, step: Option<nat>) {
    && OnTop(Elements(plan), rows) && IsHistory(Reversed(plan), Elements(plan))
    && |Batches(Elements(plan))| == Asked(step, |Batches(rows)|)
  }

  lemma TopCount(rows: set<Entry>, step: Option<nat>)
    ensures |Top(rows, step)| == Asked(step, |Batches(rows)|)
  {
    var batches := Falling(Batches(rows));
    DistinctCount(batches, |batches|);
    assert (set i | 0 <= i < |batches| :: batches[i]) == Batches(rows);
    DistinctCount(batches, Asked(step, |batches|));
    TopIsFirst(rows, step, batches, Asked(step, |batches|));
  }

  lemma TopIsFirst(rows: set<Entry>, step: Option<nat>, batches: seq<nat>, n: nat)
    requires batches == Falling(Batches(rows)) && n == Asked(step, |batches|)
    ensures Top(rows, step) == set i | 0 <= i < n :: batches[i]
  {
    forall b ensures b in Top(rows, step) <==> b in set i | 0 <= i < n :: batches[i] {
      if b in Batches(rows) {
        var i :| 0 <= i < |batches| && batches[i] == b;
        HigherStandBefore(rows, batches, i);
      }
    }
  }

  function InBatches(rows: set<Entry>, some: set<nat>): set<Entry> { set e | e in rows && e.batch in some }

  lemma BatchesOfThose(rows: set<Entry>, some: set<nat>)
    requires some <= Batches(rows)
    ensures Batches(InBatches(rows, some)) == some
  {
    forall b | b in some ensures b in Batches(InBatches(rows, some)) {
      var e :| e in rows && e.batch == b;
      assert e in InBatches(rows, some);
    }
  }

  lemma UndoLists(rows: set<Entry>, step: Option<nat>)
    ensures Elements(Undo(rows, step)) == InBatches(rows, Top(rows, step))
    ensures IsHistory(Reversed(Undo(rows, step)), InBatches(rows, Top(rows, step)))
  {
    var plan := Undo(rows, step);
    SuffixIsHistory(Order(rows), rows, step);
    assert Reversed(plan) == Order(rows)[Cut(Order(rows), Top(rows, step))..];
    forall e ensures e in Elements(plan) <==> e in InBatches(rows, Top(rows, step)) {
      InReversed(plan, e);
    }
  }

  lemma TopIsOnTop(rows: set<Entry>, step: Option<nat>)
    ensures OnTop(InBatches(rows, Top(rows, step)), rows)
  {
    var undone := InBatches(rows, Top(rows, step));
    forall e, f | e in undone && f in rows - undone ensures f.batch < e.batch {
      if f.batch >= e.batch {
        assert f.batch in Batches(rows);
        TopIsUpwardClosed(rows, step, e.batch, f.batch);
      }
    }
  }

  lemma UndoTakesBatches(rows: set<Entry>, step: Option<nat>)
    ensures TakesBatches(Undo(rows, step), rows, step)
  {
    UndoLists(rows, step);
    TopIsOnTop(rows, step);
    BatchesOfThose(rows, Top(rows, step));
    TopCount(rows, step);
  }

  lemma InReversed<T>(s: seq<T>, x: T)
    ensures x in Reversed(s) <==> x in s
  {
    if x in s {
      var i :| 0 <= i < |s| && s[i] == x;
      assert Reversed(s)[|s| - 1 - i] == x;
    }
    if x in Reversed(s) {
      var i :| 0 <= i < |s| && Reversed(s)[i] == x;
      assert s[|s| - 1 - i] == x;
    }
  }

  /** That decides the plan: two stretches of as many highest batches are the same rows. */
  lemma SameBatches(rows: set<Entry>, a: set<Entry>, b: set<Entry>)
    requires OnTop(a, rows) && OnTop(b, rows) && |Batches(a)| == |Batches(b)|
    ensures a == b
  {
    if e :| e in a && e !in b {
      OneMoreBatch(rows, a, b, e);
    } else if e :| e in b && e !in a {
      OneMoreBatch(rows, b, a, e);
    }
  }

  lemma OneMoreBatch(rows: set<Entry>, a: set<Entry>, b: set<Entry>, e: Entry)
    requires OnTop(a, rows) && OnTop(b, rows) && e in a && e !in b
    ensures |Batches(b)| < |Batches(a)|
  {
    forall c | c in Batches(b) ensures c in Batches(a) - {e.batch} {
      var f :| f in b && f.batch == c;
      assert e in rows - b && e.batch < f.batch;
      assert f in a;
    }
    FewerElements(Batches(b), Batches(a) - {e.batch});
  }

  /** `plan`: the rows of the `step` highest batches, in the order to undo them. */
  method Plan(rows: set<Entry>, step: Option<nat>) returns (plan: seq<Entry>)
    ensures plan == Undo(rows, step) && TakesBatches(plan, rows, step)
  {
    ghost var h := Order(rows);
    var batches := DistinctBatches(rows);
    var n := if step.None? || step.value > |batches| then |batches| else step.value;
    var targets := set b | b in batches[..n];
    forall b ensures b in targets <==> b in Top(rows, step) {
      if b in Batches(rows) {
        var i :| 0 <= i < |batches| && batches[i] == b;
        HigherStandBefore(rows, batches, i);
        assert i < n ==> batches[..n][i] == b;
      }
    }
    assert targets == Top(rows, step);
    plan := SortDescending(set e | e in rows && e.batch in targets);
    TopIsSuffix(h, rows, step);
    SuffixIsHistory(h, rows, step);
    HistoryIsUnique(Reversed(plan), h[Cut(h, Top(rows, step))..], set e | e in rows && e.batch in Top(rows, step));
    assert plan == Reversed(Reversed(plan));
    UndoTakesBatches(rows, step);
  }

  lemma SuffixIsHistory(h: seq<Entry>, rows: set<Entry>, step: Option<nat>)
    requires IsHistory(h, rows)
    ensures IsHistory(h[Cut(h, Top(rows, step))..], set e | e in rows && e.batch in Top(rows, step))
  {
    TopIsSuffix(h, rows, step);
    SuffixHolds(h, rows, Top(rows, step), Cut(h, Top(rows, step)));
  }

  lemma SuffixHolds(h: seq<Entry>, rows: set<Entry>, top: set<nat>, n: nat)
    requires IsHistory(h, rows) && n <= |h|
    requires forall i :: 0 <= i < |h| ==> (h[i].batch in top <==> n <= i)
    ensures IsHistory(h[n..], set e | e in rows && e.batch in top)
  {
    assert Sorted(h[n..]);
    forall e ensures e in h[n..] <==> e in rows && e.batch in top {
      if e in h {
        var i :| 0 <= i < |h| && h[i] == e;
        assert i >= n ==> h[n..][i - n] == e;
      }
    }
  }
}
