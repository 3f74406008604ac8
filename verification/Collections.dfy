/** The ordered-map collection: its next-key counter stays above every integer key, so appending never overwrites. */
module Collections {
  import opened Text

  datatype Key = Index(n: int) | Name(s: string)

  type Entries<V> = seq<(Key, V)>

  predicate HasKey<V>(items: Entries<V>, k: Key) { exists i :: 0 <= i < |items| && items[i].0 == k }

  /** A JavaScript Map: entries in insertion order under distinct keys. */
  ghost predicate Distinct<V>(items: Entries<V>) {
    forall i, j :: 0 <= i < j < |items| ==> items[i].0 != items[j].0
  }

  /** Every integer key lies below the next one. */
  ghost predicate AllBelow<V>(items: Entries<V>, next: int) {
    forall i :: 0 <= i < |items| && items[i].0.Index? ==> items[i].0.n < next
  }

  function Find<V>(items: Entries<V>, k: Key): (i: nat)
    ensures i <= |items| && (i < |items| ==> items[i].0 == k)
    ensures forall j :: 0 <= j < i ==> items[j].0 != k
  {
    if items == [] || items[0].0 == k then 0 else 1 + Find(items[1..], k)
  }

  function Lookup<V>(items: Entries<V>, k: Key): Option<V> {
    if Find(items, k) < |items| then Some(items[Find(items, k)].1) else None
  }

  /** `map.set`: in place for a key that is there, else at the end. */
  function Set<V>(items: Entries<V>, k: Key, v: V): (more: Entries<V>)
    ensures Distinct(items) ==> Distinct(more)
  {
    var i := Find(items, k);
    if i < |items| then items[i := (k, v)] else items + [(k, v)]
  }

  lemma SetKeys<V>(items: Entries<V>, k: Key, v: V, j: Key)
    ensures HasKey(Set(items, k, v), j) <==> j == k || HasKey(items, j)
  {
    var more := Set(items, k, v);
    assert more[Find(items, k)].0 == k;
    assert forall i :: 0 <= i < |items| ==> more[i].0 == items[i].0;
  }

  /** Every entry but the key's is as it was and where it was, and so is the key's place if it had one. */
  lemma SetInPlace<V>(items: Entries<V>, k: Key, v: V)
    ensures
      var more := Set(items, k, v);
      && |more| == (if HasKey(items, k) then |items| else |items| + 1)
      && (forall i :: 0 <= i < |items| ==> more[i].0 == items[i].0)
      && (Distinct(items) ==> forall i :: 0 <= i < |items| && items[i].0 != k ==> more[i] == items[i])
      && (!HasKey(items, k) ==> more[|items|] == (k, v))
  {
    if HasKey(items, k) {
      assert Find(items, k) < |items|;
    }
  }

  /** `map.delete`. */
  function Delete<V>(items: Entries<V>, k: Key): (fewer: Entries<V>) {
    var i := Find(items, k);
    if i < |items| then items[..i] + items[i + 1..] else items
  }

  function ValuesOf<V>(items: Entries<V>): (values: seq<V>)
    ensures |values| == |items| && forall i :: 0 <= i < |items| ==> values[i] == items[i].1
  {
    seq(|items|, i requires 0 <= i < |items| => items[i].1)
  }

  /** `values` under consecutive keys from `from` on. */
  function Numbered<V>(values: seq<V>, from: int): (items: Entries<V>)
    ensures |items| == |values| && forall i :: 0 <= i < |items| ==> items[i] == (Index(from + i), values[i])
    ensures Distinct(items) && AllBelow(items, from + |values|) && ValuesOf(items) == values
  {
    seq(|values|, i requires 0 <= i < |values| => (Index(from + i), values[i]))
  }

  predicate IsListLike<V>(items: Entries<V>) {
    forall i :: 0 <= i < |items| ==> items[i].0 == Index(i)
  }

  lemma FindAbsent<V>(items: Entries<V>, k: Key)
    requires !HasKey(items, k)
    ensures Find(items, k) == |items|
  {
  }

  lemma SetAbsent<V>(items: Entries<V>, next: int, n: int, v: V)
    requires AllBelow(items, next) && n >= next
    ensures !HasKey(items, Index(n)) && Set(items, Index(n), v) == items + [(Index(n), v)]
  {
    NextIsFree(items, next, n);
    FindAbsent(items, Index(n));
  }

  lemma NumberedSnoc<V>(values: seq<V>, from: int, v: V)
    ensures Numbered(values + [v], from) == Numbered(values, from) + [(Index(from + |values|), v)]
  {
  }

  lemma NextIsFree<V>(items: Entries<V>, next: int, n: int)
    requires AllBelow(items, next) && n >= next
    ensures !HasKey(items, Index(n))
  {
  }

  lemma SetBelow<V>(items: Entries<V>, k: Key, v: V, next: int)
    requires AllBelow(items, next)
    ensures AllBelow(Set(items, k, v), if k.Index? && k.n >= next then k.n + 1 else next)
  {
  }

  /** One `set` after the other. */
  function SetAll<V>(items: Entries<V>, more: Entries<V>): (r: Entries<V>)
    ensures Distinct(items) ==> Distinct(r)
  {
    if more == [] then items else Set(SetAll(items, more[..|more| - 1]), more[|more| - 1].0, more[|more| - 1].1)
  }

  /** One `set` after the other, of keys that are not there yet. */
  function AddAll<V>(items: Entries<V>, more: Entries<V>): (r: Entries<V>)
    ensures Distinct(items) ==> Distinct(r)
  {
    if more == [] then items
    else
      var before := AddAll(items, more[..|more| - 1]);
      if HasKey(before, more[|more| - 1].0) then before else Set(before, more[|more| - 1].0, more[|more| - 1].1)
  }

  lemma SetAllSnoc<V>(items: Entries<V>, more: Entries<V>, e: (Key, V))
    ensures SetAll(items, more + [e]) == Set(SetAll(items, more), e.0, e.1)
    ensures AddAll(items, more + [e])
         == if HasKey(AddAll(items, more), e.0) then AddAll(items, more) else Set(AddAll(items, more), e.0, e.1)
  {
    assert (more + [e])[..|more|] == more;
  }

  /** The keys of `more` are distinct and new. */
  ghost predicate Fresh<V>(items: Entries<V>, more: Entries<V>) {
    && Distinct(more)
    && forall i, j :: 0 <= i < |items| && 0 <= j < |more| ==> items[i].0 != more[j].0
  }

  lemma SetFresh<V>(items: Entries<V>, more: Entries<V>)
    requires more != [] && Fresh(items, more)
    ensures
      var before, e := items + more[..|more| - 1], more[|more| - 1];
      !HasKey(before, e.0) && Set(before, e.0, e.1) == items + more
  {
    var before, e := items + more[..|more| - 1], more[|more| - 1];
    FindAbsent(before, e.0);
    assert before + [e] == items + more;
  }

  /** Setting what is new in a map appends it; so does adding it. */
  lemma {:induction false} SetAllFresh<V>(items: Entries<V>, more: Entries<V>)
    requires Fresh(items, more)
    ensures SetAll(items, more) == AddAll(items, more) == items + more
  {
    if more == [] {
      assert items + more == items;
    } else {
      SetAllFresh(items, more[..|more| - 1]);
      SetFresh(items, more);
    }
  }

  /** Consecutive keys above all others are new. */
  lemma SetAllAppends<V>(items: Entries<V>, values: seq<V>, from: int)
    requires AllBelow(items, from)
    ensures SetAll(items, Numbered(values, from)) == items + Numbered(values, from)
    ensures AddAll(items, Numbered(values, from)) == items + Numbered(values, from)
    ensures ValuesOf(items + Numbered(values, from)) == ValuesOf(items) + values
  {
    SetAllFresh(items, Numbered(values, from));
  }

  /** A comparison that orders all values, and changes sign with its arguments. */
  ghost predicate Consistent<V(!new)>(compare: (V, V) -> int) {
    forall a, b, c {:trigger Orders(compare, a, b, c)} :: Orders(compare, a, b, c)
  }

  ghost predicate Orders<V>(compare: (V, V) -> int, a: V, b: V, c: V) {
    && (compare(a, b) < 0 <==> compare(b, a) > 0)
    && (compare(a, b) <= 0 && compare(b, c) <= 0 ==> compare(a, c) <= 0)
  }

  ghost predicate Ordered<V>(items: Entries<V>, compare: (V, V) -> int) {
    forall i, j :: 0 <= i < j < |items| ==> compare(items[i].1, items[j].1) <= 0
  }

  lemma InsertOrdered<V(!new)>(items: Entries<V>, e: (Key, V), i: nat, compare: (V, V) -> int)
    requires i <= |items| && Consistent(compare) && Ordered(items, compare)
    requires i > 0 ==> compare(items[i - 1].1, e.1) <= 0
    requires forall j :: i <= j < |items| ==> compare(items[j].1, e.1) > 0
    ensures Ordered(items[..i] + [e] + items[i..], compare)
  {
    var more := items[..i] + [e] + items[i..];
    forall j, k | 0 <= j < k < |more| ensures compare(more[j].1, more[k].1) <= 0 {
      if k == i {
        assert Orders(compare, items[j].1, items[i - 1].1, e.1);
      } else if j == i {
        assert more[k] == items[k - 1] && Orders(compare, e.1, items[k - 1].1, e.1);
      } else if k > i {
        assert more[k] == items[k - 1] && more[j] == items[if j < i then j else j - 1];
      }
    }
  }

  lemma InsertedOnce<V>(items: Entries<V>, e: (Key, V), i: nat)
    requires i <= |items|
    ensures multiset(items[..i] + [e] + items[i..]) == multiset(items) + multiset{e}
  {
    assert items == items[..i] + items[i..];
  }

  /** The position after all entries that compare no greater, counted from the end. */
  method Place<V(!new)>(items: Entries<V>, e: (Key, V), compare: (V, V) -> int) returns (at: nat)
    ensures at <= |items| && (at > 0 ==> compare(items[at - 1].1, e.1) <= 0)
    ensures forall j :: at <= j < |items| ==> compare(items[j].1, e.1) > 0
  {
    at := |items|;
    while at > 0 && compare(items[at - 1].1, e.1) > 0
      invariant at <= |items| && forall j :: at <= j < |items| ==> compare(items[j].1, e.1) > 0
    {
      at := at - 1;
    }
  }

  /** Entries that compare no greater than an earlier one come after it in `all`: ties keep their order. */
  ghost predicate Stable<V(!new)>(sorted: Entries<V>, all: Entries<V>, compare: (V, V) -> int) {
    forall i, j :: 0 <= i < j < |sorted| && compare(sorted[j].1, sorted[i].1) <= 0 ==>
      Find(all, sorted[i].0) < Find(all, sorted[j].0)
  }

  lemma InsertStable<V(!new)>(sorted: Entries<V>, all: Entries<V>, e: (Key, V), at: nat, compare: (V, V) -> int)
    requires at <= |sorted| && Stable(sorted, all, compare)
    requires forall j :: at <= j < |sorted| ==> compare(sorted[j].1, e.1) > 0
    requires forall j :: 0 <= j < |sorted| ==> Find(all, sorted[j].0) < Find(all, e.0)
    ensures Stable(sorted[..at] + [e] + sorted[at..], all, compare)
  {
    var more := sorted[..at] + [e] + sorted[at..];
    assert forall j :: at < j < |more| ==> more[j] == sorted[j - 1];
    forall i, j | 0 <= i < j < |more| && compare(more[j].1, more[i].1) <= 0
      ensures Find(all, more[i].0) < Find(all, more[j].0)
    {
      if i != at && j != at {
        assert more[i] == sorted[if i < at then i else i - 1] && more[j] == sorted[if j < at then j else j - 1];
      }
    }
  }

  lemma Earlier<V>(all: Entries<V>, i: nat, sorted: Entries<V>)
    requires Distinct(all) && i < |all| && multiset(sorted) == multiset(all[..i])
    ensures forall j :: 0 <= j < |sorted| ==> Find(all, sorted[j].0) < Find(all, all[i].0)
  {
    assert Find(all, all[i].0) == i;
    forall j | 0 <= j < |sorted| ensures Find(all, sorted[j].0) < i {
      assert sorted[j] in multiset(sorted);
      var k :| 0 <= k < i && all[..i][k] == sorted[j];
      assert Find(all, all[k].0) == k;
    }
  }

  /** Puts the `i`-th entry among those before it. */
  method Insert<V(!new)>(all: Entries<V>, i: nat, sorted: Entries<V>, compare: (V, V) -> int) returns (more: Entries<V>)
    requires Distinct(all) && i < |all| && multiset(sorted) == multiset(all[..i]) && Stable(sorted, all, compare)
    ensures multiset(more) == multiset(all[..i + 1]) && Stable(more, all, compare)
    ensures Consistent(compare) && Ordered(sorted, compare) ==> Ordered(more, compare)
  {
    var at := Place(sorted, all[i], compare);
    more := sorted[..at] + [all[i]] + sorted[at..];
    Earlier(all, i, sorted);
    InsertStable(sorted, all, all[i], at, compare);
    InsertedOnce(sorted, all[i], at);
    assert all[..i + 1] == all[..i] + [all[i]];
    if Consistent(compare) && Ordered(sorted, compare) {
      InsertOrdered(sorted, all[i], at, compare);
    }
  }

  /** However a map's entries are ordered, its keys are distinct and below the same bound. */
  lemma {:induction false} PermutedIsValid<V>(items: Entries<V>, sorted: Entries<V>, next: int)
    requires Distinct(items) && AllBelow(items, next) && multiset(sorted) == multiset(items)
    ensures Distinct(sorted) && AllBelow(sorted, next)
  {
    forall i | 0 <= i < |sorted| ensures sorted[i] in items {
      assert sorted[i] in multiset(sorted);
    }
    forall i, j | 0 <= i < j < |sorted| ensures sorted[i].0 != sorted[j].0 {
      if sorted[i].0 == sorted[j].0 {
        OneOfEach(items, sorted[i], sorted[j]);
        TwoAreTwo(sorted, i, j);
      }
    }
  }

  lemma TwoAreTwo<V>(items: Entries<V>, i: nat, j: nat)
    requires i < j < |items| && items[i] == items[j]
    ensures multiset(items)[items[i]] >= 2
  {
    assert items == items[..i] + [items[i]] + items[i + 1..j] + [items[j]] + items[j + 1..];
  }

  lemma {:induction false} OneOfEach<V>(items: Entries<V>, e: (Key, V), f: (Key, V))
    requires Distinct(items) && e in items && f in items && e.0 == f.0
    ensures e == f && multiset(items)[e] == 1
  {
    var i :| 0 <= i < |items| && items[i] == e;
    assert items == items[..i] + [e] + items[i + 1..];
    assert e !in items[..i] && e !in items[i + 1..];
  }

  /** A relative position of `Array.prototype`: a negative one counts from the end, and both ends bound it. */
  function Bound(i: int, n: nat): (at: nat)
    ensures at <= n
  {
    if i < 0 then (if n + i > 0 then n + i else 0) else if i < n then i else n
  }

  /** Where the stretch that `splice` removes ends. */
  function StretchEnd(offset: int, length: Option<int>, n: nat): (to: nat)
    ensures Bound(offset, n) <= to <= n
  {
    match length
    case None => n
    case Some(count) =>
      if count <= 0 then Bound(offset, n) else if Bound(offset, n) + count < n then Bound(offset, n) + count else n
  }

  /** What `splice` removes, and what it leaves around the replacement, which needs a length. */
  function Spliced<V>(values: seq<V>, offset: int, length: Option<int>, replacement: seq<V>): (seq<V>, seq<V>) {
    var from, to := Bound(offset, |values|), StretchEnd(offset, length, |values|);
    (values[from..to], values[..from] + (if length.Some? then replacement else []) + values[to..])
  }

  function Sliced<V>(items: seq<V>, offset: int, length: Option<int>): seq<V> {
    var start := if offset < 0 then (if |items| + offset > 0 then |items| + offset else 0) else offset;
    var from, to := Bound(start, |items|), if length.Some? then Bound(start + length.value, |items|) else |items|;
    if from <= to then items[from..to] else []
  }

  class Collection<V(!new)> {
    var items: Entries<V>
    var nextIndex: int

    ghost predicate Valid()
      reads this
    {
      Distinct(items) && AllBelow(items, nextIndex)
    }

    /** `make` of an array. */
    constructor FromArray(values: seq<V>)
      ensures Valid() && items == Numbered(values, 0) && nextIndex == |values|
    {
      items, nextIndex := Numbered(values, 0), |values|;
    }

    /** `make` of an iterable of pairs: a repeated key keeps its place and takes the later value. */
    constructor FromPairs(pairs: Entries<V>)
      ensures Valid() && items == SetAll([], pairs) && nextIndex >= 0
      ensures nextIndex == 0 || HasKey(items, Index(nextIndex - 1))
    {
      items, nextIndex := [], 0;
      new;
      var maxInt := -1;
      for i := 0 to |pairs|
        invariant Distinct(items) && AllBelow(items, maxInt + 1) && maxInt >= -1 && items == SetAll([], pairs[..i])
        invariant maxInt == -1 || HasKey(items, Index(maxInt))
      {
        var k := pairs[i].0;
        assert pairs[..i + 1] == pairs[..i] + [pairs[i]];
        SetAllSnoc([], pairs[..i], pairs[i]);
        SetBelow(items, k, pairs[i].1, maxInt + 1);
        SetKeys(items, k, pairs[i].1, k);
        SetKeys(items, k, pairs[i].1, Index(maxInt));
        items := Set(items, k, pairs[i].1);
        if k.Index? && k.n > maxInt {
          maxInt := k.n;
        }
      }
      assert pairs[..|pairs|] == pairs;
      nextIndex := maxInt + 1;
    }

    /** `newInstance`. */
    constructor FromEntries(entries: Entries<V>, next: int)
      requires Distinct(entries) && AllBelow(entries, next)
      ensures Valid() && items == entries && nextIndex == next
    {
      items, nextIndex := entries, next;
    }

    function Values(): seq<V>
      reads this
    {
      ValuesOf(items)
    }

    method Put(key: Key, value: V)
      requires Valid()
      modifies this
      ensures Valid() && items == Set(old(items), key, value)
      ensures nextIndex == if key.Index? && key.n >= old(nextIndex) then key.n + 1 else old(nextIndex)
    {
      items := Set(items, key, value);
      if key.Index? && key.n >= nextIndex {
        nextIndex := key.n + 1;
      }
    }

    /** `push`: nothing is overwritten, so the values are the old ones and then the new. */
    method Push(values: seq<V>)
      requires Valid()
      modifies this
      ensures Valid() && items == old(items) + Numbered(values, old(nextIndex)) && Values() == old(Values()) + values
      ensures nextIndex == old(nextIndex) + |values|
    {
      for i := 0 to |values|
        invariant Valid() && nextIndex == old(nextIndex) + i
        invariant items == old(items) + Numbered(values[..i], old(nextIndex))
      {
        SetAbsent(items, nextIndex, nextIndex, values[i]);
        NumberedSnoc(values[..i], old(nextIndex), values[i]);
        assert values[..i + 1] == values[..i] + [values[i]];
        items := Set(items, Index(nextIndex), values[i]);
        nextIndex := nextIndex + 1;
      }
      assert values[..|values|] == values;
    }

    /** Deletes the last key and gives its value. */
    method TakeLast() returns (value: V)
      requires Valid() && items != []
      modifies this`items
      ensures Valid() && items == old(items)[..|old(items)| - 1] && value == old(items)[|old(items)| - 1].1
    {
      var last := items[|items| - 1];
      DeleteLast(items);
      value := last.1;
      items := Delete(items, last.0);
    }

    /** `pop` of the last `count`, the last first. */
    method Pop(count: nat) returns (removed: seq<V>)
      requires Valid()
      modifies this`items
      ensures Valid() && nextIndex == old(nextIndex)
      ensures var n := if count < |old(items)| then |old(items)| - count else 0;
        items == old(items)[..n] && |removed| == |old(items)| - n
        && forall i :: 0 <= i < |removed| ==> removed[i] == old(items)[|old(items)| - 1 - i].1
    {
      removed := [];
      var i := 0;
      while i < count && items != []
        invariant Valid() && i <= count && i <= |old(items)| && |removed| == i
        invariant items == old(items)[..|old(items)| - i]
        invariant forall j :: 0 <= j < i ==> removed[j] == old(items)[|old(items)| - 1 - j].1
      {
        var last := TakeLast();
        removed := removed + [last];
        i := i + 1;
      }
    }

    /** Deletes the first key and gives its value. */
    method TakeFirst() returns (value: V)
      requires Valid() && items != []
      modifies this`items
      ensures Valid() && items == old(items)[1..] && value == old(items)[0].1
    {
      DeleteFirst(items);
      value := items[0].1;
      items := Delete(items, items[0].0);
    }

    /** `shift` of the first `count`. */
    method Shift(count: nat) returns (removed: seq<V>)
      requires Valid()
      modifies this`items
      ensures Valid() && nextIndex == old(nextIndex)
      ensures var n := if count < |old(items)| then count else |old(items)|;
        items == old(items)[n..] && removed == ValuesOf(old(items)[..n])
    {
      removed := [];
      var i := 0;
      while i < count && items != []
        invariant Valid() && i <= count && i <= |old(items)| && items == old(items)[i..]
        invariant removed == ValuesOf(old(items)[..i])
      {
        ValuesSnoc(old(items), i);
        var first := TakeFirst();
        removed := removed + [first];
        i := i + 1;
      }
    }

    /** `unshift`: all keys are numbered anew. */
    method Unshift(values: seq<V>)
      requires Valid()
      modifies this
      ensures Valid() && Values() == values + old(Values()) && IsListLike(items) && nextIndex == |items|
    {
      var rest := Values();
      items, nextIndex := Numbered(values + rest, 0), |values| + |rest|;
    }

    /**
     * `splice`: the removed stretch, and what remains around the replacement; without a length everything from the
     * offset on is removed, and no replacement is made.
     */
    method Splice(offset: int, length: Option<int>, replacement: seq<V>) returns (removed: seq<V>)
      requires Valid()
      modifies this
      ensures Valid() && IsListLike(items) && nextIndex == |items|
      ensures (removed, Values()) == Spliced(old(Values()), offset, length, replacement)
    {
      var values := Values();
      var from, to := Bound(offset, |values|), StretchEnd(offset, length, |values|);
      removed := values[from..to];
      var left := values[..from] + (if length.Some? then replacement else []) + values[to..];
      items, nextIndex := Numbered(left, 0), |left|;
    }

    /** `filter`. */
    method Filter(test: (V, Key) -> bool) returns (r: Collection<V>)
      requires Valid()
      ensures fresh(r) && r.Valid() && r.nextIndex == nextIndex && r.items == Kept(items, test)
    {
      var kept := [];
      for i := 0 to |items|
        invariant kept == Kept(items[..i], test)
      {
        assert items[..i + 1][..i] == items[..i];
        if test(items[i].1, items[i].0) {
          kept := kept + [items[i]];
        }
      }
      assert items[..|items|] == items;
      KeptIsSubmap(items, test);
      r := new Collection.FromEntries(kept, nextIndex);
    }

    /** `slice`: the offset counts from the end if negative, the end of a negative length counts from there, too. */
    method Slice(offset: int, length: Option<int>) returns (r: Collection<V>)
      requires Valid()
      ensures fresh(r) && r.Valid() && r.nextIndex == nextIndex
      ensures r.items == Sliced(items, offset, length)
    {
      var start := if offset < 0 then (if |items| + offset > 0 then |items| + offset else 0) else offset;
      var end := if length.Some? then start + length.value else |items|;
      var from, to := Bound(start, |items|), Bound(end, |items|);
      r := new Collection.FromEntries(if from <= to then items[from..to] else [], nextIndex);
    }

    /**
     * `sort`: the same entries; in order, and those that compare equal in the order they had, for any comparison
     * that orders all values. For any other the order is left open.
     */
    method Sort(compare: (V, V) -> int) returns (r: Collection<V>)
      requires Valid()
      ensures fresh(r) && r.Valid() && r.nextIndex == nextIndex && multiset(r.items) == multiset(items)
      ensures Consistent(compare) ==> Ordered(r.items, compare) && Stable(r.items, items, compare)
    {
      var sorted: Entries<V> := [];
      for i := 0 to |items|
        invariant multiset(sorted) == multiset(items[..i]) && Stable(sorted, items, compare)
        invariant Consistent(compare) ==> Ordered(sorted, compare)
      {
        sorted := Insert(items, i, sorted, compare);
      }
      assert items[..|items|] == items;
      PermutedIsValid(items, sorted, nextIndex);
      r := new Collection.FromEntries(sorted, nextIndex);
    }

    /** `merge`: arrays and list-like collections are appended; other entries overwrite on a collision. */
    method Merge(other: Source<V>) returns (r: Collection<V>)
      requires Valid() && other.Valid()
      ensures fresh(r) && r.Valid() && r.nextIndex >= nextIndex
      ensures r.nextIndex == nextIndex || HasKey(r.items, Index(r.nextIndex - 1))
      ensures other.Appends() ==> r.Values() == Values() + other.Values() && r.items[..|items|] == items
      ensures !other.Appends() ==> r.items == SetAll(items, other.entries)
    {
      var entries := ToEntries(other, nextIndex);
      var merged := SetAll(items, entries);
      if other.Appends() {
        SetAllAppends(items, other.Values(), nextIndex);
      }
      var next := NextIndexFor(merged, nextIndex);
      r := new Collection.FromEntries(merged, next);
    }

    /** `union`: arrays and list-like collections are appended; of other entries those with new keys are added. */
    method Union(other: Source<V>) returns (r: Collection<V>)
      requires Valid() && other.Valid()
      ensures fresh(r) && r.Valid() && r.nextIndex >= nextIndex
      ensures r.nextIndex == nextIndex || HasKey(r.items, Index(r.nextIndex - 1))
      ensures other.Appends() ==> r.Values() == Values() + other.Values() && r.items[..|items|] == items
      ensures !other.Appends() ==> r.items == AddAll(items, other.entries)
    {
      var entries := ToEntries(other, nextIndex);
      var merged := AddAll(items, entries);
      if other.Appends() {
        SetAllAppends(items, other.Values(), nextIndex);
      }
      var next := NextIndexFor(merged, nextIndex);
      r := new Collection.FromEntries(merged, next);
    }
  }

  /** What can be merged: an array, the entries of a collection, or an iterable of pairs, which may repeat a key. */
  datatype Source<V> = Plain(values: seq<V>) | Gathered(entries: Entries<V>) | Paired(entries: Entries<V>) {
    /** The keys of a collection are distinct. */
    ghost predicate Valid() { Gathered? ==> Distinct(entries) }

    /** Arrays and list-like collections are numbered anew; pairs keep their keys, even `0, 1, 2`. */
    predicate Appends() { Plain? || (Gathered? && IsListLike(entries)) }

    function Values(): seq<V> { if Plain? then values else ValuesOf(entries) }
  }

  /** `toEntries`. */
  function ToEntries<V>(source: Source<V>, start: int): Entries<V> {
    if source.Appends() then Numbered(source.Values(), start) else source.entries
  }

  /** `nextIndexFor`: one past the largest integer key, never below the fallback. */
  method NextIndexFor<V>(items: Entries<V>, fallback: int) returns (next: int)
    ensures next >= fallback && AllBelow(items, next)
    ensures next == fallback || exists i :: 0 <= i < |items| && items[i].0 == Index(next - 1)
  {
    next := fallback;
    for i := 0 to |items|
      invariant next >= fallback && AllBelow(items[..i], next)
      invariant next == fallback || exists j :: 0 <= j < i && items[j].0 == Index(next - 1)
    {
      if items[i].0.Index? && items[i].0.n >= next {
        next := items[i].0.n + 1;
      }
    }
    assert items[..|items|] == items;
  }

  lemma DeleteFirst<V>(items: Entries<V>)
    requires items != []
    ensures Delete(items, items[0].0) == items[1..]
  {
  }

  lemma ValuesSnoc<V>(items: Entries<V>, i: nat)
    requires i < |items|
    ensures ValuesOf(items[..i]) + [items[i].1] == ValuesOf(items[..i + 1])
  {
  }

  lemma DeleteLast<V>(items: Entries<V>)
    requires items != [] && Distinct(items)
    ensures Delete(items, items[|items| - 1].0) == items[..|items| - 1]
  {
    var i := Find(items, items[|items| - 1].0);
    assert i == |items| - 1;
  }

  function Kept<V>(items: Entries<V>, test: (V, Key) -> bool): Entries<V> {
    if items == [] then []
    else
      var last := items[|items| - 1];
      Kept(items[..|items| - 1], test) + if test(last.1, last.0) then [last] else []
  }

  ghost predicate Rising(at: seq<nat>) { forall i, j :: 0 <= i < j < |at| ==> at[i] < at[j] }

  /** `at` lists, in order, the places of the entries that pass. */
  ghost predicate Places<V>(at: seq<nat>, items: Entries<V>, test: (V, Key) -> bool) {
    Rising(at) && forall j: nat :: j in at <==> j < |items| && test(items[j].1, items[j].0)
  }

  ghost predicate Picks<V>(at: seq<nat>, items: Entries<V>, picked: Entries<V>) {
    |picked| == |at| && forall i :: 0 <= i < |at| ==> at[i] < |items| && picked[i] == items[at[i]]
  }

  /** Filtering keeps the entries that pass, each once and in their order. */
  lemma {:induction false} KeptAreThose<V>(items: Entries<V>, test: (V, Key) -> bool) returns (at: seq<nat>)
    ensures Places(at, items, test)
    ensures Picks(at, items, Kept(items, test))
  {
    at := [];
    if items != [] {
      var n := |items| - 1;
      at := KeptAreThose(items[..n], test);
      if test(items[n].1, items[n].0) {
        PlacesSnoc(at, items, test);
        at := at + [n];
      } else {
        PlacesStay(at, items, test);
      }
    }
  }

  lemma PlacesSnoc<V>(at: seq<nat>, items: Entries<V>, test: (V, Key) -> bool)
    requires items != [] && test(items[|items| - 1].1, items[|items| - 1].0)
    requires Places(at, items[..|items| - 1], test)
    ensures Places(at + [|items| - 1], items, test)
  {
    var n := |items| - 1;
    assert forall i :: 0 <= i < |at| ==> at[i] in at;
    forall j: nat ensures j in at + [n] <==> j < |items| && test(items[j].1, items[j].0) {
      assert j in at + [n] <==> j in at || j == n;
      assert j < n ==> items[..n][j] == items[j];
    }
  }

  lemma PlacesStay<V>(at: seq<nat>, items: Entries<V>, test: (V, Key) -> bool)
    requires items != [] && !test(items[|items| - 1].1, items[|items| - 1].0)
    requires Places(at, items[..|items| - 1], test)
    ensures Places(at, items, test)
  {
    var n := |items| - 1;
    forall j: nat ensures j in at <==> j < |items| && test(items[j].1, items[j].0) {
      assert j < n ==> items[..n][j] == items[j];
    }
  }

  /** Removing `b` out of `a + b + c`; with no length, or one that is too long, all from there on goes. */
  lemma SpliceTakesOut<V>(a: seq<V>, b: seq<V>, c: seq<V>, replacement: seq<V>, count: nat)
    requires count >= |b|
    ensures Spliced(a + b + c, |a|, Some(|b|), replacement) == (b, a + replacement + c)
    ensures Spliced(a + b, |a|, Some(count), replacement) == (b, a + replacement)
    ensures Spliced(a + b, |a|, None, replacement) == (b, a)
  {
    var all := a + b + c;
    assert all[|a|..|a| + |b|] == b && all[..|a|] == a && all[|a| + |b|..] == c;
    assert (a + b)[|a|..] == b && (a + b)[..|a|] == a && (a + b)[|a| + |b|..] == [];
    assert (a + b)[|a|..|a + b|] == b;
    assert a + replacement + [] == a + replacement;
    var none: seq<V> := [];
    assert a + none + none == a;
  }

  /** A negative offset counts from the end, one past an end stands for that end, and a negative length for none. */
  lemma SpliceOffsets<V>(values: seq<V>, offset: int, length: Option<int>, replacement: seq<V>)
    ensures
      var at := if offset < -|values| then 0 else if offset < 0 then |values| + offset else offset;
      Spliced(values, offset, length, replacement) == Spliced(values, at, length, replacement)
    ensures
      offset > |values| ==>
      Spliced(values, offset, length, replacement) == Spliced(values, |values|, length, replacement)
    ensures
      length.Some? && length.value < 0 ==>
      Spliced(values, offset, length, replacement) == Spliced(values, offset, Some(0), replacement)
  {
  }

  /** Slicing `b` out of `a + b + c`; a length that goes below the front leaves off at the end what it goes below. */
  lemma SliceTakesOut<V>(a: seq<V>, b: seq<V>, c: seq<V>, count: nat)
    requires count >= |b|
    ensures Sliced(a + b + c, |a|, Some(|b|)) == b
    ensures Sliced(a + b, |a|, Some(count)) == b && Sliced(a + b, |a|, None) == b
    ensures c != [] ==> Sliced(a + b + c, |a|, Some(-|a| - |c|)) == b
  {
    var all := a + b + c;
    assert all[|a|..|a| + |b|] == b && (a + b)[|a|..] == b;
  }

  lemma SliceOffsets<V>(items: seq<V>, offset: int, length: Option<int>)
    ensures
      var at := if offset < -|items| then 0 else if offset < 0 then |items| + offset else offset;
      Sliced(items, offset, length) == Sliced(items, at, length)
    ensures length.Some? && length.value <= 0 <= offset + length.value ==> Sliced(items, offset, length) == []
    ensures offset >= |items| ==> Sliced(items, offset, length) == []
  {
  }

  lemma {:induction false} KeptIsSubmap<V>(items: Entries<V>, test: (V, Key) -> bool)
    ensures forall k :: HasKey(Kept(items, test), k) ==> HasKey(items, k)
    ensures Distinct(items) ==> Distinct(Kept(items, test))
    ensures forall next :: AllBelow(items, next) ==> AllBelow(Kept(items, test), next)
  {
    if items != [] {
      var init, last := items[..|items| - 1], items[|items| - 1];
      KeptIsSubmap(init, test);
      assert items == init + [last];
      var kept := Kept(init, test);
      assert forall i :: 0 <= i < |kept| ==> HasKey(kept, kept[i].0);
      forall k | HasKey(init, k) ensures HasKey(items, k) {
        var i :| 0 <= i < |init| && init[i].0 == k;
        assert items[i].0 == k;
      }
      assert HasKey(items, last.0) by {
        assert items[|items| - 1].0 == last.0;
      }
      forall next | AllBelow(items, next) ensures AllBelow(init, next) {
        assert forall i :: 0 <= i < |init| ==> init[i] == items[i];
      }
      assert Distinct(items) ==> !HasKey(init, last.0);
      forall k | HasKey(Kept(items, test), k) ensures HasKey(items, k) {
        var i :| 0 <= i < |Kept(items, test)| && Kept(items, test)[i].0 == k;
        assert i < |kept| ==> HasKey(kept, k);
      }
    }
  }

  lemma SetLookup<V>(items: Entries<V>, k: Key, v: V, j: Key)
    ensures Lookup(Set(items, k, v), j) == if j == k then Some(v) else Lookup(items, j)
  {
    var i, more := Find(items, k), Set(items, k, v);
    assert forall m :: 0 <= m < |items| && m != i ==> more[m] == items[m];
    assert more[i] == (k, v);
    assert j == k ==> Find(more, j) == i;
    if j != k {
      var f, g := Find(items, j), Find(more, j);
      assert f < |items| ==> g == f;
      assert f == |items| ==> g == |more|;
    }
  }

  /** The last value given for `k`. */
  function Latest<V>(items: Entries<V>, k: Key): Option<V> {
    if items == [] then None
    else if items[|items| - 1].0 == k then Some(items[|items| - 1].1)
    else Latest(items[..|items| - 1], k)
  }

  lemma SnocLookup<V>(items: Entries<V>, e: (Key, V), k: Key)
    ensures Lookup(items + [e], k) == if Lookup(items, k).None? && e.0 == k then Some(e.1) else Lookup(items, k)
  {
    var more, f, g := items + [e], Find(items, k), Find(items + [e], k);
    assert forall m :: 0 <= m < |items| ==> more[m] == items[m];
    assert more[|items|] == e;
    assert if f < |items| then g == f else g >= |items|;
  }

  /** Of distinct entries the last is the only one. */
  lemma {:induction false} LatestIsOnly<V>(items: Entries<V>, k: Key)
    requires Distinct(items)
    ensures Latest(items, k) == Lookup(items, k)
  {
    if items != [] {
      var init, last := items[..|items| - 1], items[|items| - 1];
      LatestIsOnly(init, k);
      assert items == init + [last];
      SnocLookup(init, last, k);
      LookupHas(init, last.0);
      assert !HasKey(init, last.0);
    }
  }

  /** `merge` of entries, and `make` of pairs: the latest value is found, keys repeated or not. */
  lemma {:induction false} MergeLookup<V>(items: Entries<V>, other: Entries<V>, k: Key)
    ensures Lookup(SetAll(items, other), k) == if Latest(other, k).Some? then Latest(other, k) else Lookup(items, k)
  {
    if other != [] {
      var init, last := other[..|other| - 1], other[|other| - 1];
      MergeLookup(items, init, k);
      SetLookup(SetAll(items, init), last.0, last.1, k);
    }
  }

  /** `union` of entries: the earliest value is found. */
  lemma {:induction false} UnionLookup<V>(items: Entries<V>, other: Entries<V>, k: Key)
    ensures Lookup(AddAll(items, other), k) == if Lookup(items, k).Some? then Lookup(items, k) else Lookup(other, k)
  {
    if other != [] {
      var init, last := other[..|other| - 1], other[|other| - 1];
      UnionLookup(items, init, k);
      SetLookup(AddAll(items, init), last.0, last.1, k);
      assert other == init + [last];
      SnocLookup(init, last, k);
      LookupHas(AddAll(items, init), last.0);
    }
  }

  lemma LookupHas<V>(items: Entries<V>, k: Key)
    ensures Lookup(items, k).Some? <==> HasKey(items, k)
  {
  }

  // ------------------------------------------------------------------ groups

  function Concat<V>(groups: seq<seq<V>>): seq<V> {
    if groups == [] then [] else Concat(groups[..|groups| - 1]) + groups[|groups| - 1]
  }

  lemma ConcatSnoc<V>(groups: seq<seq<V>>, group: seq<V>)
    ensures Concat(groups + [group]) == Concat(groups) + group
  {
    assert (groups + [group])[..|groups|] == groups;
  }

  function Least(a: nat, b: nat): nat { if a < b then a else b }

  /** The size of the `i`-th group: `extra` of them get one more than the rest. */
  function GroupSize(size: nat, extra: nat, i: nat): nat { size + if i < extra then 1 else 0 }

  /** How many values the first `i` groups take. */
  function Taken(size: nat, extra: nat, i: nat): nat {
    if i == 0 then 0 else Taken(size, extra, i - 1) + GroupSize(size, extra, i - 1)
  }

  lemma {:induction false} TakenIs(size: nat, extra: nat, i: nat)
    ensures Taken(size, extra, i) == i * size + Least(i, extra)
  {
    if i > 0 {
      TakenIs(size, extra, i - 1);
      assert i * size == (i - 1) * size + size;
    }
  }

  lemma {:induction false} TakenGrows(size: nat, extra: nat, i: nat, n: nat)
    requires i <= n
    ensures Taken(size, extra, i) <= Taken(size, extra, n)
  {
    if i < n {
      TakenGrows(size, extra, i, n - 1);
    }
  }

  lemma Division(total: nat, n: nat)
    requires n > 0
    ensures total == n * (total / n) + total % n
  {
  }

  lemma SplitSizes(total: nat, n: nat)
    requires n > 0
    ensures Taken(total / n, total % n, n) == total
    ensures total / n == 0 ==> total % n == total < n
    ensures total / n > 0 ==> n <= total
  {
    Division(total, n);
    TakenIs(total / n, total % n, n);
    assert total / n > 0 ==> n * (total / n) >= n;
  }

  /** `split`: contiguous groups whose sizes differ by at most one, as many as asked for or as there are values. */
  method Split<V>(values: seq<V>, n: int) returns (r: Option<seq<seq<V>>>)
    ensures n < 1 <==> r == None
    ensures r.Some? ==>
      && Concat(r.value) == values && |r.value| == Least(n, |values|)
      && forall i :: 0 <= i < |r.value| ==> |r.value[i]| == GroupSize(|values| / n, |values| % n, i) && r.value[i] != []
  {
    if n < 1 {
      return None;
    }
    var groupSize, remainder := |values| / n, |values| % n;
    SplitSizes(|values|, n);
    var groups: seq<seq<V>> := [];
    var start := 0;
    for i := 0 to n
      invariant SplitTo(values, groupSize, remainder, i, groups, start)
    {
      var size := GroupSize(groupSize, remainder, i);
      TakenGrows(groupSize, remainder, i + 1, n);
      SplitStep(values, groupSize, remainder, i, groups, start);
      if size > 0 {
        groups := groups + [values[start..start + size]];
        start := start + size;
      }
    }
    assert values[..start] == values;
    r := Some(groups);
  }

  /** The first `i` groups are cut; they end at `start`. */
  ghost predicate SplitTo<V>(values: seq<V>, size: nat, extra: nat, i: nat, groups: seq<seq<V>>, start: nat) {
    && start == Taken(size, extra, i) <= |values| && Concat(groups) == values[..start]
    && |groups| == (if size > 0 then i else Least(i, extra))
    && forall j :: 0 <= j < |groups| ==> |groups[j]| == GroupSize(size, extra, j) && groups[j] != []
  }

  lemma SplitStep<V>(values: seq<V>, size: nat, extra: nat, i: nat, groups: seq<seq<V>>, start: nat)
    requires SplitTo(values, size, extra, i, groups, start) && Taken(size, extra, i + 1) <= |values|
    ensures
      var more := GroupSize(size, extra, i);
      if more == 0 then SplitTo(values, size, extra, i + 1, groups, start)
      else SplitTo(values, size, extra, i + 1, groups + [values[start..start + more]], start + more)
  {
    var more := GroupSize(size, extra, i);
    var group := values[start..start + more];
    ConcatSnoc(groups, group);
    assert values[..start] + group == values[..start + more];
  }

  /** `chunk`: full groups, and one last group with what is left. */
  method Chunk<V>(values: seq<V>, size: int) returns (groups: seq<seq<V>>)
    ensures size <= 0 ==> groups == []
    ensures size > 0 ==> Concat(groups) == values
    ensures size > 0 ==> forall i :: 0 <= i < |groups| ==> 0 < |groups[i]| <= size
    ensures size > 0 ==> forall i :: 0 <= i < |groups| - 1 ==> |groups[i]| == size
    ensures size > 0 && groups != [] ==> (|groups| - 1) * size < |values|
  {
    groups := [];
    if size <= 0 {
      return;
    }
    var start := 0;
    while start < |values|
      invariant ChunkTo(values, size, groups, start)
      decreases |values| - start
    {
      ChunkStep(values, size, groups, start);
      groups := groups + [values[start..Least(start + size, |values|)]];
      start := start + size;
    }
    assert values[..|values|] == values;
  }

  /** All before `start` is cut into groups, and only one that reached the end may be short. */
  ghost predicate ChunkTo<V>(values: seq<V>, size: nat, groups: seq<seq<V>>, start: nat) {
    && (start == |groups| * size || start >= |values|)
    && Concat(groups) == values[..Least(start, |values|)]
    && (forall i :: 0 <= i < |groups| ==> 0 < |groups[i]| <= size)
    && (start < |values| ==> forall i :: 0 <= i < |groups| ==> |groups[i]| == size)
    && (forall i :: 0 <= i < |groups| - 1 ==> |groups[i]| == size)
    && (groups != [] ==> (|groups| - 1) * size < |values|)
  }

  lemma OneMoreTimes(n: int, size: nat)
    ensures (n + 1) * size == n * size + size
  {
  }

  lemma ChunkStep<V>(values: seq<V>, size: nat, groups: seq<seq<V>>, start: nat)
    requires size > 0 && start < |values| && ChunkTo(values, size, groups, start)
    ensures ChunkTo(values, size, groups + [values[start..Least(start + size, |values|)]], start + size)
  {
    var end := Least(start + size, |values|);
    var more := groups + [values[start..end]];
    ConcatSnoc(groups, values[start..end]);
    assert values[..start] + values[start..end] == values[..end];
    OneMoreTimes(|groups|, size);
    OneMoreTimes(|groups| - 1, size);
  }

  lemma AtMost(groups: nat, size: nat, total: nat, n: nat)
    requires size > 0 && n > 0 && groups > 0 && (groups - 1) * size < total && total <= size * n
    ensures groups <= n
  {
    assert groups - 1 >= n ==> (groups - 1) * size >= n * size;
  }

  lemma CeilingCovers(total: nat, n: nat)
    requires n > 0
    ensures total <= (total + n - 1) / n * n
  {
    var m := total + n - 1;
    assert m == m / n * n + m % n;
  }

  /** `splitIn`: at most `n` groups, all full but the last. */
  method SplitIn<V>(values: seq<V>, n: int) returns (r: Option<seq<seq<V>>>)
    ensures n < 1 <==> r == None
    ensures r.Some? ==>
      && Concat(r.value) == values && |r.value| <= n
      && forall i :: 0 <= i < |r.value| - 1 ==> |r.value[i]| == (|values| + n - 1) / n
  {
    if n < 1 {
      return None;
    }
    var size := (|values| + n - 1) / n;
    CeilingCovers(|values|, n);
    var groups := Chunk(values, size);
    if groups != [] {
      AtMost(|groups|, size, |values|, n);
    }
    r := Some(groups);
  }
}
