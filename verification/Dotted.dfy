/** `Arr.dot` and `Arr.undot`: flattening a tree to dotted paths and building it back, in whatever order. */
module Dotted {
  import opened Text
  import opened DataPaths

  /** The paths to the scalars and the empty containers. */
  ghost function Paths(d: Data): set<seq<string>> {
    match d
    case Leaf(_) => {[]}
    case Obj(fields) => if fields == map[] then {[]} else set k, q | k in fields && q in Paths(fields[k]) :: [k] + q
    case List(items) =>
      if items == [] then {[]}
      else set i, q | 0 <= i < |items| && items[i].Some? && q in Paths(items[i].value) :: [Decimal(i)] + q
  }

  predicate GoodKey(key: string) { key != "" && '.' !in key && !IsIndex(key) && key != "*" && !Unsafe(key) }

  /** Hole-free arrays, and keys that mean nothing else in a path. */
  ghost predicate Clean(d: Data) {
    match d
    case Leaf(_) => true
    case Obj(fields) => forall k :: k in fields ==> GoodKey(k) && Clean(fields[k])
    case List(items) => forall i :: 0 <= i < |items| ==> items[i].Some? && Clean(items[i].value)
  }

  predicate Terminal(d: Data) { d.Leaf? || d == Obj(map[]) || d == List([]) }

  // -------------------------------------------------------------------- undot

  /** What setting `path` makes of the value at its head. */
  function Put(existing: Option<Data>, path: seq<string>, v: Data): Data
    requires "*" !in path
  {
    if path == [] then v else SetAt(Below(existing, path[0]), path, v, true)
  }

  ghost predicate Settable(entries: seq<(seq<string>, Data)>) {
    forall e <- entries :: Plain(e.0)
  }

  ghost predicate Headed(entries: seq<(seq<string>, Data)>) {
    forall e <- entries :: e.0 != []
  }

  /** All entries set one after the other. */
  ghost function SetAll(d: Data, entries: seq<(seq<string>, Data)>): (r: Data)
    requires Accessible(d) && Settable(entries) && Headed(entries)
    ensures Accessible(r)
    decreases |entries|
  {
    if entries == [] then d
    else
      var init, last := entries[..|entries| - 1], entries[|entries| - 1];
      SetAt(SetAll(d, init), last.0, last.1, true)
  }

  ghost function PutAll(existing: Option<Data>, entries: seq<(seq<string>, Data)>): Option<Data>
    requires Settable(entries)
    decreases |entries|
  {
    if entries == [] then existing
    else
      var init, last := entries[..|entries| - 1], entries[|entries| - 1];
      Some(Put(PutAll(existing, init), last.0, last.1))
  }

  /** The entries below one key, that key removed. */
  ghost function Under(entries: seq<(seq<string>, Data)>, key: string): (under: seq<(seq<string>, Data)>)
    requires Headed(entries)
    ensures forall q, v :: (q, v) in under <==> ([key] + q, v) in entries
    decreases |entries|
  {
    if entries == [] then []
    else
      var init, last := entries[..|entries| - 1], entries[|entries| - 1];
      assert entries == init + [last];
      assert last.0 == [last.0[0]] + last.0[1..];
      Under(init, key) + if last.0[0] == key then [(last.0[1..], last.1)] else []
  }

  lemma UnderIsSettable(entries: seq<(seq<string>, Data)>, key: string)
    requires Headed(entries) && Settable(entries)
    ensures Settable(Under(entries, key))
  {
    forall e | e in Under(entries, key) ensures Plain(e.0) {
      assert ([key] + e.0, e.1) in entries;
      assert forall s <- e.0 :: s in [key] + e.0;
    }
  }

  lemma SetAtIsWrite(d: Data, path: seq<string>, v: Data)
    requires Accessible(d) && path != [] && Plain(path) && (d.List? ==> IsIndex(path[0]))
    ensures "*" !in path[1..]
    ensures SetAt(d, path, v, true) == Write(d, path[0], Put(Read(d, path[0]), path[1..], v))
  {
    assert path[0] in path && forall s <- path[1..] :: s in path;
    LengthIsNoIndex();
  }

  /** A list of names is only ever given indices. */
  ghost predicate Indexed(d: Data, entries: seq<(seq<string>, Data)>)
    requires Headed(entries)
  {
    d.List? ==> forall e <- entries :: IsIndex(e.0[0])
  }

  /**
   * What ends up under a key depends on the entries below that key alone, so the others and their order do not
   * matter.
   */
  lemma {:induction false} Focus(d: Data, entries: seq<(seq<string>, Data)>, key: string)
    requires Accessible(d) && Settable(entries) && Headed(entries) && Indexed(d, entries)
    ensures SetAll(d, entries).List? == d.List?
    ensures Settable(Under(entries, key))
    ensures Read(SetAll(d, entries), key) == PutAll(Read(d, key), Under(entries, key))
    decreases |entries|
  {
    UnderIsSettable(entries, key);
    if entries != [] {
      var init, last := entries[..|entries| - 1], entries[|entries| - 1];
      assert forall e <- init :: e in entries;
      Focus(d, init, key);
      assert last in entries;
      LengthIsNoIndex();
      var before := SetAll(d, init);
      SetAtIsWrite(before, last.0, last.1);
      var v := Put(Read(before, last.0[0]), last.0[1..], last.1);
      if last.0[0] == key {
        ReadWritten(before, key, v);
        var under := Under(entries, key);
        assert under[..|under| - 1] == Under(init, key) && under[|under| - 1] == (last.0[1..], last.1);
      } else {
        ReadBeside(before, last.0[0], key, v);
        assert Under(entries, key) == Under(init, key);
      }
    }
  }

  /** Below a key that was not there, the first entry decides between array and object. */
  lemma {:induction false} PutAllIsSetAll(entries: seq<(seq<string>, Data)>)
    requires entries != [] && Settable(entries) && Headed(entries)
    ensures PutAll(None, entries) == Some(SetAll(Empty(entries[0].0[0]), entries))
    decreases |entries|
  {
    var init, last := entries[..|entries| - 1], entries[|entries| - 1];
    assert last in entries;
    if init != [] {
      assert forall e <- init :: e in entries;
      PutAllIsSetAll(init);
    } else {
      assert PutAll(None, init) == None;
    }
  }

  ghost predicate Closed(d: Data) { d.List? ==> d.items == [] || d.items[|d.items| - 1].Some? }

  lemma WriteCloses(d: Data, key: string, v: Data)
    requires Accessible(d) && Closed(d) && (d.List? ==> IsIndex(key))
    ensures Closed(Write(d, key, v))
  {
  }

  /** Setting never leaves a hole at the end. */
  lemma {:induction false} NoHoleAtEnd(d: Data, entries: seq<(seq<string>, Data)>)
    requires Accessible(d) && Settable(entries) && Headed(entries) && Indexed(d, entries) && Closed(d)
    ensures Closed(SetAll(d, entries))
    decreases |entries|
  {
    if entries != [] {
      var init, last := entries[..|entries| - 1], entries[|entries| - 1];
      assert (forall e <- init :: e in entries) && last in entries;
      NoHoleAtEnd(d, init);
      Focus(d, init, last.0[0]);
      var before := SetAll(d, init);
      SetAtIsWrite(before, last.0, last.1);
      WriteCloses(before, last.0[0], Put(Read(before, last.0[0]), last.0[1..], last.1));
    }
  }

  /** The entries are the paths of `d` with what they lead to, in any order and any number of times. */
  ghost predicate Lists(entries: seq<(seq<string>, Data)>, d: Data) {
    && (forall e <- entries :: e.0 in Paths(d) && Get(d, e.0) == Some(e.1))
    && forall p <- Paths(d) :: exists e :: e in entries && e.0 == p
  }

  /** Below a key of a container with something in it lie the paths of what is there. */
  lemma PathsBelow(d: Data, key: string, q: seq<string>)
    requires !Terminal(d)
    ensures [key] + q in Paths(d) <==> Read(d, key).Some? && q in Paths(Read(d, key).value)
  {
    if d.List? {
      if IsIndex(key) {
        IndexIsDecimal(key);
      }
      forall i | 0 <= i < |d.items| ensures IsIndex(Decimal(i)) && DigitsValue(Decimal(i)) == i {
        DecimalIsIndex(i);
      }
    }
    assert ([key] + q)[0] == key && ([key] + q)[1..] == q;
    if [key] + q in Paths(d) {
      if d.Obj? {
        var k, r :| k in d.fields && r in Paths(d.fields[k]) && [key] + q == [k] + r;
        assert ([k] + r)[0] == k && ([k] + r)[1..] == r;
      } else {
        var i, r :| && 0 <= i < |d.items| && d.items[i].Some? && r in Paths(d.items[i].value)
                    && [key] + q == [Decimal(i)] + r;
        assert ([Decimal(i)] + r)[0] == Decimal(i) && ([Decimal(i)] + r)[1..] == r;
      }
    }
  }

  lemma PathsAreHeaded(d: Data, p: seq<string>)
    requires !Terminal(d) && p in Paths(d)
    ensures p != []
  {
  }

  lemma UnderLists(entries: seq<(seq<string>, Data)>, d: Data, key: string)
    requires Clean(d) && !Terminal(d) && Lists(entries, d) && Headed(entries)
    ensures Read(d, key).Some? ==> Lists(Under(entries, key), Read(d, key).value)
    ensures Read(d, key).None? ==> Under(entries, key) == []
  {
    var under := Under(entries, key);
    assert |under| > 0 ==> under[0] in under;
    forall e | e in under
      ensures Read(d, key).Some? && e.0 in Paths(Read(d, key).value) && Get(Read(d, key).value, e.0) == Some(e.1)
    {
      assert ([key] + e.0, e.1) in entries;
      PathsBelow(d, key, e.0);
      assert ([key] + e.0)[1..] == e.0;
    }
    if Read(d, key).Some? {
      forall q | q in Paths(Read(d, key).value) ensures exists e :: e in under && e.0 == q {
        PathsBelow(d, key, q);
        var e :| e in entries && e.0 == [key] + q;
        assert (q, e.1) in under;
      }
    }
  }

  /** Clean paths have clean segments. */
  lemma {:induction false} CleanPaths(d: Data, p: seq<string>)
    requires Clean(d) && p in Paths(d)
    ensures forall s <- p :: GoodKey(s) || IsIndex(s)
  {
    if !Terminal(d) {
      PathsAreHeaded(d, p);
      assert p == [p[0]] + p[1..];
      PathsBelow(d, p[0], p[1..]);
      if d.Obj? {
        CleanPaths(d.fields[p[0]], p[1..]);
      } else {
        IndexIsDecimal(p[0]);
        CleanPaths(d.items[DigitsValue(p[0])].value, p[1..]);
      }
    }
  }

  lemma IndexIsPlain(s: string)
    requires IsIndex(s)
    ensures s != "*" && !Unsafe(s) && '.' !in s && s != ""
  {
    assert forall c <- s :: '0' <= c <= '9';
    assert "__proto__"[0] == '_' && "constructor"[0] == 'c' && "prototype"[0] == 'p' && "*"[0] == '*';
  }

  lemma ListedIsSettable(entries: seq<(seq<string>, Data)>, d: Data)
    requires Clean(d) && Lists(entries, d)
    ensures Settable(entries) && (!Terminal(d) ==> Headed(entries))
  {
    forall e | e in entries ensures Plain(e.0) {
      CleanPaths(d, e.0);
      forall s | s in e.0 ensures s != "*" && !Unsafe(s) {
        if IsIndex(s) { IndexIsPlain(s); }
      }
    }
  }

  /** Whatever the order of the entries, putting them all where nothing was gives back the tree they were taken from. */
  lemma {:induction false} Rebuild(d: Data, entries: seq<(seq<string>, Data)>)
    requires Clean(d) && Lists(entries, d)
    ensures Settable(entries) && PutAll(None, entries) == Some(d)
    decreases d
  {
    ListedIsSettable(entries, d);
    if Terminal(d) {
      assert [] in Paths(d);
      var last := entries[|entries| - 1];
      assert last in entries;
    } else {
      RebuildContainer(d, entries);
    }
  }

  /** Two containers of one kind that read alike are the same, if neither ends in a hole. */
  lemma SameReads(r: Data, d: Data)
    requires Accessible(r) && Accessible(d) && r.List? == d.List?
    requires forall k :: Read(r, k) == Read(d, k)
    requires r.List? ==> r.items == [] || r.items[|r.items| - 1].Some?
    requires d.List? ==> d.items == [] || d.items[|d.items| - 1].Some?
    ensures r == d
  {
    if r.List? {
      forall i: nat ensures IsIndex(Decimal(i)) && DigitsValue(Decimal(i)) == i {
        DecimalIsIndex(i);
      }
      assert |r.items| > 0 ==> Read(r, Decimal(|r.items| - 1)).Some?;
      assert |d.items| > 0 ==> Read(d, Decimal(|d.items| - 1)).Some?;
      forall i | 0 <= i < |r.items| ensures r.items[i] == d.items[i] {
        assert Read(r, Decimal(i)) == r.items[i] && Read(d, Decimal(i)) == d.items[i];
      }
      assert r.items == d.items;
    } else {
      forall k ensures (k in r.fields <==> k in d.fields) && (k in r.fields ==> r.fields[k] == d.fields[k]) {
        assert Read(r, k) == Read(d, k);
      }
      assert r.fields == d.fields;
    }
  }

  lemma {:induction false} PathsExist(d: Data)
    requires Clean(d)
    ensures Paths(d) != {}
  {
    if !Terminal(d) {
      var k :| Read(d, k).Some? by { SomeKey(d); }
      PathsExist(Read(d, k).value);
      var q :| q in Paths(Read(d, k).value);
      PathsBelow(d, k, q);
    }
  }

  lemma SomeKey(d: Data)
    requires Clean(d) && !Terminal(d)
    ensures exists k :: Read(d, k).Some?
  {
    if d.Obj? {
      var k :| k in d.fields;
      assert Read(d, k).Some?;
    } else {
      DecimalIsIndex(0);
      assert Read(d, Decimal(0)).Some?;
    }
  }

  /** The first segment of a path tells what it leads into. */
  lemma HeadTellsKind(d: Data, p: seq<string>)
    requires Clean(d) && !Terminal(d) && p in Paths(d)
    ensures p != [] && IsIndex(p[0]) == d.List?
  {
    if d.List? {
      forall i | 0 <= i < |d.items| ensures IsIndex(Decimal(i)) {
        DecimalIsIndex(i);
      }
    }
  }

  /** Setting all entries below an empty container of the right kind, key by key. */
  lemma HeadsTellKind(d: Data, base: Data, entries: seq<(seq<string>, Data)>)
    requires Clean(d) && !Terminal(d) && Headed(entries) && forall e <- entries :: e.0 in Paths(d)
    requires base == Obj(map[]) || (d.List? && base == List([]))
    ensures Indexed(base, entries)
  {
    forall e | e in entries ensures IsIndex(e.0[0]) == d.List? {
      HeadTellsKind(d, e.0);
    }
  }

  lemma {:induction false} RebuildBelow(d: Data, base: Data, entries: seq<(seq<string>, Data)>, key: string)
    requires Clean(d) && Lists(entries, d) && !Terminal(d) && Settable(entries) && Headed(entries)
    requires base == Obj(map[]) || (d.List? && base == List([]))
    ensures Read(SetAll(base, entries), key) == Read(d, key) && SetAll(base, entries).List? == base.List?
    decreases d, 0
  {
    HeadsTellKind(d, base, entries);
    Focus(base, entries, key);
    UnderLists(entries, d, key);
    if Read(d, key).Some? {
      Rebuild(Read(d, key).value, Under(entries, key));
    }
  }

  lemma {:induction false} RebuildContainer(d: Data, entries: seq<(seq<string>, Data)>)
    requires Clean(d) && Lists(entries, d) && !Terminal(d) && Settable(entries) && Headed(entries)
    ensures PutAll(None, entries) == Some(d)
    decreases d, 1
  {
    PathsExist(d);
    assert entries != [];
    assert entries[0] in entries;
    HeadTellsKind(d, entries[0].0);
    var base := Empty(entries[0].0[0]);
    PutAllIsSetAll(entries);
    forall k ensures Read(SetAll(base, entries), k) == Read(d, k) && SetAll(base, entries).List? == base.List? {
      RebuildBelow(d, base, entries, k);
    }
    HeadsTellKind(d, base, entries);
    NoHoleAtEnd(base, entries);
    SameReads(SetAll(base, entries), d);
  }

  ghost predicate From(entries: seq<(seq<string>, Data)>, d: Data) {
    Settable(entries) && forall e <- entries :: e.0 in Paths(d)
  }

  /** One key down: what is there are the entries below it. */
  lemma OneKeyDown(d: Data, base: Data, entries: seq<(seq<string>, Data)>, p: seq<string>)
    requires Clean(d) && !Terminal(d) && p in Paths(d) && From(entries, d) && Headed(entries)
    requires base == Obj(map[]) || (d.List? && base == List([]))
    ensures p != [] && Read(d, p[0]).Some? && p[1..] in Paths(Read(d, p[0]).value)
    ensures From(Under(entries, p[0]), Read(d, p[0]).value)
    ensures Read(SetAll(base, entries), p[0]) == PutAll(None, Under(entries, p[0]))
    ensures !Resizes(SetAll(base, entries), p[0])
  {
    PathsAreHeaded(d, p);
    HeadTellsKind(d, p);
    LengthIsNoIndex();
    assert p == [p[0]] + p[1..];
    PathsBelow(d, p[0], p[1..]);
    HeadsTellKind(d, base, entries);
    Focus(base, entries, p[0]);
    forall e | e in Under(entries, p[0]) ensures e.0 in Paths(Read(d, p[0]).value) {
      PathsBelow(d, p[0], e.0);
    }
  }

  /** Entries from a container, put where nothing was, are set in an empty container. */
  lemma PutFrom(d: Data, entries: seq<(seq<string>, Data)>)
    requires Clean(d) && !Terminal(d) && From(entries, d) && entries != []
    ensures Headed(entries)
    ensures
      var base := Empty(entries[0].0[0]);
      (base == Obj(map[]) || (d.List? && base == List([]))) && PutAll(None, entries) == Some(SetAll(base, entries))
  {
    forall e | e in entries ensures e.0 != [] {
      PathsAreHeaded(d, e.0);
    }
    assert entries[0] in entries;
    HeadTellsKind(d, entries[0].0);
    PutAllIsSetAll(entries);
  }

  lemma MeetsNoneBelow(d: Data, path: seq<string>)
    requires path != [] && !Resizes(d, path[0])
    requires Read(d, path[0]).Some? ==> Meets(Read(d, path[0]).value, path[1..]) == None
    ensures Meets(d, path) == None
  {
  }

  /** Whatever paths of a clean tree have been set, the next one names no array's length, so setting it never throws. */
  lemma {:induction false} CleanMeetsNone(d: Data, base: Data, entries: seq<(seq<string>, Data)>, p: seq<string>)
    requires Clean(d) && !Terminal(d) && p in Paths(d) && From(entries, d) && Headed(entries)
    requires base == Obj(map[]) || (d.List? && base == List([]))
    ensures Meets(SetAll(base, entries), p) == None
    decreases d, 0
  {
    OneKeyDown(d, base, entries, p);
    PutMeetsNone(Read(d, p[0]).value, Under(entries, p[0]), p[1..]);
    MeetsNoneBelow(SetAll(base, entries), p);
  }

  lemma {:induction false} PutMeetsNone(d: Data, entries: seq<(seq<string>, Data)>, p: seq<string>)
    requires Clean(d) && p in Paths(d) && From(entries, d)
    ensures PutAll(None, entries).Some? ==> Meets(PutAll(None, entries).value, p) == None
    decreases d, 1
  {
    if entries != [] {
      if Terminal(d) {
        assert p == [];
      } else {
        PutFrom(d, entries);
        CleanMeetsNone(d, Empty(entries[0].0[0]), entries, p);
      }
    }
  }

  // --------------------------------------------------------------- collapsing

  /** The keys are exactly the first indices; an object lists them in that order. */
  predicate ListLike(fields: map<string, Data>) {
    fields != map[] && forall k :: k in fields ==> IsIndex(k) && DigitsValue(k) < |fields|
  }

  /** `collapseList`: objects that are lists become arrays, all the way down through objects. */
  function Collapse(d: Data): Data {
    if !d.Obj? then d
    else if ListLike(d.fields) then
      List(seq(|d.fields|, i requires 0 <= i < |d.fields| =>
        if Decimal(i) in d.fields then Some(Collapse(d.fields[Decimal(i)])) else None))
    else Obj(map k | k in d.fields :: Collapse(d.fields[k]))
  }

  lemma {:induction false} CollapseKeepsClean(d: Data)
    requires Clean(d)
    ensures Collapse(d) == d
    decreases d
  {
    if d.Obj? {
      forall k | k in d.fields ensures Collapse(d.fields[k]) == d.fields[k] {
        CollapseKeepsClean(d.fields[k]);
      }
      if d.fields != map[] {
        var k :| k in d.fields;
        assert !IsIndex(k);
      }
    }
  }

  /**
   * `undot` of the entries `dot` makes, set in any order, is the tree itself: every non-empty container,
   * a list at the root included.
   */
  lemma UndotOfDot(d: Data, entries: seq<(seq<string>, Data)>)
    requires Clean(d) && !Terminal(d) && Lists(entries, d)
    ensures Settable(entries) && Headed(entries)
    ensures Collapse(SetAll(Obj(map[]), entries)) == d
  {
    ListedIsSettable(entries, d);
    var r := SetAll(Obj(map[]), entries);
    forall k ensures Read(r, k) == Read(d, k) && r.Obj? {
      RebuildBelow(d, Obj(map[]), entries, k);
    }
    if d.Obj? {
      SameReads(r, d);
      CollapseKeepsClean(d);
    } else {
      SpreadCollapses(d, r);
    }
  }

  /** The first `n` indices. */
  ghost function Indices(n: nat): set<string> {
    if n == 0 then {} else Indices(n - 1) + {Decimal(n - 1)}
  }

  lemma {:induction false} IndicesAre(n: nat)
    ensures |Indices(n)| == n && forall s :: s in Indices(n) <==> IsIndex(s) && DigitsValue(s) < n
  {
    if n > 0 {
      IndicesAre(n - 1);
      DecimalIsIndex(n - 1);
      forall s | IsIndex(s) && DigitsValue(s) == n - 1 ensures s == Decimal(n - 1) {
        IndexIsDecimal(s);
      }
    }
  }

  /** An object is a list if and only if its keys are exactly the first indices, as many as it has. */
  lemma ListLikeIff(fields: map<string, Data>)
    ensures ListLike(fields) <==> fields != map[] && fields.Keys == Indices(|fields|)
  {
    IndicesAre(|fields|);
    if ListLike(fields) {
      assert fields.Keys <= Indices(|fields|);
      SubsetOfSize(fields.Keys, Indices(|fields|));
    }
  }

  lemma {:induction false} SubsetOfSize(some: set<string>, all: set<string>)
    requires some <= all && |some| == |all|
    ensures some == all
  {
    if s :| s in all && s !in some {
      assert |all - {s}| == |all| - 1;
      assert some <= all - {s};
      Fewer(some, all - {s});
    }
  }

  lemma {:induction false} Fewer(some: set<string>, all: set<string>)
    requires some <= all
    ensures |some| <= |all|
  {
    if s :| s in some {
      Fewer(some - {s}, all - {s});
    }
  }

  /** The path leads down through objects alone. */
  predicate ThroughObjects(d: Data, path: seq<string>) {
    path == [] || (d.Obj? && path[0] in d.fields && ThroughObjects(d.fields[path[0]], path[1..]))
  }

  /**
   * After collapsing, what lies under a path through objects is still there: scalars and arrays as they were, an object
   * with the first indices for keys as an array, and any other object as an object with its keys.
   */
  lemma {:induction false} CollapseByPath(d: Data, path: seq<string>)
    requires ThroughObjects(d, path)
    ensures Get(d, path).Some? && Get(Collapse(d), path).Some?
    ensures
      var x, r := Get(d, path).value, Get(Collapse(d), path).value;
      && (!x.Obj? ==> r == x)
      && (x.Obj? && ListLike(x.fields) ==>
            r.List? && |r.items| == |x.fields| && forall k :: k in x.fields <==> Read(r, k).Some?)
      && (x.Obj? && !ListLike(x.fields) ==> r.Obj? && r.fields.Keys == x.fields.Keys)
    decreases |path|
  {
    if path == [] {
      if d.Obj? && ListLike(d.fields) {
        ListItems(d.fields, Collapse(d));
      }
    } else {
      if ListLike(d.fields) {
        IndexIsDecimal(path[0]);
      }
      CollapseByPath(d.fields[path[0]], path[1..]);
    }
  }

  lemma ListItems(fields: map<string, Data>, r: Data)
    requires ListLike(fields) && r == Collapse(Obj(fields))
    ensures r.List? && |r.items| == |fields| && forall k :: k in fields <==> Read(r, k).Some?
  {
    ListLikeIff(fields);
    IndicesAre(|fields|);
    forall k ensures k in fields <==> Read(r, k).Some? {
      if IsIndex(k) {
        IndexIsDecimal(k);
      }
    }
  }

  lemma SpreadCollapses(d: Data, r: Data)
    requires Clean(d) && d.List? && d.items != [] && r.Obj?
    requires forall k :: Read(r, k) == Read(d, k)
    ensures Collapse(r) == d
  {
    SpreadIsListLike(d, r);
    forall i | 0 <= i < |d.items|
      ensures Decimal(i) in r.fields && Some(Collapse(r.fields[Decimal(i)])) == d.items[i]
    {
      DecimalIsIndex(i);
      assert Read(r, Decimal(i)) == Read(d, Decimal(i)) == d.items[i];
      CollapseKeepsClean(d.items[i].value);
    }
    assert Collapse(r).items == d.items;
  }

  lemma SpreadIsListLike(d: Data, r: Data)
    requires Clean(d) && d.List? && d.items != [] && r.Obj?
    requires forall k :: Read(r, k) == Read(d, k)
    ensures |r.fields| == |d.items| && ListLike(r.fields)
  {
    IndicesAre(|d.items|);
    forall k ensures k in r.fields <==> k in Indices(|d.items|) {
      assert Read(r, k) == Read(d, k);
    }
    assert r.fields.Keys == Indices(|d.items|);
  }

  // ---------------------------------------------------------------------- dot

  /** No array has holes. */
  ghost predicate Dense(d: Data) {
    match d
    case Leaf(_) => true
    case Obj(fields) => forall k :: k in fields ==> Dense(fields[k])
    case List(items) => forall i :: 0 <= i < |items| ==> items[i].Some? && Dense(items[i].value)
  }

  function Longer(prefix: string, key: string): string { if prefix == "" then key else prefix + "." + key }

  /** The spelling of a path below a prefix. */
  function Spelling(prefix: string, p: seq<string>): string
    decreases |p|
  {
    if p == [] then prefix else Spelling(Longer(prefix, p[0]), p[1..])
  }

  ghost predicate Spells(p: seq<string>, s: string, v: Data, target: Data, prefix: string) {
    p in Paths(target) && Spelling(prefix, p) == s && Get(target, p) == Some(v)
  }

  /** Every entry is the spelling of a path with what the path leads to. */
  ghost predicate Sound(out: map<string, Data>, target: Data, prefix: string) {
    forall s <- out :: exists p :: Spells(p, s, out[s], target, prefix)
  }

  /** Only a path spelled "" may be missing, and only if it is the root's own or ends in an empty container. */
  ghost predicate Spelled(out: map<string, Data>, target: Data, prefix: string, p: seq<string>) {
    p in Paths(target) && (Spelling(prefix, p) != "" || (p != [] && Ends(target, p))) ==> Spelling(prefix, p) in out
  }

  predicate Ends(target: Data, p: seq<string>) { Get(target, p).Some? && Get(target, p).value.Leaf? }

  /** So much of the paths that start in `keys`. */
  ghost predicate Covers(out: map<string, Data>, target: Data, prefix: string, keys: set<string>) {
    forall p {:trigger Spelled(out, target, prefix, p)} :: p != [] && p[0] in keys ==> Spelled(out, target, prefix, p)
  }

  /** The whole of `target` flattened. */
  ghost predicate Flat(out: map<string, Data>, target: Data, prefix: string) {
    && Sound(out, target, prefix)
    && forall p {:trigger Spelled(out, target, prefix, p)} :: Spelled(out, target, prefix, p)
  }

  /** A container flattened under its own key is that much of its parent. */
  lemma FlatBelow(out: map<string, Data>, target: Data, prefix: string, key: string, child: Data)
    requires !Terminal(target) && Read(target, key) == Some(child) && Accessible(child)
    requires Flat(out, child, Longer(prefix, key))
    ensures Sound(out, target, prefix) && Covers(out, target, prefix, {key})
  {
    forall s | s in out ensures exists p :: Spells(p, s, out[s], target, prefix) {
      var q :| Spells(q, s, out[s], child, Longer(prefix, key));
      PathsBelow(target, key, q);
      assert ([key] + q)[1..] == q;
      assert Spells([key] + q, s, out[s], target, prefix);
    }
    forall p {:trigger Spelled(out, target, prefix, p)} | p != [] && p[0] in {key}
      ensures Spelled(out, target, prefix, p)
    {
      assert [key] + p[1..] == p && Spelled(out, child, Longer(prefix, key), p[1..]);
      PathsBelow(target, key, p[1..]);
    }
  }

  lemma LeafBelow(target: Data, prefix: string, key: string, child: Data)
    requires !Terminal(target) && Read(target, key) == Some(child) && child.Leaf?
    ensures
      var out := map[Longer(prefix, key) := child];
      Sound(out, target, prefix) && Covers(out, target, prefix, {key})
  {
    var out := map[Longer(prefix, key) := child];
    PathsBelow(target, key, []);
    assert [key] + [] == [key] && [key][1..] == [];
    assert Spelling(prefix, [key]) == Spelling(Longer(prefix, key), []) == Longer(prefix, key);
    assert Get(target, [key]) == Get(child, []) == Some(child);
    assert Spells([key], Longer(prefix, key), child, target, prefix);
    forall p {:trigger Spelled(out, target, prefix, p)} | p != [] && p[0] in {key}
      ensures Spelled(out, target, prefix, p)
    {
      assert [key] + p[1..] == p;
      PathsBelow(target, key, p[1..]);
    }
  }

  lemma UnionGrows(before: map<string, Data>, below: map<string, Data>, target: Data, prefix: string,
                   done: set<string>, key: string)
    requires Sound(before, target, prefix) && Covers(before, target, prefix, done)
    requires Sound(below, target, prefix) && Covers(below, target, prefix, {key})
    ensures Sound(before + below, target, prefix) && Covers(before + below, target, prefix, done + {key})
  {
    var out := before + below;
    forall s | s in out ensures exists p :: Spells(p, s, out[s], target, prefix) {
      var p :| Spells(p, s, if s in below then below[s] else before[s], target, prefix);
      assert Spells(p, s, out[s], target, prefix);
    }
    forall p {:trigger Spelled(out, target, prefix, p)} | p != [] && p[0] in done + {key}
      ensures Spelled(out, target, prefix, p)
    {
      assert Spelled(before, target, prefix, p) || Spelled(below, target, prefix, p);
    }
  }

  function Keys(d: Data): set<string> {
    match d
    case Leaf(_) => {}
    case Obj(fields) => fields.Keys
    case List(items) => set i | 0 <= i < |items| :: Decimal(i)
  }

  lemma KeysAreHeads(d: Data, p: seq<string>)
    requires !Terminal(d) && p in Paths(d)
    ensures p != [] && p[0] in Keys(d) && Read(d, p[0]).Some?
  {
    PathsAreHeaded(d, p);
    assert p == [p[0]] + p[1..];
    PathsBelow(d, p[0], p[1..]);
    if d.List? {
      IndexIsDecimal(p[0]);
    }
  }

  /** Each key holds something without holes. */
  lemma DenseByKeys(d: Data)
    requires !Terminal(d)
    ensures Dense(d) <==> forall k <- Keys(d) :: DenseAt(d, k)
  {
    if d.List? {
      forall i | 0 <= i < |d.items| ensures Read(d, Decimal(i)) == d.items[i] && Decimal(i) in Keys(d) {
        DecimalIsIndex(i);
      }
      forall k | k in Keys(d) && Dense(d) ensures DenseAt(d, k) {
        var i :| 0 <= i < |d.items| && k == Decimal(i);
      }
      if forall k <- Keys(d) :: DenseAt(d, k) {
        forall i | 0 <= i < |d.items| ensures d.items[i].Some? && Dense(d.items[i].value) {
          assert DenseAt(d, Decimal(i));
        }
      }
    } else {
      assert forall k :: k in d.fields ==> (DenseAt(d, k) <==> Dense(d.fields[k]));
    }
  }

  ghost predicate DenseAt(d: Data, key: string) { Read(d, key).Some? && Dense(Read(d, key).value) }

  /**
   * `dot` of any data: every scalar and empty container under the spelling of its path, whatever the keys; paths
   * that are spelled alike leave one entry. It throws at the hole of an array.
   */
  method Dot(target: Data, prefix: string) returns (out: Option<map<string, Data>>)
    ensures out.Some? <==> Dense(target)
    ensures out.Some? ==> Flat(out.value, target, prefix)
    decreases target, 1
  {
    var flat := map[];
    if Terminal(target) {
      if prefix != "" {
        flat := map[prefix := target];
        assert Spells([], prefix, target, target, prefix);
      }
      return Some(flat);
    }
    DenseByKeys(target);
    var rest := Keys(target);
    while rest != {}
      invariant rest <= Keys(target) && forall k <- Keys(target) - rest :: DenseAt(target, k)
      invariant Sound(flat, target, prefix) && Covers(flat, target, prefix, Keys(target) - rest)
      decreases rest
    {
      var key :| key in rest;
      if Read(target, key).None? {
        return None;
      }
      var more := DotChild(target, key, prefix, flat, Keys(target) - rest);
      if more.None? {
        return None;
      }
      flat := more.value;
      rest := rest - {key};
    }
    forall p {:trigger Spelled(flat, target, prefix, p)} ensures Spelled(flat, target, prefix, p) {
      if p in Paths(target) { KeysAreHeads(target, p); }
    }
    out := Some(flat);
  }

  method DotChild(target: Data, key: string, prefix: string, before: map<string, Data>, ghost done: set<string>)
    returns (out: Option<map<string, Data>>)
    requires Read(target, key).Some? && !Terminal(target)
    requires Sound(before, target, prefix) && Covers(before, target, prefix, done)
    ensures out.Some? <==> DenseAt(target, key)
    ensures out.Some? ==> Sound(out.value, target, prefix) && Covers(out.value, target, prefix, done + {key})
    decreases target, 0
  {
    var path := if prefix == "" then key else prefix + "." + key;
    var nested := Read(target, key).value;
    var below: map<string, Data>;
    if Accessible(nested) {
      var flat := Dot(nested, path);
      if flat.None? {
        return None;
      }
      below := flat.value;
      FlatBelow(below, target, prefix, key, nested);
    } else {
      below := map[path := nested];
      LeafBelow(target, prefix, key, nested);
    }
    UnionGrows(before, below, target, prefix, done, key);
    out := Some(before + below);
  }

  /** `undot`: sets every entry, in the order of the given keys, then collapses; it stops where setting one throws. */
  method Undot(target: map<string, Data>) returns (r: Option<Data>, ghost entries: seq<(seq<string>, Data)>)
    requires forall s <- target :: Plain(Split(s, '.'))
    ensures Settable(entries) && Headed(entries)
    ensures forall e <- entries :: exists s :: s in target && e == (Split(s, '.'), target[s])
    ensures r.None? ==> exists s :: s in target && Throws(SetAll(Obj(map[]), entries), Split(s, '.'), target[s])
    ensures r.Some? ==> forall s <- target :: (Split(s, '.'), target[s]) in entries
    ensures r.Some? ==> r.value == Collapse(SetAll(Obj(map[]), entries))
  {
    var built := Obj(map[]);
    entries := [];
    var rest := target.Keys;
    while rest != {}
      invariant rest <= target.Keys
      invariant forall e <- entries :: exists s :: s in target && e == (Split(s, '.'), target[s])
      invariant forall s <- target :: s in rest || (Split(s, '.'), target[s]) in entries
      invariant Settable(entries) && Headed(entries) && built == SetAll(Obj(map[]), entries)
      decreases rest
    {
      var s :| s in rest;
      if Throws(built, Split(s, '.'), target[s]) {
        return None, entries;
      }
      built := SetAt(built, Split(s, '.'), target[s], true);
      ghost var more := entries + [(Split(s, '.'), target[s])];
      assert more[..|more| - 1] == entries;
      entries := more;
      rest := rest - {s};
    }
    r := Some(Collapse(built));
  }

  // ---------------------------------------------------------------- round trip

  ghost predicate GoodPath(path: seq<string>) {
    forall s <- path :: s != "" && '.' !in s
  }

  /** Where no segment is empty, the spelling is the segments joined. */
  lemma {:induction false} SpellingIsJoined(prefix: string, p: seq<string>)
    requires GoodPath(p) && p != []
    ensures Spelling(prefix, p) == Longer(prefix, Join(p, '.'))
    decreases |p|
  {
    assert p[0] in p && forall s <- p[1..] :: s in p;
    if |p| > 1 {
      SpellingIsJoined(Longer(prefix, p[0]), p[1..]);
      assert Join(p, '.') == p[0] + "." + Join(p[1..], '.');
      assert prefix + "." + p[0] + "." + Join(p[1..], '.') == prefix + "." + (p[0] + "." + Join(p[1..], '.'));
    }
  }

  /** So in a clean tree a spelling tells its path. */
  lemma CleanSpelling(d: Data, p: seq<string>)
    requires Clean(d) && !Terminal(d) && p in Paths(d)
    ensures p != [] && Spelling("", p) == Join(p, '.') != "" && Split(Join(p, '.'), '.') == p
  {
    PathsAreHeaded(d, p);
    CleanPaths(d, p);
    forall s | s in p ensures '.' !in s && s != "" {
      if IsIndex(s) { IndexIsPlain(s); }
    }
    SplitJoin(p, '.');
    SpellingIsJoined("", p);
    assert p[0] in p;
  }

  lemma {:induction false} CleanIsDense(d: Data)
    requires Clean(d)
    ensures Dense(d)
  {
    match d
    case Leaf(_) =>
    case Obj(fields) =>
      forall k | k in fields ensures Dense(fields[k]) {
        CleanIsDense(fields[k]);
      }
    case List(items) =>
      forall i | 0 <= i < |items| ensures Dense(items[i].value) {
        CleanIsDense(items[i].value);
      }
  }

  /** What `dot` makes of a clean tree, `undot` takes back to that tree. */
  method RoundTrip(d: Data) returns (r: Option<Data>)
    requires Clean(d) && !Terminal(d)
    ensures r == Some(d)
  {
    CleanIsDense(d);
    var dotted := Dot(d, "");
    var flat := dotted.value;
    forall s | s in flat
      ensures Split(s, '.') in Paths(d) && Get(d, Split(s, '.')) == Some(flat[s]) && Plain(Split(s, '.'))
    {
      var p :| Spells(p, s, flat[s], d, "");
      CleanSpelling(d, p);
      CleanIsPlain(d, p);
    }
    ghost var entries;
    r, entries := Undot(flat);
    forall e | e in entries ensures e.0 in Paths(d) && Get(d, e.0) == Some(e.1) {
      var s :| s in flat && e == (Split(s, '.'), flat[s]);
    }
    forall s | s in flat ensures !Throws(SetAll(Obj(map[]), entries), Split(s, '.'), flat[s]) {
      CleanMeetsNone(d, Obj(map[]), entries, Split(s, '.'));
      ThrowsIff(SetAll(Obj(map[]), entries), Split(s, '.'), flat[s], true);
    }
    forall p | p in Paths(d) ensures exists e :: e in entries && e.0 == p {
      CleanSpelling(d, p);
      assert Spelled(flat, d, "", p);
      assert (Split(Join(p, '.'), '.'), flat[Join(p, '.')]) in entries;
    }
    UndotOfDot(d, entries);
  }

  lemma CleanIsPlain(d: Data, p: seq<string>)
    requires Clean(d) && p in Paths(d)
    ensures Plain(p)
  {
    CleanPaths(d, p);
    forall s | s in p ensures s != "*" && !Unsafe(s) {
      if IsIndex(s) { IndexIsPlain(s); }
    }
  }
}
