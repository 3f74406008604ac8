/** Dotted-path access to nested objects and arrays, and the laws that getting, setting and filling obey. */
module DataPaths {
  import opened Text

  type Length = n: nat | n < 0x1_0000_0000

  /**
   * A scalar, told from others by a number: the array length that its numeric value is, if it is one, and the length
   * that its text is.
   */
  datatype Atom = Atom(id: int, length: Option<Length>, spelled: Option<Length>)

  /** A scalar; an object; an array, which may have holes. */
  datatype Data = Leaf(atom: Atom) | Obj(fields: map<string, Data>) | List(items: seq<Option<Data>>)

  predicate Accessible(d: Data) { !d.Leaf? }

  /** `exists` and `read`: a hole does not exist, nor does any other name on an array. */
  function Read(d: Data, key: string): Option<Data> {
    match d
    case Leaf(_) => None
    case Obj(fields) => if key in fields then Some(fields[key]) else None
    case List(items) => if IsIndex(key) && DigitsValue(key) < |items| then items[DigitsValue(key)] else None
  }

  function Place(items: seq<Option<Data>>, i: nat, v: Data): (more: seq<Option<Data>>)
    ensures i < |more| && more[i] == Some(v)
    ensures |more| == if i < |items| then |items| else i + 1
    ensures forall j :: 0 <= j < |more| && j != i ==> more[j] == if j < |items| then items[j] else None
  {
    if i < |items| then items[i := Some(v)] else items + seq(i - |items|, j => None) + [Some(v)]
  }

  const LENGTH := "length"

  /** The array length that data is as text: arrays are spelled by their elements, objects as no number. */
  function Spelled(d: Data): Option<Length> {
    match d
    case Leaf(atom) => atom.spelled
    case Obj(_) => None
    case List(items) =>
      if items == [] || items == [None] then Some(0) else if |items| == 1 then Spelled(items[0].value) else None
  }

  /** The length an array takes when the data is assigned to its `length`; none where that throws a RangeError. */
  function AsLength(d: Data): Option<Length> { if d.Leaf? then d.atom.length else Spelled(d) }

  function Resize(items: seq<Option<Data>>, n: nat): (resized: seq<Option<Data>>)
    ensures |resized| == n && forall i :: 0 <= i < n ==> resized[i] == if i < |items| then items[i] else None
  {
    if n <= |items| then items[..n] else items + seq(n - |items|, i => None)
  }

  /** The data after an assignment that may throw: an array's `length` cuts or stretches it. */
  function Write(d: Data, key: string, v: Data): (r: Data)
    requires Accessible(d)
    ensures Accessible(r) && r.List? == d.List?
  {
    match d
    case Obj(fields) => Obj(fields[key := v])
    case List(items) =>
      if IsIndex(key) then List(Place(items, DigitsValue(key), v))
      else if key == LENGTH && AsLength(v).Some? then List(Resize(items, AsLength(v).value))
      // Any other name becomes a property of the array that nothing here reads.
      else d
  }

  predicate Resizes(d: Data, key: string) { d.List? && key == LENGTH }

  predicate Unsafe(segment: string) { segment in {"__proto__", "constructor", "prototype"} }

  /** Wildcard-free, and nowhere near a prototype. */
  predicate Plain(path: seq<string>) { forall s <- path :: s != "*" && !Unsafe(s) }

  /** What is created where a path leads nowhere yet. */
  function Empty(first: string): Data { if IsIndex(first) then List([]) else Obj(map[]) }

  function Below(existing: Option<Data>, first: string): (d: Data)
    ensures Accessible(d)
  {
    if existing.Some? && Accessible(existing.value) then existing.value else Empty(first)
  }

  /**
   * The data after `setAt` on a wildcard-free path; not overwriting is `dataFill`. What is created for the rest of a
   * path is assigned before the walk goes on below it, and where it is assigned to a `length` it is not kept.
   */
  function SetAt(d: Data, path: seq<string>, v: Data, overwrite: bool): (r: Data)
    requires Accessible(d) && path != [] && "*" !in path
    ensures Accessible(r)
    decreases |path|
  {
    if Unsafe(path[0]) then d
    else if |path| == 1 then if overwrite || Read(d, path[0]).None? then Write(d, path[0], v) else d
    else
      var next := Below(Read(d, path[0]), path[1]);
      Write(d, path[0], if Resizes(d, path[0]) then next else SetAt(next, path[1..], v, overwrite))
  }

  /** Whether it throws. */
  predicate Throws(d: Data, path: seq<string>, v: Data)
    requires Accessible(d) && path != []
    decreases |path|
  {
    if Unsafe(path[0]) then false
    else if |path| == 1 then Resizes(d, path[0]) && AsLength(v).None?
    else
      var next := Below(Read(d, path[0]), path[1]);
      if Resizes(d, path[0]) then AsLength(next).None? else Throws(next, path[1..], v)
  }

  function Get(d: Data, path: seq<string>): Option<Data> {
    if path == [] then Some(d)
    else match Read(d, path[0]) case None => None case Some(next) => Get(next, path[1..])
  }

  /** `getImpl` on a wildcard-free path. */
  method DataGet(d: Data, path: seq<string>, fallback: Data) returns (r: Data)
    requires "*" !in path
    ensures r == match Get(d, path) case Some(v) => v case None => fallback
  {
    r := d;
    for i := 0 to |path|
      invariant Get(d, path) == Get(r, path[i..])
    {
      assert path[i..][0] == path[i] && path[i..][1..] == path[i + 1..];
      match Read(r, path[i]) {
        case None => return fallback;
        case Some(next) => r := next;
      }
    }
  }

  method HasPath(d: Data, path: seq<string>) returns (r: bool)
    ensures r == Get(d, path).Some?
  {
    var cursor := d;
    for i := 0 to |path|
      invariant Get(d, path) == Get(cursor, path[i..])
    {
      assert path[i..][0] == path[i] && path[i..][1..] == path[i + 1..];
      match Read(cursor, path[i]) {
        case None => return false;
        case Some(next) => cursor := next;
      }
    }
    r := true;
  }

  // --------------------------------------------------------------------- laws

  /** Wherever the path meets an array that is there, it has an index for it. */
  predicate Fits(d: Data, path: seq<string>) {
    path == [] || ((d.List? ==> IsIndex(path[0]))
                   && (Read(d, path[0]).Some? ==> Fits(Read(d, path[0]).value, path[1..])))
  }

  lemma EmptyFits(path: seq<string>)
    requires path != []
    ensures Fits(Empty(path[0]), path)
  {
  }

  lemma ReadWritten(d: Data, key: string, v: Data)
    requires Accessible(d) && (d.List? ==> IsIndex(key))
    ensures Read(Write(d, key, v), key) == Some(v)
  {
  }

  lemma LengthIsNoIndex()
    ensures !IsIndex(LENGTH) && !Unsafe(LENGTH)
  {
    assert LENGTH[0] == 'l';
  }

  lemma ReadBeside(d: Data, key: string, other: string, v: Data)
    requires Accessible(d) && key != other && !Resizes(d, key)
    ensures Read(Write(d, key, v), other) == Read(d, other)
  {
    if d.List? && IsIndex(key) && IsIndex(other) {
      IndexIsDecimal(key);
      IndexIsDecimal(other);
    }
  }

  /** What was set is what is got, if and only if the path fits. */
  lemma {:induction false} GetAfterSet(d: Data, path: seq<string>, v: Data)
    requires Accessible(d) && path != [] && Plain(path)
    ensures Get(SetAt(d, path, v, true), path) == Some(v) <==> Fits(d, path)
    decreases |path|
  {
    assert path[0] in path;
    if d.List? && !IsIndex(path[0]) {
      assert Read(SetAt(d, path, v, true), path[0]) == None;
    } else if |path| == 1 {
      ReadWritten(d, path[0], v);
    } else {
      var next := Below(Read(d, path[0]), path[1]);
      LengthIsNoIndex();
      EmptyFits(path[1..]);
      GetAfterSet(next, path[1..], v);
      ReadWritten(d, path[0], SetAt(next, path[1..], v, true));
    }
  }

  /** What is created on the way is an array where an index follows, and an object where anything else does. */
  lemma {:induction false} CreatedByKind(d: Data, path: seq<string>, v: Data, i: nat)
    requires Accessible(d) && Plain(path) && Fits(d, path) && 0 < i < |path| && Get(d, path[..i]) == None
    ensures
      var made := Get(SetAt(d, path, v, true), path[..i]);
      made.Some? && Accessible(made.value) && (made.value.List? <==> IsIndex(path[i]))
    decreases |path|
  {
    assert path[0] in path && forall s <- path[1..] :: s in path;
    var head := path[..i];
    assert head[0] == path[0] && head[1..] == path[1..][..i - 1];
    var next := Below(Read(d, path[0]), path[1]);
    LengthIsNoIndex();
    ReadWritten(d, path[0], SetAt(next, path[1..], v, true));
    if i > 1 {
      EmptyFits(path[1..]);
      BelowStillNone(d, path, i);
      CreatedByKind(next, path[1..], v, i - 1);
    }
  }

  lemma BelowStillNone(d: Data, path: seq<string>, i: nat)
    requires Accessible(d) && 1 < i < |path| && Get(d, path[..i]) == None
    ensures Get(Below(Read(d, path[0]), path[1]), path[1..][..i - 1]) == None
  {
    var head := path[..i];
    assert head[0] == path[0] && head[1..] == path[1..][..i - 1];
    assert path[1..][..i - 1][0] == path[1];
  }

  /** No path through a segment that could reach a prototype is ever set. */
  lemma {:induction false} UnsafeIsNotSet(d: Data, path: seq<string>, v: Data, overwrite: bool, i: nat)
    requires Accessible(d) && "*" !in path && i < |path| && path[i] in {"__proto__", "constructor", "prototype"}
    ensures Get(SetAt(d, path, v, overwrite), path) == Get(d, path)
    decreases |path|
  {
    if i > 0 && !Unsafe(path[0]) {
      var next := Below(Read(d, path[0]), path[1]);
      LengthIsNoIndex();
      UnsafeIsNotSet(next, path[1..], v, overwrite, i - 1);
      if !(d.List? && !IsIndex(path[0])) {
        ReadWritten(d, path[0], SetAt(next, path[1..], v, overwrite));
        assert Read(next, path[1]) == None || Read(d, path[0]) == Some(next);
      }
    }
  }

  // ------------------------------------------------------------ array lengths

  /** The array on the path whose `length` the path names, and what of the path is left. */
  datatype Meeting = Meeting(items: seq<Option<Data>>, rest: seq<string>)

  function Meets(d: Data, path: seq<string>): Option<Meeting> {
    if path == [] || Unsafe(path[0]) then None
    else if Resizes(d, path[0]) then Some(Meeting(d.items, path[1..]))
    else match Read(d, path[0]) case None => None case Some(next) => Meets(next, path[1..])
  }

  /** The length it is given. */
  function NewLength(m: Meeting, v: Data): Option<Length> {
    AsLength(if m.rest == [] then v else Empty(m.rest[0]))
  }

  lemma {:induction false} EmptyMeetsNone(path: seq<string>)
    requires path != []
    ensures Meets(Empty(path[0]), path) == None
  {
    LengthIsNoIndex();
  }

  /** Setting throws exactly where it gives an array a length that is none, and then it has changed nothing. */
  lemma {:induction false} ThrowsIff(d: Data, path: seq<string>, v: Data, overwrite: bool)
    requires Accessible(d) && path != [] && "*" !in path
    ensures Throws(d, path, v) <==> Meets(d, path).Some? && NewLength(Meets(d, path).value, v).None?
    ensures Throws(d, path, v) ==> SetAt(d, path, v, overwrite) == d
    decreases |path|
  {
    LengthIsNoIndex();
    if !Unsafe(path[0]) && !Resizes(d, path[0]) && |path| > 1 {
      var next := Below(Read(d, path[0]), path[1]);
      ThrowsIff(next, path[1..], v, overwrite);
      EmptyMeetsNone(path[1..]);
      if Read(d, path[0]).Some? {
        LeafMeetsNone(Read(d, path[0]).value, path[1..]);
        WriteBack(d, path[0]);
      }
    }
  }

  lemma LeafMeetsNone(d: Data, path: seq<string>)
    ensures d.Leaf? ==> Meets(d, path) == None
  {
  }

  /** One step down the path, to what is there or is created for the rest. */
  lemma MeetsBelow(d: Data, path: seq<string>)
    requires Accessible(d) && |path| > 1 && !Unsafe(path[0]) && !Resizes(d, path[0])
    ensures Meets(d, path) == Meets(Below(Read(d, path[0]), path[1]), path[1..])
  {
    EmptyMeetsNone(path[1..]);
  }

  lemma LastMeetsNone(d: Data, path: seq<string>)
    requires |path| == 1 ==> !Resizes(d, path[0])
    ensures |path| == 1 ==> Meets(d, path) == None
  {
    if |path| == 1 && Read(d, path[0]).Some? {
      assert path[1..] == [] && Meets(Read(d, path[0]).value, path[1..]) == None;
    }
  }

  ghost predicate Beyond(items: seq<Option<Data>>, n: nat) {
    exists i :: n <= i < |items| && items[i].Some?
  }

  /** An element of the array is left out by the length it is given. */
  ghost predicate Cuts(d: Data, path: seq<string>, v: Data) {
    var m := Meets(d, path);
    m.Some? && NewLength(m.value, v).Some? && Beyond(m.value.items, NewLength(m.value, v).value)
  }

  // --------------------------------------------------------------- other paths

  /** The paths part at some segment. */
  predicate Diverge(p: seq<string>, q: seq<string>) {
    p != [] && q != [] && (p[0] != q[0] || Diverge(p[1..], q[1..]))
  }

  ghost predicate KeepsDiverging(d: Data, path: seq<string>, r: Data) {
    forall other :: Diverge(path, other) ==> Get(r, other) == Get(d, other)
  }

  /** Setting, or filling, leaves every diverging path alone, if and only if it cuts no array. */
  lemma SetKeepsDiverging(d: Data, path: seq<string>, v: Data, overwrite: bool)
    requires Accessible(d) && path != [] && "*" !in path
    ensures KeepsDiverging(d, path, SetAt(d, path, v, overwrite)) <==> !Cuts(d, path, v)
  {
    if Cuts(d, path, v) {
      var other := CutLosesDiverging(d, path, v, overwrite);
    } else {
      forall other | Diverge(path, other) ensures Get(SetAt(d, path, v, overwrite), other) == Get(d, other) {
        UncutKeepsDiverging(d, path, v, overwrite, other);
      }
    }
  }

  lemma {:induction false} UncutKeepsDiverging(d: Data, path: seq<string>, v: Data, overwrite: bool, other: seq<string>)
    requires Accessible(d) && "*" !in path && Diverge(path, other) && !Cuts(d, path, v)
    ensures Get(SetAt(d, path, v, overwrite), other) == Get(d, other)
    decreases |path|
  {
    LengthIsNoIndex();
    if Unsafe(path[0]) {
    } else if Resizes(d, path[0]) {
      assert Read(SetAt(d, path, v, overwrite), other[0]) == Read(d, other[0]);
    } else if |path| == 1 {
      ReadBeside(d, path[0], other[0], v);
    } else {
      var next := Below(Read(d, path[0]), path[1]);
      var below := SetAt(next, path[1..], v, overwrite);
      if path[0] != other[0] {
        ReadBeside(d, path[0], other[0], below);
      } else {
        MeetsBelow(d, path);
        UncutKeepsDiverging(next, path[1..], v, overwrite, other[1..]);
        assert other[1..] != [];
        if d.Obj? || IsIndex(path[0]) {
          ReadWritten(d, path[0], below);
        }
      }
    }
  }

  lemma {:induction false} CutLosesDiverging(d: Data, path: seq<string>, v: Data, overwrite: bool)
    returns (other: seq<string>)
    requires Accessible(d) && path != [] && "*" !in path && Cuts(d, path, v)
    ensures Diverge(path, other) && Get(d, other).Some? && Get(SetAt(d, path, v, overwrite), other).None?
    decreases |path|
  {
    LengthIsNoIndex();
    if Resizes(d, path[0]) {
      var n := NewLength(Meeting(d.items, path[1..]), v).value;
      var i :| n <= i < |d.items| && d.items[i].Some?;
      DecimalIsIndex(i);
      other := [Decimal(i)];
    } else {
      var next := Read(d, path[0]).value;
      LastMeetsNone(d, path);
      MeetsBelow(d, path);
      LeafMeetsNone(next, path[1..]);
      var q := CutLosesDiverging(next, path[1..], v, overwrite);
      ReadWritten(d, path[0], SetAt(next, path[1..], v, overwrite));
      other := [path[0]] + q;
    }
  }

  /** The shortest cut: the element under "list.0" is gone once "list.length" is set to 0. */
  lemma LengthEmptiesList(one: Atom, zero: Atom)
    requires zero.length == Some(0)
    ensures
      var d := Obj(map["list" := List([Some(Leaf(one))])]);
      && SetAt(d, ["list", "length"], Leaf(zero), true) == Obj(map["list" := List([])])
      && SetAt(d, ["list", "length"], Leaf(zero), false) == Obj(map["list" := List([])])
      && Get(d, ["list", "0"]) == Some(Leaf(one)) && Throws(d, ["list", "length", "x"], Leaf(zero))
  {
    var list := List([Some(Leaf(one))]);
    LengthIsNoIndex();
    assert ["list", "length"][1..] == ["length"] && ["list", "length", "x"][1..] == ["length", "x"];
    assert Decimal(0) == "0";
    DecimalIsIndex(0);
    assert ["list", "0"][1..] == ["0"] && ["0"][1..] == [];
    assert Get(list, ["0"]) == Some(Leaf(one));
    assert SetAt(list, ["length"], Leaf(zero), true) == List([]) == SetAt(list, ["length"], Leaf(zero), false);
    assert "x"[0] == 'x' && !IsIndex("x");
    assert Throws(list, ["length", "x"], Leaf(zero));
  }

  // ---------------------------------------------------------------- set twice

  lemma WriteTwice(d: Data, key: string, v: Data, w: Data)
    requires Accessible(d) && !Resizes(d, key)
    ensures Write(Write(d, key, v), key, w) == Write(d, key, w)
  {
    if d.List? && IsIndex(key) {
      assert Place(Place(d.items, DigitsValue(key), v), DigitsValue(key), w) == Place(d.items, DigitsValue(key), w);
    }
  }

  /** The length set first leaves out elements that the one set second would have kept, or is not set again. */
  ghost predicate Outlasts(items: seq<Option<Data>>, n: nat, second: Option<Length>) {
    match second
    case None => n != |items|
    case Some(m) => exists i :: n <= i < m && i < |items| && items[i].Some?
  }

  ghost predicate FirstShows(d: Data, path: seq<string>, v: Data, w: Data) {
    var m := Meets(d, path);
    m.Some? && m.value.rest == [] && AsLength(v).Some? && Outlasts(m.value.items, AsLength(v).value, AsLength(w))
  }

  lemma ResizedTwice(items: seq<Option<Data>>, n: Length, second: Option<Length>)
    ensures
      var once := if second.Some? then Resize(items, second.value) else items;
      var twice := if second.Some? then Resize(Resize(items, n), second.value) else Resize(items, n);
      twice == once <==> !Outlasts(items, n, second)
  {
    match second
    case None =>
      assert |items| == n ==> Resize(items, n) == items;
    case Some(m) =>
      var once, twice := Resize(items, m), Resize(Resize(items, n), m);
      if Outlasts(items, n, second) {
        var i :| n <= i < m && i < |items| && items[i].Some?;
        assert twice[i] != once[i];
      } else {
        assert twice == once;
      }
  }

  /** Of two sets of one path only the second shows, if and only if the first leaves no trace in an array's length. */
  lemma {:induction false} SecondSetWins(d: Data, path: seq<string>, v: Data, w: Data)
    requires Accessible(d) && path != [] && "*" !in path
    ensures SetAt(SetAt(d, path, v, true), path, w, true) == SetAt(d, path, w, true) <==> !FirstShows(d, path, v, w)
    decreases |path|
  {
    LengthIsNoIndex();
    if Unsafe(path[0]) {
    } else if Resizes(d, path[0]) {
      if |path| == 1 && AsLength(v).Some? {
        ResizedTwice(d.items, AsLength(v).value, AsLength(w));
      }
    } else if |path| == 1 {
      LastMeetsNone(d, path);
      WriteTwice(d, path[0], v, w);
    } else {
      var next := Below(Read(d, path[0]), path[1]);
      var first, second := SetAt(next, path[1..], v, true), SetAt(next, path[1..], w, true);
      MeetsBelow(d, path);
      SecondSetWins(next, path[1..], v, w);
      if d.Obj? || IsIndex(path[0]) {
        ReadWritten(d, path[0], first);
        ReadWritten(d, path[0], second);
        ReadWritten(d, path[0], SetAt(first, path[1..], w, true));
        WriteTwice(d, path[0], first, SetAt(first, path[1..], w, true));
      }
    }
  }

  // -------------------------------------------------------------------- filling

  lemma WriteBack(d: Data, key: string)
    requires Read(d, key).Some?
    ensures Write(d, key, Read(d, key).value) == d
  {
    if d.List? {
      assert Place(d.items, DigitsValue(key), Read(d, key).value) == d.items;
    }
  }

  /** Filling a path that leads somewhere changes nothing; filling any other path is setting it. */
  lemma {:induction false} FillIsSetOrNothing(d: Data, path: seq<string>, v: Data)
    requires Accessible(d) && path != [] && "*" !in path
    ensures SetAt(d, path, v, false) == if Get(d, path).Some? then d else SetAt(d, path, v, true)
    decreases |path|
  {
    LengthIsNoIndex();
    if !Unsafe(path[0]) && |path| > 1 && !Resizes(d, path[0]) {
      var next := Below(Read(d, path[0]), path[1]);
      FillIsSetOrNothing(next, path[1..], v);
      if Get(d, path).Some? {
        WriteBack(d, path[0]);
      }
    }
  }

  /** A scalar stands in the way of the path. */
  predicate Blocked(d: Data, path: seq<string>) {
    |path| > 1 && Read(d, path[0]).Some? && (Read(d, path[0]).value.Leaf? || Blocked(Read(d, path[0]).value, path[1..]))
  }

  ghost predicate HoldsLeaf(d: Data) { exists q, a :: Get(d, q) == Some(Leaf(a)) }

  ghost predicate LeafBeyond(items: seq<Option<Data>>, n: nat) {
    exists i :: n <= i < |items| && items[i].Some? && HoldsLeaf(items[i].value)
  }

  /** A scalar lies in or below an element that is left out. */
  ghost predicate CutsLeaf(d: Data, path: seq<string>, v: Data) {
    var m := Meets(d, path);
    m.Some? && NewLength(m.value, v).Some? && LeafBeyond(m.value.items, NewLength(m.value, v).value)
  }

  ghost predicate KeepsLeaves(d: Data, r: Data) {
    forall q, a :: Get(d, q) == Some(Leaf(a)) ==> Get(r, q) == Some(Leaf(a))
  }

  /**
   * Filling may still lose something: a scalar on the way is replaced, and an array can be cut. It loses no scalar
   * exactly when neither happens to one.
   */
  lemma FillKeepsLeaves(d: Data, path: seq<string>, v: Data)
    requires Accessible(d) && path != [] && Plain(path)
    ensures KeepsLeaves(d, SetAt(d, path, v, false)) <==> !Blocked(d, path) && !CutsLeaf(d, path, v)
  {
    if Blocked(d, path) {
      var q, a := BlockedLeafIsLost(d, path, v);
    } else if CutsLeaf(d, path, v) {
      var q, a := CutLeafIsLost(d, path, v);
    } else {
      forall q, a | Get(d, q) == Some(Leaf(a)) ensures Get(SetAt(d, path, v, false), q) == Some(Leaf(a)) {
        UnblockedLeafStays(d, path, v, q, a);
      }
    }
  }

  lemma {:induction false} BlockedLeafIsLost(d: Data, path: seq<string>, v: Data) returns (q: seq<string>, a: Atom)
    requires Accessible(d) && Plain(path) && Blocked(d, path)
    ensures Get(d, q) == Some(Leaf(a)) && Get(SetAt(d, path, v, false), q) != Some(Leaf(a))
    decreases |path|
  {
    assert path[0] in path && forall s <- path[1..] :: s in path;
    LengthIsNoIndex();
    var existing := Read(d, path[0]).value;
    var next := Below(Read(d, path[0]), path[1]);
    ReadWritten(d, path[0], SetAt(next, path[1..], v, false));
    if existing.Leaf? {
      q, a := [path[0]], existing.atom;
    } else {
      q, a := BlockedLeafIsLost(existing, path[1..], v);
      q := [path[0]] + q;
    }
  }

  lemma {:induction false} CutLeafIsLost(d: Data, path: seq<string>, v: Data) returns (q: seq<string>, a: Atom)
    requires Accessible(d) && path != [] && Plain(path) && CutsLeaf(d, path, v)
    ensures Get(d, q) == Some(Leaf(a)) && Get(SetAt(d, path, v, false), q) != Some(Leaf(a))
    decreases |path|
  {
    assert path[0] in path && forall s <- path[1..] :: s in path;
    LengthIsNoIndex();
    if Resizes(d, path[0]) {
      var n := NewLength(Meeting(d.items, path[1..]), v).value;
      var i :| n <= i < |d.items| && d.items[i].Some? && HoldsLeaf(d.items[i].value);
      DecimalIsIndex(i);
      q, a :| Get(d.items[i].value, q) == Some(Leaf(a));
      q := [Decimal(i)] + q;
    } else {
      var next := Read(d, path[0]).value;
      LastMeetsNone(d, path);
      MeetsBelow(d, path);
      LeafMeetsNone(next, path[1..]);
      q, a := CutLeafIsLost(next, path[1..], v);
      ReadWritten(d, path[0], SetAt(next, path[1..], v, false));
      q := [path[0]] + q;
    }
  }

  lemma {:induction false} UnblockedLeafStays(d: Data, path: seq<string>, v: Data, q: seq<string>, a: Atom)
    requires Accessible(d) && path != [] && Plain(path) && !Blocked(d, path) && !CutsLeaf(d, path, v)
    requires Get(d, q) == Some(Leaf(a))
    ensures Get(SetAt(d, path, v, false), q) == Some(Leaf(a))
    decreases |path|
  {
    assert path[0] in path && q != [] && forall s <- path[1..] :: s in path;
    LengthIsNoIndex();
    if Resizes(d, path[0]) {
      var i := DigitsValue(q[0]);
      assert Get(d.items[i].value, q[1..]) == Some(Leaf(a));
      assert HoldsLeaf(d.items[i].value);
      assert Read(SetAt(d, path, v, false), q[0]) == Read(d, q[0]);
    } else if path[0] != q[0] {
      ReadBeside(d, path[0], q[0],
                 if |path| == 1 then v else SetAt(Below(Read(d, path[0]), path[1]), path[1..], v, false));
    } else if |path| > 1 {
      var existing := Read(d, path[0]).value;
      MeetsBelow(d, path);
      UnblockedLeafStays(existing, path[1..], v, q[1..], a);
      ReadWritten(d, path[0], SetAt(existing, path[1..], v, false));
    }
  }

  /** The simplest replacement: filling "a.b" where "a" is a scalar. */
  lemma FillCanLose(a: Atom, v: Data)
    ensures Get(SetAt(Obj(map["a" := Leaf(a)]), ["a", "b"], v, false), ["a"]) == Some(Obj(map["b" := v]))
  {
    assert ["a", "b"][1..] == ["b"];
  }

  /**
   * `has` and `get` walk alike: with a fallback of the caller's own, `get` tells what `has` tells exactly when the
   * path does not lead to that very fallback.
   */
  method HasByGet(d: Data, path: seq<string>, sentinel: Data) returns (has: bool, got: Data)
    requires "*" !in path
    ensures (has <==> got != sentinel) <==> Get(d, path) != Some(sentinel)
    ensures has ==> Get(d, path) == Some(got)
  {
    has := HasPath(d, path);
    got := DataGet(d, path, sentinel);
  }
}
