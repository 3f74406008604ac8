/** The objects and arrays that setting a path changes in place. */
module DataObjects {
  import opened Text
  import opened DataPaths

  /** What a property holds: a scalar, or a reference to an object or an array. */
  datatype Cell = Scalar(atom: Atom) | Ref(box: Box)

  ghost function Footprint(c: Cell): set<Box>
    reads if c.Ref? then {c.box} else {}
  {
    if c.Ref? then c.box.Repr else {}
  }

  ghost predicate Whole(c: Cell)
    reads if c.Ref? then {c.box} else {}, Footprint(c)
    decreases Footprint(c), 1
  {
    c.Ref? ==> c.box.Valid()
  }

  /** The data a cell stands for. */
  ghost function Shown(c: Cell): Data
    requires Whole(c)
    reads if c.Ref? then {c.box} else {}, Footprint(c)
    decreases Footprint(c), 2
  {
    match c case Scalar(a) => Leaf(a) case Ref(b) => b.View()
  }

  /** The array length that a cell's data is as text. */
  function SpelledCell(c: Cell): (n: Option<Length>)
    requires Whole(c)
    reads if c.Ref? then {c.box} else {}, Footprint(c)
    ensures n == Spelled(Shown(c))
    decreases Footprint(c), 2
  {
    match c case Scalar(a) => a.spelled case Ref(b) => b.SpelledLength()
  }

  /** An object, or an array: an object whose index properties all lie below its length. */
  class Box {
    const isList: bool
    var length: nat
    var slots: map<string, Cell>
    ghost var Repr: set<Box>

    constructor (isList: bool)
      ensures Valid() && fresh(Repr) && View() == if isList then List([]) else Obj(map[])
    {
      this.isList, length, slots := isList, 0, map[];
      Repr := {this};
    }

    ghost predicate Valid()
      reads this, Repr
      decreases Repr, 0
    {
      && this in Repr
      && (forall k <- slots :: Owned(k) && Whole(slots[k]))
      && (forall j, k {:trigger Apart(j, k)} :: j in slots && k in slots && j != k ==> Apart(j, k))
      && (isList ==> forall k <- slots :: IsIndex(k) ==> DigitsValue(k) < length)
    }

    /** What hangs below a property belongs to this object, which is not part of it. */
    ghost predicate Owned(k: string)
      requires k in slots
      reads this, Repr
    {
      && (slots[k].Ref? ==> slots[k].box in Repr && slots[k].box in slots[k].box.Repr)
      && Footprint(slots[k]) <= Repr - {this}
    }

    ghost predicate Apart(j: string, k: string)
      requires j in slots && k in slots && Owned(j) && Owned(k)
      reads this, Repr
    {
      Footprint(slots[j]) !! Footprint(slots[k])
    }

    ghost function Item(i: nat): Option<Data>
      requires Valid()
      reads this, Repr
      decreases Repr, 0
    {
      if Decimal(i) in slots then Some(Shown(slots[Decimal(i)])) else None
    }

    ghost function View(): (d: Data)
      requires Valid()
      reads this, Repr
      ensures Accessible(d)
      decreases Repr, 1
    {
      if isList then List(seq(length, i requires Valid() && 0 <= i reads this, Repr => Item(i)))
      else Obj(map k | k in slots :: Shown(slots[k]))
    }

    function SpelledLength(): (n: Option<Length>)
      requires Valid()
      reads this, Repr
      ensures n == Spelled(View())
      decreases Repr, 1
    {
      DecimalIsIndex(0);
      assert isList && length == 1 ==> View().items == [Item(0)];
      if !isList then None
      else if length == 0 || (length == 1 && Decimal(0) !in slots) then Some(0)
      else if length == 1 then SpelledCell(slots[Decimal(0)])
      else None
    }

    /** `exists`, and `read` of what exists. */
    function ReadSlot(key: string): Option<Cell>
      reads this
    {
      if key in slots && (isList ==> IsIndex(key)) then Some(slots[key]) else None
    }

    lemma ReadIsRead(key: string)
      requires Valid()
      ensures ReadSlot(key).Some? ==> Whole(ReadSlot(key).value)
      ensures Read(View(), key) == match ReadSlot(key) case None => None case Some(c) => Some(Shown(c))
    {
      if isList && IsIndex(key) {
        IndexIsDecimal(key);
      }
    }

    /** Apart from `key`, the properties show what `before` says. */
    ghost predicate Beside(before: Data, key: string)
      requires Valid()
      reads this, Repr
    {
      && Accessible(before) && before.List? == isList && key in slots
      && if isList then ItemsBeside(before.items, key) else FieldsBeside(before.fields, key)
    }

    ghost predicate FieldsBeside(before: map<string, Data>, key: string)
      requires Valid()
      reads this, Repr
    {
      slots.Keys == before.Keys + {key} && forall k <- slots :: k != key ==> before[k] == Shown(slots[k])
    }

    ghost predicate ItemsBeside(before: seq<Option<Data>>, key: string)
      requires Valid()
      reads this, Repr
    {
      && length == (if IsIndex(key) && |before| <= DigitsValue(key) then DigitsValue(key) + 1 else |before|)
      && forall i: nat :: i < length && Decimal(i) != key ==> Item(i) == if i < |before| then before[i] else None
    }

    /** The property is as it was, and so is what hangs below it. */
    twostate predicate CellKept(k: string)
      requires old(Valid())
      reads this`slots, if k in slots && slots[k].Ref? then {slots[k].box} else {},
            if k in slots then Footprint(slots[k]) else {}
    {
      && k in slots && k in old(slots) && slots[k] == old(slots[k]) && Whole(slots[k])
      && Shown(slots[k]) == old(Shown(slots[k])) && Footprint(slots[k]) == old(Footprint(slots[k]))
    }

    /** A new or changed cell under `key`, apart from all others, keeps the object whole. */
    twostate lemma StaysValid(key: string)
      requires old(Valid()) && key in slots && Whole(slots[key]) && this !in Footprint(slots[key])
      requires slots[key].Ref? ==> slots[key].box in slots[key].box.Repr
      requires slots.Keys == old(slots.Keys) + {key} && Repr == old(Repr) + Footprint(slots[key])
      requires forall k {:trigger CellKept(k)} :: k in slots && k != key ==>
        CellKept(k) && Footprint(slots[k]) !! Footprint(slots[key])
      requires isList ==>
        length == if IsIndex(key) && old(length) <= DigitsValue(key) then DigitsValue(key) + 1 else old(length)
      ensures Valid() && OthersKept(key)
    {
      forall k | k in slots ensures Owned(k) && Whole(slots[k]) {
        assert k != key ==> CellKept(k) && old(Owned(k));
      }
      forall j, k | j in slots && k in slots && j != k ensures Apart(j, k) {
        assert j != key ==> CellKept(j);
        assert k != key ==> CellKept(k);
        assert j != key && k != key ==> old(Apart(j, k));
      }
    }

    /** Every property but `key` is as it was, and so is what hangs below it. */
    twostate predicate OthersKept(key: string)
      requires old(Valid()) && Valid()
      reads this, Repr
    {
      && key in slots && slots.Keys == old(slots.Keys) + {key}
      && (forall k {:trigger CellKept(k)} :: k in slots && k != key ==> CellKept(k))
      && (isList ==>
            length == if IsIndex(key) && old(length) <= DigitsValue(key) then DigitsValue(key) + 1 else old(length))
    }

    twostate lemma OthersBeside(key: string)
      requires old(Valid()) && Valid() && OthersKept(key)
      ensures Beside(old(View()), key)
    {
      forall k | k in slots && k != key ensures k in old(slots) && Shown(slots[k]) == old(Shown(slots[k])) {
        assert CellKept(k);
      }
      if isList {
        forall i: nat | old(length) <= i ensures Decimal(i) !in old(slots) {
          DecimalIsIndex(i);
        }
      }
    }

    lemma ShowsWritten(before: Data, key: string)
      requires Valid() && Beside(before, key) && !Resizes(before, key)
      ensures View() == Write(before, key, Shown(slots[key]))
    {
      if isList {
        ListShowsWritten(before.items, key);
      }
    }

    lemma ListShowsWritten(before: seq<Option<Data>>, key: string)
      requires Valid() && isList && key in slots && ItemsBeside(before, key) && key != LENGTH
      ensures View() == Write(List(before), key, Shown(slots[key]))
    {
      forall i: nat ensures Decimal(i) == key ==> IsIndex(key) && i == DigitsValue(key) {
        DecimalIsIndex(i);
      }
      if IsIndex(key) {
        IndexIsDecimal(key);
        assert View().items == Place(before, DigitsValue(key), Shown(slots[key]));
      } else {
        assert View().items == before;
      }
    }

    /** `write`: an index on an array lengthens it as far as needed; its `length` is another matter. */
    method WriteSlot(key: string, c: Cell)
      requires Valid() && Whole(c) && Footprint(c) !! Repr && !(isList && key == LENGTH)
      modifies this
      ensures Valid() && Repr == old(Repr) + Footprint(c) && slots == old(slots)[key := c]
      ensures Shown(c) == old(Shown(c)) && View() == Write(old(View()), key, Shown(c))
    {
      PutSlot(key, c);
      OthersBeside(key);
      ShowsWritten(old(View()), key);
    }

    /** The elements that stay when an array is given a length. */
    twostate lemma ShorterStaysValid(n: nat)
      requires old(Valid()) && isList && Repr == old(Repr) && length == n
      requires slots.Keys <= old(slots).Keys && forall k <- slots :: slots[k] == old(slots[k])
      requires forall k <- slots :: IsIndex(k) ==> DigitsValue(k) < n
      requires forall b <- old(Repr) - {this} :: unchanged(b)
      ensures Valid() && forall k <- slots :: CellKept(k)
    {
      forall k | k in slots ensures CellKept(k) && Owned(k) {
        CellStays(k);
        assert old(Owned(k));
      }
      forall j, k | j in slots && k in slots && j != k ensures Apart(j, k) {
        assert CellKept(j) && CellKept(k) && old(Apart(j, k));
      }
    }

    /** Giving an array a `length` removes the elements beyond it. */
    method SetLength(n: Length)
      requires Valid() && isList
      modifies this
      ensures Valid() && Repr == old(Repr) && View() == List(Resize(old(View()).items, n))
    {
      slots := map k | k in slots && !(IsIndex(k) && DigitsValue(k) >= n) :: slots[k];
      length := n;
      ShorterStaysValid(n);
      forall i: nat | i < n ensures Item(i) == if i < |old(View()).items| then old(View()).items[i] else None {
        DecimalIsIndex(i);
        assert Decimal(i) in slots ==> CellKept(Decimal(i));
      }
      assert View().items == Resize(old(View()).items, n);
    }

    /** Data assigned to the `length` of an array is not kept. */
    method AssignLength(c: Cell) returns (ok: bool)
      requires Valid() && isList && Whole(c) && Footprint(c) !! Repr
      modifies this
      ensures Valid() && Repr == old(Repr) && (ok <==> AsLength(old(Shown(c))).Some?)
      ensures View() == Write(old(View()), LENGTH, old(Shown(c)))
    {
      LengthIsNoIndex();
      var n := if c.Scalar? then c.atom.length else SpelledCell(c);
      if n.Some? {
        SetLength(n.value);
      }
      ok := n.Some?;
    }

    /** `write` under any name; false where it throws. */
    method Assign(key: string, c: Cell) returns (ok: bool)
      requires Valid() && Whole(c) && Footprint(c) !! Repr
      modifies this
      ensures Valid() && old(Repr) <= Repr <= old(Repr) + Footprint(c)
      ensures Shown(c) == old(Shown(c)) && Whole(c) && Footprint(c) == old(Footprint(c))
      ensures ok <==> !(Resizes(old(View()), key) && AsLength(Shown(c)).None?)
      ensures View() == Write(old(View()), key, Shown(c))
    {
      ok := true;
      if isList && key == LENGTH {
        ok := AssignLength(c);
      } else {
        WriteSlot(key, c);
      }
    }

    /** Changing the object alone leaves alone what hangs below. */
    twostate lemma CellStays(k: string)
      requires old(Valid()) && k in slots && k in old(slots) && slots[k] == old(slots[k])
      requires forall b <- old(Repr) - {this} :: unchanged(b)
      ensures CellKept(k) && Footprint(slots[k]) <= old(Repr) - {this}
    {
      assert old(Owned(k) && Whole(slots[k]));
    }

    method PutSlot(key: string, c: Cell)
      requires Valid() && Whole(c) && Footprint(c) !! Repr
      modifies this
      ensures Valid() && Repr == old(Repr) + Footprint(c) && slots == old(slots)[key := c]
      ensures Shown(c) == old(Shown(c)) && OthersKept(key)
    {
      if isList && IsIndex(key) && length <= DigitsValue(key) {
        length := DigitsValue(key) + 1;
      }
      slots := slots[key := c];
      Repr := Repr + Footprint(c);
      forall k | k in slots && k != key ensures CellKept(k) && Footprint(slots[k]) !! Footprint(c) {
        CellStays(k);
      }
      StaysValid(key);
    }

    /** Goes on below a property that holds an object or an array; nothing else is disturbed. */
    method DescendBelow(key: string, rest: seq<string>, value: Cell, overwrite: bool) returns (ok: bool)
      requires Valid() && key in slots && slots[key].Ref? && rest != [] && "*" !in rest
      requires Whole(value) && Footprint(value) !! Repr
      modifies Footprint(slots[key])
      ensures slots[key].box.Valid() && Footprint(slots[key]) !! {this}
      ensures forall k {:trigger slots[k]} :: k in slots && k != key ==>
        CellKept(k) && Footprint(slots[k]) !! Footprint(slots[key]) + {this}
      ensures old(Footprint(slots[key])) <= Footprint(slots[key])
      ensures fresh(Footprint(slots[key]) - old(Footprint(slots[key])) - Footprint(value))
      ensures Whole(value) && Shown(value) == old(Shown(value)) && Footprint(value) == old(Footprint(value))
      ensures Shown(slots[key]) == DataPaths.SetAt(old(Shown(slots[key])), rest, Shown(value), overwrite)
      ensures ok <==> !Throws(old(Shown(slots[key])), rest, Shown(value))
      decreases |rest|, 2
    {
      var next := slots[key].box;
      assert Owned(key);
      assert forall k <- slots :: k != key ==> Owned(k) && Whole(slots[k]) && Apart(k, key);
      ok := next.SetAt(rest, value, overwrite);
      forall k | k in slots && k != key ensures CellKept(k) && Footprint(slots[k]) !! next.Repr + {this} {
        assert old(Apart(k, key));
      }
    }

    /** The same, and what it has made belongs to this object. */
    method Descend(key: string, rest: seq<string>, value: Cell, overwrite: bool) returns (ok: bool)
      requires Valid() && key in slots && slots[key].Ref? && rest != [] && "*" !in rest
      requires Whole(value) && Footprint(value) !! Repr
      modifies Repr
      ensures Valid() && old(Repr) <= Repr && fresh(Repr - old(Repr) - Footprint(value))
      ensures Whole(value) && Shown(value) == old(Shown(value))
      ensures slots == old(slots) && OthersKept(key)
      ensures Shown(slots[key]) == DataPaths.SetAt(old(Shown(slots[key])), rest, Shown(value), overwrite)
      ensures ok <==> !Throws(old(Shown(slots[key])), rest, Shown(value))
      decreases |rest|, 3
    {
      assert Owned(key);
      ok := DescendBelow(key, rest, value, overwrite);
      Repr := Repr + Footprint(slots[key]);
      forall k | k in slots && k != key ensures CellKept(k) && Footprint(slots[k]) !! Footprint(slots[key]) {
        assert slots[k] == old(slots[k]);
      }
      StaysValid(key);
    }

    /** Sets a path below what is created for the `length` of an array, which does not keep it. */
    method Detour(rest: seq<string>, value: Cell, overwrite: bool) returns (ok: bool)
      requires Valid() && isList && rest != [] && "*" !in rest
      requires Whole(value) && Footprint(value) !! Repr
      modifies this
      ensures Valid() && Repr == old(Repr)
      ensures Whole(value) && Shown(value) == old(Shown(value))
      ensures View() == Write(old(View()), LENGTH, Empty(rest[0]))
      ensures ok <==> AsLength(Empty(rest[0])).Some?
      decreases |rest|, 2
    {
      var next := new Box(IsIndex(rest[0]));
      ok := AssignLength(Ref(next));
      if ok {
        ThrowsIff(Empty(rest[0]), rest, Shown(value), overwrite);
        EmptyMeetsNone(rest);
        var below := next.SetAt(rest, value, overwrite);
      }
    }

    /** `setAt` on a path without wildcards; false where it throws. */
    method SetAt(segments: seq<string>, value: Cell, overwrite: bool) returns (ok: bool)
      requires Valid() && segments != [] && "*" !in segments
      requires Whole(value) && Footprint(value) !! Repr
      modifies Repr
      ensures Valid() && old(Repr) <= Repr && fresh(Repr - old(Repr) - Footprint(value))
      ensures Whole(value) && Shown(value) == old(Shown(value))
      ensures View() == DataPaths.SetAt(old(View()), segments, Shown(value), overwrite)
      ensures ok <==> !Throws(old(View()), segments, Shown(value))
      decreases |segments|, 1
    {
      if Unsafe(segments[0]) {
        return true;
      }
      if |segments| == 1 {
        ok := SetLast(segments[0], value, overwrite);
        return;
      }
      if isList && segments[0] == LENGTH {
        LengthIsNoIndex();
        ok := Detour(segments[1..], value, overwrite);
        return;
      }
      Enter(segments[0], segments[1]);
      label Entered:
      ok := Descend(segments[0], segments[1..], value, overwrite);
      OthersBeside@Entered(segments[0]);
      ShowsWritten(old@Entered(View()), segments[0]);
    }

    method SetLast(key: string, value: Cell, overwrite: bool) returns (ok: bool)
      requires Valid() && Whole(value) && Footprint(value) !! Repr
      modifies this
      ensures Valid() && old(Repr) <= Repr <= old(Repr) + Footprint(value)
      ensures Whole(value) && Shown(value) == old(Shown(value))
      ensures View() == if overwrite || Read(old(View()), key).None? then Write(old(View()), key, Shown(value))
                        else old(View())
      ensures ok <==> !(Resizes(old(View()), key) && AsLength(Shown(value)).None?)
    {
      LengthIsNoIndex();
      ReadIsRead(key);
      ok := true;
      if overwrite || ReadSlot(key).None? {
        ok := Assign(key, value);
      }
    }

    /** Makes sure that a path can go on below `key`. */
    method Enter(key: string, first: string)
      requires Valid() && !(isList && key == LENGTH)
      modifies this
      ensures Valid() && old(Repr) <= Repr && fresh(Repr - old(Repr)) && key in slots && slots[key].Ref?
      ensures Shown(slots[key]) == Below(Read(old(View()), key), first)
      ensures forall d :: Write(View(), key, d) == Write(old(View()), key, d)
    {
      ReadIsRead(key);
      var existing := ReadSlot(key);
      if existing.None? || existing.value.Scalar? {
        var next := new Box(IsIndex(first));
        WriteSlot(key, Ref(next));
        forall d ensures Write(View(), key, d) == Write(old(View()), key, d) {
          WriteTwice(old(View()), key, Empty(first), d);
        }
      }
    }
  }

  /** `dataSet` and `dataFill`: an object or array is changed in place, anything else makes way for a new root. */
  method DataSet(target: Cell, segments: seq<string>, value: Cell, overwrite: bool)
    returns (root: Cell, ok: bool)
    requires Whole(target) && Whole(value) && Footprint(value) !! Footprint(target) && "*" !in segments
    modifies Footprint(target)
    ensures target.Ref? || segments == [] ==> root == target
    ensures Whole(root) && Whole(value) && Shown(value) == old(Shown(value))
    ensures Shown(root) ==
      if segments == [] then old(Shown(target))
      else SetAt(Below(Some(old(Shown(target))), segments[0]), segments, Shown(value), overwrite)
    ensures ok <==>
      segments == [] || !Throws(Below(Some(old(Shown(target))), segments[0]), segments, Shown(value))
  {
    root, ok := target, true;
    if segments != [] {
      if target.Scalar? {
        var box := new Box(IsIndex(segments[0]));
        root := Ref(box);
      }
      ok := root.box.SetAt(segments, value, overwrite);
    }
  }
}
