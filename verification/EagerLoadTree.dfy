/** Eager-load requests parsed into a tree of nodes that is merged in place, and its deep copies. */
module EagerLoadTree {
  import opened Text

  /** A path's node: absent, or present with the constraint it carries, if any; constraints are told apart by number. */
  type Slot = Option<Option<int>>

  /** How a node is reached from the one above: as a relation, or as the tree a `morphTo` holds for a discriminant. */
  datatype Link = Child(name: string) | Branch(discriminant: string)

  /** A dotted path's links. */
  function Path(dotted: string): (path: seq<Link>)
    ensures |path| == |Split(dotted, '.')| && forall i :: 0 <= i < |path| ==> path[i] == Child(Split(dotted, '.')[i])
  {
    var segments := Split(dotted, '.');
    seq(|segments|, i requires 0 <= i < |segments| => Child(segments[i]))
  }

  const EMPTY := Child("")

  /** `q` leads to the end of `path` or part of the way, through no empty segment. */
  predicate Leads(q: seq<Link>, path: seq<Link>) {
    q <= path && EMPTY !in q
  }

  /**
   * What merging one path makes of the node at `q`: prefixes are there afterwards, and the end takes the
   * constraint.
   */
  function Merged(before: Slot, q: seq<Link>, path: seq<Link>, constrain: Option<int>): Slot {
    if !Leads(q, path) then before
    else if q == path && constrain.Some? then Some(constrain)
    else if before.Some? then before
    else Some(None)
  }

  class Node {
    const name: string
    var constrain: Option<int>
    /** `children` and `morphWith`. */
    var links: map<Link, Node>
    ghost var Repr: set<Node>

    constructor (name: string)
      ensures Valid() && Repr == {this} && this.name == name && constrain == None && links == map[]
    {
      this.name, constrain, links := name, None, map[];
      Repr := {this};
    }

    ghost predicate Valid()
      reads this, Repr
      decreases Repr
    {
      && this in Repr
      && (forall k <- links :: Owned(k) && links[k].Valid())
      && forall j, k :: j in links && k in links && j != k ==> links[j].Repr !! links[k].Repr
    }

    /** The node linked and all below it belong to this node, and the node is not among them. */
    ghost predicate Owned(k: Link)
      requires k in links
      reads this, Repr
    {
      links[k] in Repr && links[k].Repr <= Repr && this !in links[k].Repr && (k.Child? ==> links[k].name == k.name)
    }

    /** The node at the end of a path from here. */
    ghost function At(q: seq<Link>): Slot
      requires Valid()
      reads this, Repr
      decreases |q|
    {
      if q == [] then Some(constrain)
      else if q[0] in links then links[q[0]].At(q[1..])
      else None
    }

    /** Adds a child under a name that is free. */
    method AddChild(k: Link)
      requires Valid() && k !in links
      modifies this
      ensures Valid() && fresh(Repr - old(Repr)) && old(Repr) <= Repr && k in links
      ensures forall q :: At(q) == if q == [k] then Some(None) else old(At(q))
    {
      var node := new Node(if k.Child? then k.name else "");
      links := links[k := node];
      Repr := Repr + {node};
      forall q ensures At(q) == if q == [k] then Some(None) else old(At(q)) {
        if q != [] && q[0] == k {
          assert q[1..] == [] <==> q == [k];
        }
      }
    }

    /** Merges the rest of a path into one child. */
    method MergeChild(k: Link, rest: seq<Link>, c: Option<int>) returns (ok: bool)
      requires Valid() && k in links
      modifies Repr
      ensures Valid() && fresh(Repr - old(Repr)) && old(Repr) <= Repr
      ensures ok <==> EMPTY !in rest
      ensures forall q :: At(q) == if q != [] && q[0] == k then Merged(old(At(q)), q[1..], rest, c) else old(At(q))
      decreases |rest|, 1
    {
      var child := links[k];
      assert Owned(k);
      ok := child.Merge(rest, c);
      Repr := Repr + child.Repr;
      assert forall j <- links :: j != k ==> links[j].Valid() && old(Owned(j));
    }

    /** `mergePath`, segment by segment; false where it throws for an empty one. */
    method Merge(path: seq<Link>, c: Option<int>) returns (ok: bool)
      requires Valid()
      modifies Repr
      ensures Valid() && fresh(Repr - old(Repr)) && old(Repr) <= Repr
      ensures ok <==> EMPTY !in path
      ensures forall q :: At(q) == Merged(old(At(q)), q, path, c)
      decreases |path|, 0
    {
      if path == [] {
        if c.Some? {
          constrain := c;
        }
        return true;
      }
      if path[0] == EMPTY {
        return false;
      }
      if path[0] !in links {
        AddChild(path[0]);
      }
      ok := MergeChild(path[0], path[1..], c);
    }

    /** The copy is this node with the links in `rest` still missing. */
    ghost predicate CopiedBut(copy: Node, rest: set<Link>)
      reads this, Repr, copy, copy.Repr
    {
      && Valid() && copy.Valid() && copy.Repr !! Repr
      && rest <= links.Keys && copy.links.Keys == links.Keys - rest
      && forall q :: copy.At(q) == if q != [] && q[0] in rest then None else At(q)
    }

    /** `cloneNode`, and `cloneTree` at the root: nothing of the copy is shared with the original. */
    method Clone() returns (copy: Node)
      requires Valid()
      ensures copy.Valid() && fresh(copy.Repr) && copy.name == name
      ensures forall q :: copy.At(q) == At(q)
      decreases Repr, 1
    {
      copy := new Node(name);
      copy.constrain := constrain;
      var rest := links.Keys;
      while rest != {}
        invariant fresh(copy.Repr) && CopiedBut(copy, rest)
        decreases rest
      {
        var k :| k in rest;
        CloneChild(copy, k, rest);
        rest := rest - {k};
      }
    }

    /** Puts a copy of one child into the copy of this node. */
    method CloneChild(copy: Node, k: Link, ghost rest: set<Link>)
      requires k in rest && CopiedBut(copy, rest)
      modifies copy
      ensures CopiedBut(copy, rest - {k}) && fresh(copy.Repr - old(copy.Repr))
      decreases Repr, 0
    {
      assert Owned(k);
      var child := links[k].Clone();
      copy.Adopt(k, child);
    }

    /** Takes a whole new subtree as a child. */
    method Adopt(k: Link, child: Node)
      requires Valid() && k !in links && child.Valid() && (k.Child? ==> child.name == k.name) && child.Repr !! Repr
      modifies this
      ensures Valid() && Repr == old(Repr) + child.Repr
      ensures links == old(links)[k := child]
      ensures forall q :: At(q) == if q != [] && q[0] == k then child.At(q[1..]) else old(At(q))
    {
      assert forall j <- links :: Owned(j);
      links := links[k := child];
      Repr := Repr + child.Repr;
      assert forall j <- links :: j != k ==> old(Owned(j));
    }
  }

  // ------------------------------------------------------------------ requests

  /** A path and the constraint given with it. */
  type Request = (string, Option<int>)

  function MergedAll(before: Slot, q: seq<Link>, requests: seq<Request>): Slot {
    if requests == [] then before
    else
      var last := requests[|requests| - 1];
      Merged(MergedAll(before, q, requests[..|requests| - 1]), q, Path(last.0), last.1)
  }

  predicate WellFormed(requests: seq<Request>) { forall r <- requests :: EMPTY !in Path(r.0) }

  /** `parseEagerLoad` into a tree; stops where `mergePath` throws. */
  method Parse(root: Node, requests: seq<Request>) returns (ok: bool, ghost merged: nat)
    requires root.Valid()
    modifies root.Repr
    ensures root.Valid() && fresh(root.Repr - old(root.Repr)) && merged <= |requests|
    ensures ok <==> WellFormed(requests)
    ensures ok ==> merged == |requests|
    ensures forall q :: root.At(q) == MergedAll(old(root.At(q)), q, requests[..merged])
  {
    for i := 0 to |requests|
      invariant root.Valid() && fresh(root.Repr - old(root.Repr)) && WellFormed(requests[..i])
      invariant forall q :: root.At(q) == MergedAll(old(root.At(q)), q, requests[..i])
    {
      assert requests[..i + 1][..i] == requests[..i];
      ok := root.Merge(Path(requests[i].0), requests[i].1);
      if !ok {
        assert requests[i] in requests;
        return false, i + 1;
      }
    }
    assert requests[..|requests|] == requests;
    return true, |requests|;
  }

  /** What `morphWith` makes of the node at `q`, for requests given with the discriminant `t`. */
  function Branched(before: Slot, q: seq<Link>, t: string, requests: seq<Request>): Slot {
    if q == [] || q[0] != Branch(t) then before
    else MergedAll(if before.None? && q == [Branch(t)] then Some(None) else before, q[1..], requests)
  }

  /**
   * `morphWith` for one discriminant: the tree it has takes the requests in place; a new tree is there only once
   * all of them are parsed.
   */
  method MorphWith(node: Node, t: string, requests: seq<Request>) returns (ok: bool, ghost merged: nat)
    requires node.Valid()
    modifies node.Repr
    ensures node.Valid() && fresh(node.Repr - old(node.Repr)) && merged <= |requests|
    ensures (ok <==> WellFormed(requests)) && (ok ==> merged == |requests|)
    ensures
      var kept := !ok && old(node.At([Branch(t)])).None?;
      forall q :: node.At(q) == if kept then old(node.At(q)) else Branched(old(node.At(q)), q, t, requests[..merged])
  {
    if Branch(t) in node.links {
      ok, merged := ParseBelow(node, t, requests);
    } else {
      var tree := new Node("");
      ok, merged := Parse(tree, requests);
      if ok {
        node.Adopt(Branch(t), tree);
      }
    }
  }

  method ParseBelow(node: Node, t: string, requests: seq<Request>) returns (ok: bool, ghost merged: nat)
    requires node.Valid() && Branch(t) in node.links
    modifies node.Repr
    ensures node.Valid() && fresh(node.Repr - old(node.Repr)) && merged <= |requests|
    ensures (ok <==> WellFormed(requests)) && (ok ==> merged == |requests|)
    ensures forall q :: node.At(q) == Branched(old(node.At(q)), q, t, requests[..merged])
  {
    for i := 0 to |requests|
      invariant node.Valid() && fresh(node.Repr - old(node.Repr)) && WellFormed(requests[..i])
      invariant Branch(t) in node.links
      invariant forall q :: node.At(q) == Branched(old(node.At(q)), q, t, requests[..i])
    {
      assert requests[..i + 1][..i] == requests[..i];
      ok := node.MergeChild(Branch(t), Path(requests[i].0), requests[i].1);
      assert node.At([Branch(t)]).Some?;
      if !ok {
        assert requests[i] in requests;
        return false, i + 1;
      }
    }
    assert requests[..|requests|] == requests;
    return true, |requests|;
  }

  /** After parsing there is a node for every prefix of a requested path, and no other new one. */
  lemma {:induction false} NodesArePrefixes(before: Slot, q: seq<Link>, requests: seq<Request>)
    requires q != [] && EMPTY !in q
    ensures MergedAll(before, q, requests).Some? <==>
      before.Some? || exists i :: 0 <= i < |requests| && q <= Path(requests[i].0)
  {
    if requests != [] {
      var init := requests[..|requests| - 1];
      NodesArePrefixes(before, q, init);
      assert forall i :: 0 <= i < |init| ==> init[i] == requests[i];
    }
  }

  /** The constraint a list of requests leaves on a path: the last one given with it. */
  function LastConstraint(before: Option<int>, q: seq<Link>, requests: seq<Request>): Option<int> {
    if requests == [] then before
    else
      var last := requests[|requests| - 1];
      if Path(last.0) == q && last.1.Some? then last.1 else LastConstraint(before, q, requests[..|requests| - 1])
  }

  lemma {:induction false} LastConstraintWins(before: Slot, q: seq<Link>, requests: seq<Request>)
    requires q != [] && EMPTY !in q && MergedAll(before, q, requests).Some?
    ensures MergedAll(before, q, requests).value
         == LastConstraint(match before case Some(c) => c case None => None, q, requests)
  {
    if requests != [] {
      var init := requests[..|requests| - 1];
      if MergedAll(before, q, init).Some? {
        LastConstraintWins(before, q, init);
      } else {
        NeverAsked(before, q, init);
      }
    }
  }

  lemma {:induction false} NeverAsked(before: Slot, q: seq<Link>, requests: seq<Request>)
    requires q != [] && EMPTY !in q && MergedAll(before, q, requests).None?
    ensures before.None? && LastConstraint(None, q, requests) == None
  {
    if requests != [] {
      NeverAsked(before, q, requests[..|requests| - 1]);
    }
  }

  /** Merging requests in two calls is merging them in one. */
  lemma {:induction false} MergedTogether(before: Slot, q: seq<Link>, first: seq<Request>, second: seq<Request>)
    ensures MergedAll(before, q, first + second) == MergedAll(MergedAll(before, q, first), q, second)
  {
    if second == [] {
      assert first + second == first;
    } else {
      MergedTogether(before, q, first, second[..|second| - 1]);
      assert (first + second)[..|first + second| - 1] == first + second[..|second| - 1];
    }
  }

  /** Whatever is merged into a copy, the original stays what it was. */
  method MergeIntoCopy(tree: Node, requests: seq<Request>) returns (copy: Node, ok: bool)
    requires tree.Valid()
    ensures tree.Valid() && forall q :: tree.At(q) == old(tree.At(q))
    ensures fresh(copy) && copy.Valid() && (ok <==> WellFormed(requests))
    ensures ok ==> forall q :: copy.At(q) == MergedAll(tree.At(q), q, requests)
  {
    copy := tree.Clone();
    ghost var merged;
    ok, merged := Parse(copy, requests);
    assert requests[..|requests|] == requests;
  }
}
