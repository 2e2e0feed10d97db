/**
 * The search tree of hev-mapped-dns.c over heap nodes. Only its ordered-set behaviour is modelled:
 * a node is linked at the leaf the descent ends in and unlinked on eviction, without colours.
 */
module DnsTree {
  import opened Bytes
  import opened HevList

  type Name = seq<Byte>

  /** C's strcmp on NUL-terminated unsigned bytes. */
  function StrCmp(a: Name, b: Name): int {
    if a == [] && b == [] then 0
    else if a == [] then -1
    else if b == [] then 1
    else if a[0] != b[0] then (var x: int, y: int := a[0], b[0]; x - y)
    else StrCmp(a[1..], b[1..])
  }

  lemma {:induction false} StrCmpEqual(a: Name, b: Name)
    ensures StrCmp(a, b) == 0 <==> a == b
  {
    if a != [] && b != [] && a[0] == b[0] {
      StrCmpEqual(a[1..], b[1..]);
      assert a == [a[0]] + a[1..] && b == [b[0]] + b[1..];
    }
  }

  lemma {:induction false} StrCmpFlip(a: Name, b: Name)
    ensures StrCmp(a, b) < 0 <==> StrCmp(b, a) > 0
  {
    if a != [] && b != [] && a[0] == b[0] {
      StrCmpFlip(a[1..], b[1..]);
    }
  }

  lemma {:induction false} StrCmpTransitive(a: Name, b: Name, c: Name)
    requires StrCmp(a, b) < 0 && StrCmp(b, c) < 0
    ensures StrCmp(a, c) < 0
  {
    if a != [] && b != [] && c != [] && a[0] == b[0] == c[0] {
      StrCmpTransitive(a[1..], b[1..], c[1..]);
    }
  }

  /** A cache node: tree links, list link, name and index. */
  class DnsNode {
    var left: DnsNode?
    var right: DnsNode?
    var link: Link?<DnsNode>
    const name: Name
    var idx: nat

    constructor (name: Name)
      ensures left == null && right == null && idx == 0 && this.name == name
      ensures fresh(link) && link != null && link.item == this
    {
      left, right := null, null;
      this.name := name;
      idx := 0;
      new;
      link := new Link<DnsNode>(this);
    }
  }

  /** The shape of the tree that left and right links spell out. */
  datatype Shape = Leaf | Branch(left: Shape, node: DnsNode, right: Shape)

  function Root(t: Shape): DnsNode? {
    if t.Leaf? then null else t.node
  }

  ghost function Nodes(t: Shape): set<DnsNode> {
    if t.Leaf? then {} else Nodes(t.left) + {t.node} + Nodes(t.right)
  }

  /** The source sends the descent left when strcmp(node, name) < 0: greater names sit left. */
  ghost predicate Sorted(t: Shape) {
    t.Branch? ==>
      && Sorted(t.left) && Sorted(t.right)
      && AllAfter(Nodes(t.left), t.node.name) && AllBefore(Nodes(t.right), t.node.name)
  }

  ghost predicate AllAfter(s: set<DnsNode>, name: Name) {
    forall n :: n in s ==> StrCmp(name, n.name) < 0
  }

  ghost predicate AllBefore(s: set<DnsNode>, name: Name) {
    forall n :: n in s ==> StrCmp(name, n.name) > 0
  }

  /** The child of n in the shape t. */
  ghost function Child(t: Shape, n: DnsNode, onLeft: bool): DnsNode?
    requires n in Nodes(t)
  {
    if t.node == n then Root(if onLeft then t.left else t.right)
    else if n in Nodes(t.left) then Child(t.left, n, onLeft)
    else Child(t.right, n, onLeft)
  }

  ghost predicate Linked(t: Shape)
    reads Nodes(t)
  {
    forall n :: n in Nodes(t) ==> n.left == Child(t, n, true) && n.right == Child(t, n, false)
  }

  lemma Disjoint(t: Shape)
    requires t.Branch? && Sorted(t)
    ensures t.node !in Nodes(t.left) && t.node !in Nodes(t.right) && Nodes(t.left) !! Nodes(t.right)
  {
    StrCmpEqual(t.node.name, t.node.name);
  }

  /** A sorted tree is linked exactly when its root and both subtrees are. */
  lemma LinkedParts(t: Shape)
    requires t.Branch? && Sorted(t)
    ensures Linked(t) <==>
            && t.node.left == Root(t.left) && t.node.right == Root(t.right)
            && Linked(t.left) && Linked(t.right)
  {
    Disjoint(t);
    if Linked(t) {
      forall n | n in Nodes(t.left) ensures n.left == Child(t.left, n, true) && n.right == Child(t.left, n, false) {
        assert n in Nodes(t);
      }
      forall n | n in Nodes(t.right) ensures n.left == Child(t.right, n, true) && n.right == Child(t.right, n, false) {
        assert n in Nodes(t);
      }
      assert t.node in Nodes(t);
    }
  }

  ghost predicate HasName(t: Shape, name: Name) {
    exists n :: n in Nodes(t) && n.name == name
  }

  /** One step of the descent for name at t's root. */
  lemma DescendStep(t: Shape, name: Name)
    requires t.Branch? && Sorted(t)
    ensures StrCmp(t.node.name, name) < 0 ==> (HasName(t, name) <==> HasName(t.left, name))
    ensures StrCmp(t.node.name, name) > 0 ==> (HasName(t, name) <==> HasName(t.right, name))
    ensures StrCmp(t.node.name, name) == 0 <==> t.node.name == name
  {
    StrCmpEqual(t.node.name, name);
  }

  lemma {:induction false} NamesDiffer(t: Shape, a: DnsNode, b: DnsNode)
    requires Sorted(t) && a in Nodes(t) && b in Nodes(t) && a.name == b.name
    ensures a == b
  {
    StrCmpEqual(a.name, a.name);
    if a in Nodes(t.left) {
      NamesDiffer(t.left, a, b);
    } else if a in Nodes(t.right) {
      NamesDiffer(t.right, a, b);
    }
  }

  /** The last node met by the descent, starting below p. */
  function SearchParent(t: Shape, name: Name, p: DnsNode?): DnsNode? {
    if t.Leaf? then p
    else if StrCmp(t.node.name, name) < 0 then SearchParent(t.left, name, t.node)
    else SearchParent(t.right, name, t.node)
  }

  function Insert(t: Shape, n: DnsNode): Shape {
    if t.Leaf? then Branch(Leaf, n, Leaf)
    else if StrCmp(t.node.name, n.name) < 0 then t.(left := Insert(t.left, n))
    else t.(right := Insert(t.right, n))
  }

  lemma {:induction false} InsertSorted(t: Shape, n: DnsNode)
    requires Sorted(t) && !HasName(t, n.name)
    ensures Sorted(Insert(t, n)) && Nodes(Insert(t, n)) == Nodes(t) + {n}
  {
    if t.Branch? {
      DescendStep(t, n.name);
      if StrCmp(t.node.name, n.name) < 0 {
        InsertSorted(t.left, n);
      } else {
        InsertSorted(t.right, n);
      }
    }
  }

  lemma SearchParentInside(t: Shape, name: Name, p: DnsNode?)
    requires t.Branch?
    ensures SearchParent(t, name, p) in Nodes(t)
  {
  }

  lemma ChildParts(t: Shape, n: DnsNode, onLeft: bool)
    requires t.Branch? && Sorted(t) && n in Nodes(t)
    ensures n in Nodes(t.left) ==> Child(t, n, onLeft) == Child(t.left, n, onLeft)
    ensures n in Nodes(t.right) ==> Child(t, n, onLeft) == Child(t.right, n, onLeft)
  {
    Disjoint(t);
  }

  lemma {:induction false} InsertLeaf(t: Shape, n: DnsNode, onLeft: bool)
    requires Sorted(t) && !HasName(t, n.name)
    ensures n in Nodes(Insert(t, n)) && Child(Insert(t, n), n, onLeft) == null
  {
    InsertSorted(t, n);
    if t.Branch? {
      DescendStep(t, n.name);
      var sub := if StrCmp(t.node.name, n.name) < 0 then t.left else t.right;
      InsertLeaf(sub, n, onLeft);
      ChildParts(Insert(t, n), n, onLeft);
    }
  }

  /** Insert changes one link: the empty one the descent for n ends in. */
  lemma {:induction false} InsertChild(t: Shape, n: DnsNode, m: DnsNode, onLeft: bool)
    requires t.Branch? && Sorted(t) && !HasName(t, n.name)
    requires m in Nodes(t)
    ensures var p := SearchParent(t, n.name, null);
            && m in Nodes(Insert(t, n))
            && Child(Insert(t, n), m, onLeft) ==
               if m == p && onLeft == (StrCmp(p.name, n.name) < 0) then n else Child(t, m, onLeft)
  {
    var goLeft := StrCmp(t.node.name, n.name) < 0;
    var sub := if goLeft then t.left else t.right;
    InsertSorted(t, n);
    Disjoint(t);
    DescendStep(t, n.name);
    if sub.Branch? {
      SearchParentInside(sub, n.name, null);
    }
    if m in Nodes(sub) {
      ChildParts(t, m, onLeft);
      InsertSorted(sub, n);
      ChildParts(Insert(t, n), m, onLeft);
      InsertChild(sub, n, m, onLeft);
    } else if m != t.node {
      ChildParts(t, m, onLeft);
      ChildParts(Insert(t, n), m, onLeft);
    }
  }

  /** The shape without its leftmost node. */
  function DropLeftmost(t: Shape): Shape
    requires t.Branch?
  {
    if t.left.Leaf? then t.right else t.(left := DropLeftmost(t.left))
  }

  function Leftmost(t: Shape): DnsNode
    requires t.Branch?
  {
    if t.left.Leaf? then t.node else Leftmost(t.left)
  }

  lemma {:induction false} LeftmostIs(t: Shape)
    requires t.Branch? && Sorted(t)
    ensures Sorted(DropLeftmost(t)) && Leftmost(t) in Nodes(t)
    ensures Nodes(DropLeftmost(t)) == Nodes(t) - {Leftmost(t)}
    ensures forall n :: n in Nodes(t) && n != Leftmost(t) ==> StrCmp(Leftmost(t).name, n.name) > 0
  {
    StrCmpEqual(t.node.name, t.node.name);
    if t.left.Branch? {
      var m := Leftmost(t.left);
      LeftmostIs(t.left);
      StrCmpFlip(t.node.name, m.name);
      forall n | n in Nodes(t.right) ensures StrCmp(m.name, n.name) > 0 {
        StrCmpFlip(n.name, t.node.name);
        StrCmpFlip(t.node.name, n.name);
        StrCmpFlip(n.name, m.name);
        StrCmpTransitive(n.name, t.node.name, m.name);
        StrCmpFlip(m.name, n.name);
      }
    }
  }

  function Erase(t: Shape, name: Name): Shape {
    if t.Leaf? then t
    else if StrCmp(t.node.name, name) < 0 then t.(left := Erase(t.left, name))
    else if StrCmp(t.node.name, name) > 0 then t.(right := Erase(t.right, name))
    else if t.right.Leaf? then t.left
    else Branch(t.left, Leftmost(t.right), DropLeftmost(t.right))
  }

  /** Replacing the root by the leftmost node of the right subtree keeps the order. */
  lemma PromoteSorted(t: Shape)
    requires t.Branch? && Sorted(t) && t.right.Branch?
    ensures Sorted(Branch(t.left, Leftmost(t.right), DropLeftmost(t.right)))
  {
    var m := Leftmost(t.right);
    LeftmostIs(t.right);
    forall l | l in Nodes(t.left) ensures StrCmp(m.name, l.name) < 0 {
      StrCmpFlip(m.name, t.node.name);
      StrCmpFlip(t.node.name, m.name);
      StrCmpTransitive(m.name, t.node.name, l.name);
    }
  }

  lemma Rebuilt(l: Shape, n: DnsNode, r: Shape, t: Shape)
    requires t.Branch? && Sorted(t) && n == t.node && Sorted(l) && Sorted(r)
    requires Nodes(l) <= Nodes(t.left) && Nodes(r) <= Nodes(t.right)
    ensures Sorted(Branch(l, n, r))
  {
  }

  lemma {:induction false} EraseSorted(t: Shape, n: DnsNode)
    requires Sorted(t) && n in Nodes(t)
    ensures Sorted(Erase(t, n.name)) && Nodes(Erase(t, n.name)) == Nodes(t) - {n}
  {
    Disjoint(t);
    StrCmpEqual(t.node.name, n.name);
    if StrCmp(t.node.name, n.name) < 0 {
      assert n in Nodes(t.left);
      EraseSorted(t.left, n);
      Rebuilt(Erase(t.left, n.name), t.node, t.right, t);
    } else if StrCmp(t.node.name, n.name) > 0 {
      assert n in Nodes(t.right);
      EraseSorted(t.right, n);
      Rebuilt(t.left, t.node, Erase(t.right, n.name), t);
    } else {
      EraseRoot(t, n);
    }
  }

  lemma EraseRoot(t: Shape, n: DnsNode)
    requires t.Branch? && Sorted(t) && n in Nodes(t) && t.node.name == n.name
    ensures n == t.node
    ensures Sorted(Erase(t, n.name)) && Nodes(Erase(t, n.name)) == Nodes(t) - {n}
  {
    Disjoint(t);
    StrCmpEqual(n.name, n.name);
    if t.right.Branch? {
      LeftmostIs(t.right);
      PromoteSorted(t);
    }
  }

  /** Unlinks the leftmost node of the tree at r. */
  method UnlinkLeftmost(r: DnsNode, ghost t: Shape, ghost own: set<DnsNode>) returns (m: DnsNode, rest: DnsNode?)
    requires t.Branch? && r == t.node && Linked(t) && Sorted(t) && Nodes(t) <= own
    modifies Nodes(t)`left
    ensures m == Leftmost(t) && rest == Root(DropLeftmost(t)) && Linked(DropLeftmost(t))
    decreases t
  {
    LeftmostIs(t);
    LinkedParts(t);
    if r.left == null {
      m, rest := r, r.right;
    } else {
      LeftmostIs(t.left);
      Disjoint(t);
      var l;
      m, l := UnlinkLeftmost(r.left, t.left, own);
      r.left := l;
      rest := r;
      LinkedParts(DropLeftmost(t));
    }
  }

  /** Unlinks the root r itself. */
  method UnlinkRoot(r: DnsNode, ghost t: Shape, ghost own: set<DnsNode>) returns (root: DnsNode?)
    requires t.Branch? && r == t.node && Linked(t) && Sorted(t) && Nodes(t) <= own
    modifies Nodes(t)`left, Nodes(t)`right
    ensures root == Root(Erase(t, r.name)) && Linked(Erase(t, r.name))
  {
    LinkedParts(t);
    StrCmpEqual(r.name, r.name);
    if r.right == null {
      root := r.left;
    } else {
      Disjoint(t);
      LeftmostIs(t.right);
      PromoteSorted(t);
      var m, rest := UnlinkLeftmost(r.right, t.right, own);
      m.left, m.right := r.left, rest;
      root := m;
      LinkedParts(Erase(t, r.name));
    }
  }

  /** Stands for the library's erase: unlinks e from the tree at r and returns the new root. */
  method Unlink(r: DnsNode, ghost t: Shape, e: DnsNode, ghost own: set<DnsNode>) returns (root: DnsNode?)
    requires t.Branch? && r == t.node && Linked(t) && Sorted(t) && e in Nodes(t) && Nodes(t) <= own
    modifies Nodes(t)`left, Nodes(t)`right
    ensures root == Root(Erase(t, e.name)) && Linked(Erase(t, e.name))
    decreases t
  {
    var cmp := StrCmp(r.name, e.name);
    if cmp == 0 {
      EraseRoot(t, e);
      root := UnlinkRoot(r, t, own);
      return;
    }
    root := r;
    LinkedParts(t);
    Disjoint(t);
    EraseSorted(t, e);
    StrCmpEqual(r.name, r.name);
    if cmp < 0 {
      var l := Unlink(r.left, t.left, e, own);
      r.left := l;
    } else {
      var x := Unlink(r.right, t.right, e, own);
      r.right := x;
    }
    LinkedParts(Erase(t, e.name));
  }

  class Tree {
    var root: DnsNode?
    ghost var shape: Shape
    ghost var nodes: set<DnsNode>

    ghost predicate Valid()
      reads this, nodes
    {
      nodes == Nodes(shape) && Sorted(shape) && Linked(shape) && root == Root(shape)
    }

    constructor ()
      ensures Valid() && nodes == {}
    {
      root, shape, nodes := null, Leaf, {};
    }

    /** The descent: the node called name, or the parent its link belongs under. */
    method Search(name: Name) returns (hit: DnsNode?, parent: DnsNode?)
      requires Valid()
      ensures hit != null ==> hit in nodes && hit.name == name
      ensures hit == null ==> !HasName(shape, name) && parent == SearchParent(shape, name, null)
    {
      var cur := root;
      ghost var sub := shape;
      hit, parent := null, null;
      while cur != null
        invariant cur == Root(sub) && Sorted(sub) && Linked(sub) && Nodes(sub) <= nodes
        invariant HasName(shape, name) <==> HasName(sub, name)
        invariant SearchParent(shape, name, null) == SearchParent(sub, name, parent)
        decreases sub
      {
        DescendStep(sub, name);
        LinkedParts(sub);
        var res := StrCmp(cur.name, name);
        parent := cur;
        if res < 0 {
          cur, sub := cur.left, sub.left;
        } else if res > 0 {
          cur, sub := cur.right, sub.right;
        } else {
          hit := cur;
          return;
        }
      }
    }

    method LinkUnder(n: DnsNode, parent: DnsNode?)
      requires Valid() && n !in nodes && !HasName(shape, n.name)
      requires n.left == null && n.right == null
      requires parent == SearchParent(shape, n.name, null)
      modifies this, nodes`left, nodes`right
      ensures Valid() && nodes == old(nodes) + {n}
    {
      InsertSorted(shape, n);
      InsertLeaf(shape, n, true);
      InsertLeaf(shape, n, false);
      if parent == null {
        assert shape.Leaf? by { if shape.Branch? { SearchParentInside(shape, n.name, null); } }
        root := n;
      } else {
        SearchParentInside(shape, n.name, null);
        forall m | m in nodes
          ensures Child(Insert(shape, n), m, true) ==
                  if m == parent && StrCmp(parent.name, n.name) < 0 then n else m.left
          ensures Child(Insert(shape, n), m, false) ==
                  if m == parent && StrCmp(parent.name, n.name) >= 0 then n else m.right
        {
          InsertChild(shape, n, m, true);
          InsertChild(shape, n, m, false);
        }
        if StrCmp(parent.name, n.name) < 0 {
          parent.left := n;
        } else {
          parent.right := n;
        }
      }
      shape, nodes := Insert(shape, n), nodes + {n};
    }

    method Remove(e: DnsNode)
      requires Valid() && e in nodes
      modifies this, nodes`left, nodes`right
      ensures Valid() && nodes == old(nodes) - {e}
    {
      EraseSorted(shape, e);
      root := Unlink(root, shape, e, nodes);
      shape, nodes := Erase(shape, e.name), nodes - {e};
    }
  }
}
