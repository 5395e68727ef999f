/** The binary search tree of shared list elements (a5/tree.c). */
module SharedTree {
  import opened SharedList

  // ---------------------------------------------------------------- strcmp, and the in-order sequence

  /** strcmp(a, b) <= 0. */
  predicate Leq(a: string, b: string)
  {
    a == [] || (b != [] && (a[0] < b[0] || (a[0] == b[0] && Leq(a[1..], b[1..]))))
  }

  /** The order of strcmp in characters: a is a prefix of b, or the first difference has the lesser character in a. */
  ghost predicate AtMost(a: string, b: string)
  {
    IsPrefix(a, b) || exists k :: LessAt(a, b, k)
  }

  ghost predicate IsPrefix(a: string, b: string)
  {
    |a| <= |b| && forall i :: 0 <= i < |a| ==> a[i] == b[i]
  }

  /** The strings differ first at k, where a has the lesser character. */
  ghost predicate LessAt(a: string, b: string, k: nat)
  {
    k < |a| && k < |b| && (forall i :: 0 <= i < k ==> a[i] == b[i]) && a[k] < b[k]
  }

  lemma {:induction false} LeqIsStrcmp(a: string, b: string)
    ensures Leq(a, b) <==> AtMost(a, b)
  {
    if a != [] && b != [] && a[0] == b[0] {
      LeqIsStrcmp(a[1..], b[1..]);
      AtMostRest(a, b);
    } else if a != [] && b != [] {
      assert a[0] < b[0] ==> LessAt(a, b, 0);
    }
  }

  lemma AtMostRest(a: string, b: string)
    requires a != [] && b != [] && a[0] == b[0]
    ensures AtMost(a, b) <==> AtMost(a[1..], b[1..])
  {
    if IsPrefix(a[1..], b[1..]) {
      forall i | 0 <= i < |a| ensures a[i] == b[i] {
        assert i > 0 ==> a[i] == a[1..][i - 1] && b[i] == b[1..][i - 1];
      }
    }
    if k: nat :| LessAt(a[1..], b[1..], k) {
      LessRest(a, b, k);
    }
    if k: nat :| LessAt(a, b, k) {
      LessRest(a, b, k - 1);
    }
  }

  lemma LessRest(a: string, b: string, k: nat)
    requires a != [] && b != [] && a[0] == b[0]
    ensures LessAt(a[1..], b[1..], k) <==> LessAt(a, b, k + 1)
  {
    if LessAt(a[1..], b[1..], k) {
      forall i | 0 <= i < k + 1 ensures a[i] == b[i] {
        assert i > 0 ==> a[i] == a[1..][i - 1] && b[i] == b[1..][i - 1];
      }
    }
  }

  lemma {:induction false} LeqTotal(a: string, b: string)
    ensures Leq(a, b) || Leq(b, a)
  {
    if a != [] && b != [] && a[0] == b[0] {
      LeqTotal(a[1..], b[1..]);
    }
  }

  lemma {:induction false} LeqTransitive(a: string, b: string, c: string)
    requires Leq(a, b) && Leq(b, c)
    ensures Leq(a, c)
  {
    if a != [] && a[0] == b[0] && b[0] == c[0] {
      LeqTransitive(a[1..], b[1..], c[1..]);
    }
  }

  lemma {:induction false} LeqAntisymmetric(a: string, b: string)
    requires Leq(a, b) && Leq(b, a)
    ensures a == b
  {
    if a != [] {
      LeqAntisymmetric(a[1..], b[1..]);
    }
  }

  /** Before the first element that is not less than v. */
  function Place(s: seq<Element>, v: string): (k: nat)
    ensures k <= |s|
    ensures k < |s| ==> Leq(v, s[k].value)
    ensures forall i :: 0 <= i < k ==> !Leq(v, s[i].value)
  {
    if s == [] || Leq(v, s[0].value) then 0 else 1 + Place(s[1..], v)
  }

  function Inserted(s: seq<Element>, e: Element): seq<Element>
  {
    var k := Place(s, e.value);
    s[..k] + [e] + s[k..]
  }

  lemma InsertedEmpty(e: Element)
    ensures Inserted([], e) == [e]
  {
  }

  ghost predicate Sorted(s: seq<Element>)
  {
    forall i, j :: 0 <= i <= j < |s| ==> Leq(s[i].value, s[j].value)
  }

  /** In characters. */
  ghost predicate Ascending(s: seq<Element>)
  {
    forall i, j :: 0 <= i <= j < |s| ==> AtMost(s[i].value, s[j].value)
  }

  lemma SortedAscends(s: seq<Element>)
    ensures Sorted(s) <==> Ascending(s)
  {
    hide Leq, AtMost;
    forall i, j | 0 <= i <= j < |s| ensures Leq(s[i].value, s[j].value) <==> AtMost(s[i].value, s[j].value) {
      LeqIsStrcmp(s[i].value, s[j].value);
    }
  }

  /** r is s with e put before the first element that is not less than it in characters. */
  ghost predicate PlacedAt(s: seq<Element>, r: seq<Element>, e: Element, k: nat)
  {
    && k <= |s| && r == s[..k] + [e] + s[k..]
    && (k < |s| ==> AtMost(e.value, s[k].value))
    && forall i :: 0 <= i < k ==> !AtMost(e.value, s[i].value)
  }

  ghost predicate Placed(s: seq<Element>, r: seq<Element>, e: Element)
  {
    exists k :: PlacedAt(s, r, e, k)
  }

  lemma InsertedPlaced(s: seq<Element>, e: Element)
    ensures Placed(s, Inserted(s, e), e)
  {
    hide Leq, AtMost;
    var k := Place(s, e.value);
    hide Place;
    forall i | 0 <= i < |s| ensures Leq(e.value, s[i].value) <==> AtMost(e.value, s[i].value) {
      LeqIsStrcmp(e.value, s[i].value);
    }
    assert PlacedAt(s, Inserted(s, e), e, k);
  }

  /** The place is the only index with everything before it less and nothing after it less. */
  lemma PlaceUnique(s: seq<Element>, v: string, k: nat)
    requires Sorted(s) && k <= |s|
    requires k < |s| ==> Leq(v, s[k].value)
    requires forall i :: 0 <= i < k ==> !Leq(v, s[i].value)
    ensures Place(s, v) == k
  {
  }

  lemma InsertedSorted(s: seq<Element>, e: Element)
    requires Sorted(s)
    ensures Sorted(Inserted(s, e)) && Ascending(Inserted(s, e))
  {
    SortedAscends(Inserted(s, e));
    hide Leq, Ascending;
    var k := Place(s, e.value);
    var r := Inserted(s, e);
    hide Place;
    LeqTotal(e.value, e.value);
    forall i | 0 <= i <= k ensures Leq(r[i].value, e.value) {
      LeqTotal(r[i].value, e.value);
    }
    forall j | k < j < |r| ensures Leq(e.value, r[j].value) {
      LeqTransitive(e.value, s[k].value, s[j - 1].value);
    }
    forall i, j | 0 <= i <= j < |r| ensures Leq(r[i].value, r[j].value) {
      if i <= k <= j {
        LeqTransitive(r[i].value, e.value, r[j].value);
      }
    }
  }

  lemma InsertedPermutes(s: seq<Element>, e: Element)
    ensures multiset(Inserted(s, e)) == multiset(s) + multiset{e}
  {
    hide Place;
    assert s == s[..Place(s, e.value)] + s[Place(s, e.value)..];
  }

  /** An element above all of a goes into what follows a. */
  lemma {:induction false} PlaceAfter(a: seq<Element>, b: seq<Element>, v: string)
    requires forall i :: 0 <= i < |a| ==> !Leq(v, a[i].value)
    ensures Place(a + b, v) == |a| + Place(b, v)
  {
    hide Leq;
    if a == [] {
      assert a + b == b;
    } else {
      assert (a + b)[1..] == a[1..] + b && (a + b)[0] == a[0];
      PlaceAfter(a[1..], b, v);
    }
  }

  /** An element not above the first of b goes before b. */
  lemma {:induction false} PlaceBefore(a: seq<Element>, b: seq<Element>, v: string)
    requires b != [] && Leq(v, b[0].value)
    ensures Place(a + b, v) == Place(a, v)
  {
    hide Leq;
    if a == [] {
      assert a + b == b;
    } else {
      assert (a + b)[1..] == a[1..] + b && (a + b)[0] == a[0];
      PlaceBefore(a[1..], b, v);
    }
  }

  lemma Splice(a: seq<Element>, b: seq<Element>, e: Element, k: nat)
    requires k <= |a| + |b|
    ensures k <= |a| ==> (a + b)[..k] + [e] + (a + b)[k..] == (a[..k] + [e] + a[k..]) + b
    ensures k >= |a| ==> (a + b)[..k] + [e] + (a + b)[k..] == a + (b[..k - |a|] + [e] + b[k - |a|..])
  {
  }

  /** In a node's in-order sequence, an element not above the node's goes into its left part. */
  lemma InsertLeft(l: seq<Element>, x: Element, r: seq<Element>, e: Element)
    requires Sorted(l + [x] + r) && Leq(e.value, x.value)
    ensures Sorted(l) && Inserted(l + [x] + r, e) == Inserted(l, e) + [x] + r
  {
    hide Leq, Place;
    assert l + [x] + r == l + ([x] + r);
    PlaceBefore(l, [x] + r, e.value);
    Splice(l, [x] + r, e, Place(l, e.value));
    assert Inserted(l, e) + ([x] + r) == Inserted(l, e) + [x] + r;
    SortedParts(l, [x] + r);
  }

  lemma SortedParts(a: seq<Element>, b: seq<Element>)
    requires Sorted(a + b)
    ensures Sorted(a) && Sorted(b)
  {
    hide Leq;
    forall i, j | 0 <= i <= j < |a| ensures Leq(a[i].value, a[j].value) {
      assert (a + b)[i] == a[i] && (a + b)[j] == a[j];
    }
    forall i, j | 0 <= i <= j < |b| ensures Leq(b[i].value, b[j].value) {
      assert (a + b)[|a| + i] == b[i] && (a + b)[|a| + j] == b[j];
    }
  }

  /** An element above the node's goes into its right part. */
  lemma InsertRight(l: seq<Element>, x: Element, r: seq<Element>, e: Element)
    requires Sorted(l + [x] + r) && !Leq(e.value, x.value)
    ensures Sorted(r) && Inserted(l + [x] + r, e) == l + [x] + Inserted(r, e)
  {
    hide Leq, Place, Sorted;
    AboveLast(l, x, r, e.value);
    PlaceAfter(l + [x], r, e.value);
    Splice(l + [x], r, e, |l| + 1 + Place(r, e.value));
    SortedParts(l + [x], r);
  }

  /** A value above the last element of a sorted sequence is above them all. */
  lemma AboveLast(l: seq<Element>, x: Element, r: seq<Element>, v: string)
    requires Sorted(l + [x] + r) && !Leq(v, x.value)
    ensures forall i :: 0 <= i < |l + [x]| ==> !Leq(v, (l + [x])[i].value)
  {
    hide Leq;
    SortedParts(l + [x], r);
    forall i | 0 <= i < |l + [x]| ensures !Leq(v, (l + [x])[i].value) {
      assert (l + [x])[|l|] == x;
      NotBelow(v, (l + [x])[i].value, x.value);
    }
  }

  lemma NotBelow(v: string, a: string, b: string)
    requires !Leq(v, b) && Leq(a, b)
    ensures !Leq(v, a)
  {
    if Leq(v, a) {
      LeqTransitive(v, a, b);
    }
  }

  // ---------------------------------------------------------------- the heap

  class Node {
    const e: Element
    var left: Node?
    var right: Node?
    ghost var live: bool

    constructor (e: Element)
      ensures this.e == e && left == null && right == null && live
    {
      this.e := e;
      left, right, live := null, null, true;
    }

    method Free()
      requires live
      modifies this`live
      ensures !live
    {
      live := false;
    }
  }

  /** The tree below a slot, as a value. */
  datatype Shape = Leaf | Fork(l: Shape, n: Node, r: Shape)

  ghost function Nodes(t: Shape): set<Node>
  {
    match t
    case Leaf => {}
    case Fork(l, n, r) => Nodes(l) + {n} + Nodes(r)
  }

  /** The elements in order. */
  ghost function Elems(t: Shape): seq<Element>
  {
    match t
    case Leaf => []
    case Fork(l, n, r) => Elems(l) + [n.e] + Elems(r)
  }

  /** How many nodes hold x. */
  ghost function Holders(t: Shape, x: Element): nat
  {
    match t
    case Leaf => 0
    case Fork(l, n, r) => Holders(l, x) + (if n.e == x then 1 else 0) + Holders(r, x)
  }

  ghost function ElemSet(t: Shape): set<Element>
  {
    match t
    case Leaf => {}
    case Fork(l, n, r) => ElemSet(l) + {n.e} + ElemSet(r)
  }

  lemma {:induction false} HoldersCount(t: Shape, x: Element)
    ensures Holders(t, x) == multiset(Elems(t))[x]
    ensures Holders(t, x) > 0 <==> x in ElemSet(t)
  {
    if t.Fork? {
      HoldersCount(t.l, x);
      HoldersCount(t.r, x);
    }
  }

  lemma HoldersInserted(t: Shape, t': Shape, e: Element, x: Element)
    requires Elems(t') == Inserted(Elems(t), e)
    ensures Holders(t', x) == Holders(t, x) + if x == e then 1 else 0
  {
    hide Inserted;
    HoldersCount(t, x);
    HoldersCount(t', x);
    InsertedPermutes(Elems(t), e);
  }

  ghost predicate Distinct(t: Shape)
  {
    match t
    case Leaf => true
    case Fork(l, n, r) => Distinct(l) && Distinct(r) && n !in Nodes(l) && n !in Nodes(r) && Nodes(l) !! Nodes(r)
  }

  /** The slot points to a tree of shape t, all of it live. */
  ghost predicate Holds(slot: Node?, t: Shape)
    reads Nodes(t)
  {
    match t
    case Leaf => slot == null
    case Fork(l, n, r) => slot == n && n.live && Holds(n.left, l) && Holds(n.right, r)
  }

  /** Shape t with its left or right part replaced by one that has one more node. */
  predicate Grown(t: Shape, t': Shape, n: Node)
  {
    t.Fork? && t'.Fork? && t.n == t'.n && (t.r == t'.r || t.l == t'.l)
  }

  lemma GrownShape(t: Shape, t': Shape, n: Node)
    requires Grown(t, t', n) && Distinct(t) && n !in Nodes(t)
    requires t.r == t'.r ==> Distinct(t'.l) && Nodes(t'.l) == Nodes(t.l) + {n} && ElemSet(t'.l) == ElemSet(t.l) + {n.e}
    requires t.r != t'.r ==> Distinct(t'.r) && Nodes(t'.r) == Nodes(t.r) + {n} && ElemSet(t'.r) == ElemSet(t.r) + {n.e}
    ensures Distinct(t') && Nodes(t') == Nodes(t) + {n} && ElemSet(t') == ElemSet(t) + {n.e}
  {
  }

  /** Where a node_t* can point: at the root of a tree, or at a child of a node. */
  datatype Slot = Root(tree: Tree) | Left(parent: Node) | Right(parent: Node)

  function Deref(slot: Slot): Node?
    reads RootOf(slot)`root, LeftOf(slot)`left, RightOf(slot)`right
  {
    match slot
    case Root(tree) => tree.root
    case Left(parent) => parent.left
    case Right(parent) => parent.right
  }

  // The object whose field a slot is, by the field.

  ghost function RootOf(slot: Slot): set<Tree> { if slot.Root? then {slot.tree} else {} }

  ghost function LeftOf(slot: Slot): set<Node> { if slot.Left? then {slot.parent} else {} }

  ghost function RightOf(slot: Slot): set<Node> { if slot.Right? then {slot.parent} else {} }

  /** The slot is in a live object, and that is not one of these nodes. */
  ghost predicate Outside(slot: Slot, nodes: set<Node>)
    reads RootOf(slot)`live, LeftOf(slot)`live, RightOf(slot)`live
  {
    match slot
    case Root(tree) => tree.live
    case Left(parent) => parent.live && parent !in nodes
    case Right(parent) => parent.live && parent !in nodes
  }

  /** *slot = n; */
  method Assign(slot: Slot, n: Node)
    requires Outside(slot, {n})
    modifies RootOf(slot)`root, LeftOf(slot)`left, RightOf(slot)`right
    ensures Deref(slot) == n
  {
    match slot
    case Root(tree) => tree.root := n;
    case Left(parent) => parent.left := n;
    case Right(parent) => parent.right := n;
  }

  /** Insertion below a slot, which is written when it is empty. */
  method InsertAt(slot: Slot, e: Element, ghost t: Shape, ghost nodes: set<Node>) returns (n: Node, ghost t': Shape)
    requires nodes == Nodes(t) && Holds(Deref(slot), t) && Distinct(t) && Sorted(Elems(t)) && e.live
    requires Outside(slot, nodes) && forall x :: x in ElemSet(t) ==> x.live
    modifies RootOf(slot)`root, LeftOf(slot)`left, RightOf(slot)`right, nodes`left, nodes`right, e`refCount
    ensures Holds(Deref(slot), t') && Distinct(t') && Elems(t') == Inserted(Elems(t), e)
    ensures fresh(n) && n.e == e && Nodes(t') == Nodes(t) + {n} && ElemSet(t') == ElemSet(t) + {e}
    ensures Placed(Elems(t), Elems(t'), e)
    ensures old(Deref(slot)) != null ==> Deref(slot) == old(Deref(slot))
    ensures e.refCount == old(e.refCount) + 1
    decreases t, 1
  {
    InsertedPlaced(Elems(t), e);
    InsertedEmpty(e);
    hide Leq, Place, Sorted, Placed, Inserted;
    var np := Deref(slot);
    if np != null {
      assert np.e.live && e.live;
      if Leq(e.value, np.e.value) {
        n, t' := InsertBelowLeft(np, e, t, nodes);
      } else {
        n, t' := InsertBelowRight(np, e, t, nodes);
      }
    } else {
      n := new Node(e);
      t' := Fork(Leaf, n, Leaf);
      Assign(slot, n);
      e.IncRef();
    }
  }

  /** The recursive call on the left child's slot. */
  method InsertBelowLeft(np: Node, e: Element, ghost t: Shape, ghost nodes: set<Node>)
    returns (n: Node, ghost t': Shape)
    requires nodes == Nodes(t) && Holds(np, t) && Distinct(t) && Sorted(Elems(t)) && e.live
    requires forall x :: x in ElemSet(t) ==> x.live
    requires Leq(e.value, np.e.value)
    modifies nodes`left, nodes`right, e`refCount
    ensures Holds(np, t') && Distinct(t') && Elems(t') == Inserted(Elems(t), e)
    ensures fresh(n) && n.e == e && Nodes(t') == Nodes(t) + {n} && ElemSet(t') == ElemSet(t) + {e}
    ensures e.refCount == old(e.refCount) + 1
    decreases t, 0
  {
    hide Leq, Place, Sorted, Inserted;
    InsertLeft(Elems(t.l), np.e, Elems(t.r), e);
    ghost var l;
    n, l := InsertAt(Left(np), e, t.l, Nodes(t.l));
    assert n !in nodes;
    t' := Fork(l, np, t.r);
    GrownShape(t, t', n);
  }

  /** The recursive call on the right child's slot. */
  method InsertBelowRight(np: Node, e: Element, ghost t: Shape, ghost nodes: set<Node>)
    returns (n: Node, ghost t': Shape)
    requires nodes == Nodes(t) && Holds(np, t) && Distinct(t) && Sorted(Elems(t)) && e.live
    requires forall x :: x in ElemSet(t) ==> x.live
    requires !Leq(e.value, np.e.value)
    modifies nodes`left, nodes`right, e`refCount
    ensures Holds(np, t') && Distinct(t') && Elems(t') == Inserted(Elems(t), e)
    ensures fresh(n) && n.e == e && Nodes(t') == Nodes(t) + {n} && ElemSet(t') == ElemSet(t) + {e}
    ensures e.refCount == old(e.refCount) + 1
    decreases t, 0
  {
    hide Leq, Place, Sorted, Inserted;
    InsertRight(Elems(t.l), np.e, Elems(t.r), e);
    ghost var r;
    n, r := InsertAt(Right(np), e, t.r, Nodes(t.r));
    assert n !in nodes;
    t' := Fork(t.l, np, r);
    GrownShape(t, t', n);
  }

  // ---------------------------------------------------------------- deletion

  /**
   * The reference counts of the elements in all cover what the tree holds, and exactly those with a reference are
   * live.
   */
  ghost predicate Covered(t: Shape, all: set<Element>)
    reads all`refCount, all`live
  {
    ElemSet(t) <= all && forall x :: x in all ==> x.refCount >= Holders(t, x) && (x.live <==> x.refCount > 0)
  }

  /** Frees every node, and drops the reference each node has on its element. */
  method DeleteBelow(n: Node?, ghost t: Shape, ghost nodes: set<Node>, ghost all: set<Element>)
    requires nodes == Nodes(t) && Holds(n, t) && Distinct(t) && Covered(t, all)
    modifies nodes`live, all`refCount, all`live
    ensures forall m :: m in nodes ==> !m.live
    ensures forall x :: x in all ==> x.refCount == old(x.refCount) - Holders(t, x) && (x.live <==> x.refCount > 0)
    decreases t
  {
    if n != null {
      DeleteBelow(n.left, t.l, nodes * Nodes(t.l), all);
      DeleteBelow(n.right, t.r, nodes * Nodes(t.r), all);
      DeleteNode(n, all);
    }
  }

  /** The node's reference, and the node itself. */
  method DeleteNode(n: Node, ghost all: set<Element>)
    requires n.live && n.e in all && n.e.live
    modifies n`live, n.e`refCount, n.e`live
    ensures !n.live && n.e.refCount == old(n.e.refCount) - 1 && (n.e.live <==> n.e.refCount != 0)
  {
    n.e.DecRef();
    n.Free();
  }

  // ---------------------------------------------------------------- printing

  function Values(s: seq<Element>): (v: seq<string>)
    ensures |v| == |s|
  {
    if s == [] then [] else [s[0].value] + Values(s[1..])
  }

  /** The part of s that starts at e. */
  function From(s: seq<Element>, e: Element): seq<Element>
    requires e in s
  {
    if s[0] == e then s else From(s[1..], e)
  }

  lemma {:induction false} FromIndex(s: seq<Element>, k: nat)
    requires k < |s| && forall i :: 0 <= i < k ==> s[i] != s[k]
    ensures From(s, s[k]) == s[k..]
  {
    if k > 0 {
      FromIndex(s[1..], k - 1);
    }
  }

  /** What is printed for e: the values from e to the end of the list, or its own when it is in no list. */
  function Line(s: seq<Element>, e: Element): seq<string>
  {
    if e in s then Values(From(s, e)) else [e.value]
  }

  function Lines(s: seq<Element>, es: seq<Element>): (r: seq<seq<string>>)
    ensures |r| == |es|
  {
    seq(|es|, i requires 0 <= i < |es| => Line(s, es[i]))
  }

  /** An element that may be printed: live, and the end of its own chain unless the list holds it. */
  ghost predicate Printable(x: Element, l: List)
    reads x`live, x`next, l`elems
  {
    x.live && (x in l.elems || x.next == null)
  }

  /** Following next from the first element of r visits r and ends, all of it live. */
  ghost predicate Chain(r: seq<Element>)
    reads r`live, r`next
  {
    forall i :: 0 <= i < |r| ==> r[i].live && r[i].next == NextOf(r, i)
  }

  lemma ChainFrom(l: List, first: Element) returns (r: seq<Element>)
    requires l.Valid() && Printable(first, l)
    ensures r != [] && r[0] == first && Chain(r) && Values(r) == Line(l.elems, first)
  {
    var s := l.elems;
    if first in s {
      var k := l.IndexOf(first);
      FromIndex(s, k);
      r := s[k..];
      forall i | 0 <= i < |r| ensures r[i].live && r[i].next == NextOf(r, i) {
        assert l.Linked(k + i);
      }
    } else {
      r := [first];
    }
  }

  /** The inner loop of the traversal. */
  method PrintLine(first: Element, ghost l: List) returns (line: seq<string>)
    requires l.Valid() && Printable(first, l)
    ensures line == Line(l.elems, first)
  {
    ghost var r := ChainFrom(l, first);
    line := [];
    var e: Element? := first;
    ghost var i := 0;
    while e != null
      invariant i <= |r| && e == (if i < |r| then r[i] else null)
      invariant line + Values(r[i..]) == Values(r)
      decreases |r| - i
    {
      assert r[i].live && r[i].next == NextOf(r, i) && r[i..][1..] == r[i + 1..];
      line := line + [e.value];
      e := e.next;
      i := i + 1;
    }
  }

  ghost predicate AllPrintable(all: set<Element>, l: List)
    reads all`live, all`next, l`elems
  {
    forall x :: x in all ==> Printable(x, l)
  }

  /** One line for each node, in order. */
  method PrintBelow(n: Node?, ghost t: Shape, ghost nodes: set<Node>, ghost held: set<Element>, ghost l: List)
    returns (lines: seq<seq<string>>)
    requires nodes == Nodes(t) && ElemSet(t) <= held && Holds(n, t) && l.Valid() && AllPrintable(held, l)
    ensures lines == Lines(l.elems, Elems(t))
    decreases t
  {
    lines := [];
    if n != null {
      assert n.live && n.e in held;
      var left := PrintBelow(n.left, t.l, nodes * Nodes(t.l), held, l);
      var line := PrintLine(n.e, l);
      var right := PrintBelow(n.right, t.r, nodes * Nodes(t.r), held, l);
      lines := left + [line] + right;
    }
  }

  // ---------------------------------------------------------------- the tree

  class Tree {
    var root: Node?
    ghost var shape: Shape
    ghost var nodes: set<Node>
    ghost var live: bool

    constructor ()
      ensures Valid() && live && shape == Leaf && nodes == {}
    {
      root, shape, nodes, live := null, Leaf, {}, true;
    }

    ghost predicate Valid()
      reads this, nodes
    {
      nodes == Nodes(shape) && Holds(root, shape) && Distinct(shape) && Sorted(Elems(shape))
    }

    method InsertNode(e: Element) returns (n: Node)
      requires Valid() && live && e.live && forall x :: x in ElemSet(shape) ==> x.live
      modifies this`root, this`shape, this`nodes, nodes`left, nodes`right, e`refCount
      ensures Valid() && Elems(shape) == Inserted(old(Elems(shape)), e)
      ensures Placed(old(Elems(shape)), Elems(shape), e) && Ascending(Elems(shape))
      ensures fresh(n) && n.e == e && nodes == old(nodes) + {n} && ElemSet(shape) == old(ElemSet(shape)) + {e}
      ensures e.refCount == old(e.refCount) + 1
    {
      InsertedSorted(Elems(shape), e);
      hide Inserted, Sorted, Placed, Ascending;
      ghost var grown;
      n, grown := InsertAt(Root(this), e, shape, nodes);
      shape := grown;
      nodes := nodes + {n};
    }

    method OrderedSuffixPrint(ghost held: set<Element>, ghost l: List) returns (lines: seq<seq<string>>)
      requires Valid() && live && l.Valid() && ElemSet(shape) <= held && AllPrintable(held, l)
      ensures lines == Lines(l.elems, Elems(shape))
    {
      lines := PrintBelow(root, shape, nodes, held, l);
    }

    method Delete(ghost all: set<Element>)
      requires Valid() && live && Covered(shape, all)
      modifies this`live, nodes`live, all`refCount, all`live
      ensures !live && forall m :: m in nodes ==> !m.live
      ensures forall x :: x in all ==> x.refCount == old(x.refCount) - Holders(shape, x) && (x.live <==> x.refCount > 0)
    {
      DeleteBelow(root, shape, nodes, all);
      live := false;
    }
  }
}
