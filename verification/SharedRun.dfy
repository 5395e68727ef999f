/** The program that shares list elements with a tree under an arbitrary selection (a5/p2.c). */
module SharedRun {
  import opened SharedList
  import opened SharedTree

  // ---------------------------------------------------------------- the order the tree puts the arguments in

  /** Before the first index in s whose argument is not less than v. */
  function PlaceOf(args: seq<string>, s: seq<nat>, v: string): (k: nat)
    requires forall i :: 0 <= i < |s| ==> s[i] < |args|
    ensures k <= |s|
    ensures k < |s| ==> Leq(v, args[s[k]])
    ensures forall i :: 0 <= i < k ==> !Leq(v, args[s[i]])
  {
    if s == [] || Leq(v, args[s[0]]) then 0 else 1 + PlaceOf(args, s[1..], v)
  }

  /** The indices of the selected ones of the first n arguments, in tree order. */
  function Order(args: seq<string>, selects: nat -> bool, n: nat): (s: seq<nat>)
    requires n <= |args|
    ensures forall i :: 0 <= i < |s| ==> s[i] < n
  {
    if n == 0 then [] else
      var s := Order(args, selects, n - 1);
      if selects(n - 1) then
        var k := PlaceOf(args, s, args[n - 1]);
        s[..k] + [n - 1] + s[k..]
      else s
  }

  /** Earlier in tree order: a smaller argument, or an equal one that came later on the command line. */
  predicate Before(args: seq<string>, i: nat, j: nat)
    requires i < |args| && j < |args|
  {
    Leq(args[i], args[j]) && (args[i] == args[j] ==> i > j)
  }

  ghost predicate Ordered(args: seq<string>, s: seq<nat>)
    requires forall i :: 0 <= i < |s| ==> s[i] < |args|
  {
    forall p, q :: 0 <= p < q < |s| ==> Before(args, s[p], s[q])
  }

  /** In characters: each argument at most the next, and of equal ones the later first. */
  ghost predicate Ascends(args: seq<string>, s: seq<nat>)
    requires forall i :: 0 <= i < |s| ==> s[i] < |args|
  {
    forall p, q :: 0 <= p < q < |s| ==> AtMost(args[s[p]], args[s[q]]) && (args[s[p]] == args[s[q]] ==> s[p] > s[q])
  }

  lemma OrderedAscends(args: seq<string>, s: seq<nat>)
    requires forall i :: 0 <= i < |s| ==> s[i] < |args|
    ensures Ordered(args, s) <==> Ascends(args, s)
  {
    hide Leq, AtMost;
    forall p, q | 0 <= p < q < |s| ensures Leq(args[s[p]], args[s[q]]) <==> AtMost(args[s[p]], args[s[q]]) {
      LeqIsStrcmp(args[s[p]], args[s[q]]);
    }
    assert forall p, q :: 0 <= p < q < |s| ==> (Before(args, s[p], s[q]) <==>
      AtMost(args[s[p]], args[s[q]]) && (args[s[p]] == args[s[q]] ==> s[p] > s[q]));
  }

  /** The tree's order, in characters, and what is in it. */
  lemma OrderIs(args: seq<string>, selects: nat -> bool)
    ensures Ascends(args, Order(args, selects, |args|))
    ensures forall i: nat :: i in Order(args, selects, |args|) <==> i < |args| && selects(i)
  {
    hide Order, Ordered, Ascends;
    OrderIsOrdered(args, selects, |args|);
    OrderedAscends(args, Order(args, selects, |args|));
    forall i: nat ensures i in Order(args, selects, |args|) <==> i < |args| && selects(i) {
      OrderSelects(args, selects, |args|, i);
    }
  }

  /** The order is sorted, with equal arguments in reverse. */
  lemma {:induction false} OrderIsOrdered(args: seq<string>, selects: nat -> bool, n: nat)
    requires n <= |args|
    ensures Ordered(args, Order(args, selects, n))
  {
    if n > 0 {
      var s := Order(args, selects, n - 1);
      OrderIsOrdered(args, selects, n - 1);
      if selects(n - 1) {
        InsertOrdered(args, s, n - 1, PlaceOf(args, s, args[n - 1]));
      }
    }
  }

  /** It holds each selected index and no other. */
  lemma {:induction false} OrderSelects(args: seq<string>, selects: nat -> bool, n: nat, i: nat)
    requires n <= |args|
    ensures i in Order(args, selects, n) <==> i < n && selects(i)
  {
    if n > 0 {
      var s := Order(args, selects, n - 1);
      OrderSelects(args, selects, n - 1, i);
      if selects(n - 1) {
        InsertedHas(s, PlaceOf(args, s, args[n - 1]), n - 1, i);
      }
    }
  }

  lemma InsertedHas(s: seq<nat>, k: nat, x: nat, i: nat)
    requires k <= |s|
    ensures i in s[..k] + [x] + s[k..] <==> i in s || i == x
  {
    assert s == s[..k] + s[k..];
  }

  /** Of two different arguments' indices one is before the other, and not the other way round. */
  lemma BeforeStrict(args: seq<string>, i: nat, j: nat)
    requires i < |args| && j < |args|
    ensures Before(args, i, j) && Before(args, j, i) ==> false
    ensures i != j ==> Before(args, i, j) || Before(args, j, i)
  {
    hide Leq;
    LeqTotal(args[i], args[j]);
    if Leq(args[i], args[j]) && Leq(args[j], args[i]) {
      LeqAntisymmetric(args[i], args[j]);
    }
  }

  /** Two orders of the same indices are the same. */
  lemma {:induction false} OneOrder(args: seq<string>, s: seq<nat>, r: seq<nat>)
    requires (forall i :: 0 <= i < |s| ==> s[i] < |args|) && (forall i :: 0 <= i < |r| ==> r[i] < |args|)
    requires Ordered(args, s) && Ordered(args, r) && forall i: nat :: i in s <==> i in r
    ensures s == r
  {
    hide Before;
    EmptyTogether(s, r);
    if s != [] {
      FirstIsFirst(args, s, r);
      forall i: nat ensures i in s[1..] <==> i in r[1..] {
        RestHas(args, s, i);
        RestHas(args, r, i);
      }
      OneOrder(args, s[1..], r[1..]);
    }
  }

  lemma EmptyTogether(s: seq<nat>, r: seq<nat>)
    requires forall i: nat :: i in s <==> i in r
    ensures s == [] <==> r == []
  {
    if s != [] {
      assert s[0] in s;
    }
    if r != [] {
      assert r[0] in r;
    }
  }

  lemma FirstIsFirst(args: seq<string>, s: seq<nat>, r: seq<nat>)
    requires s != [] && r != [] && s[0] in r && r[0] in s
    requires (forall i :: 0 <= i < |s| ==> s[i] < |args|) && (forall i :: 0 <= i < |r| ==> r[i] < |args|)
    requires Ordered(args, s) && Ordered(args, r)
    ensures s[0] == r[0]
  {
    hide Before;
    BeforeStrict(args, s[0], r[0]);
  }

  lemma RestHas(args: seq<string>, s: seq<nat>, i: nat)
    requires s != [] && (forall i :: 0 <= i < |s| ==> s[i] < |args|) && Ordered(args, s)
    ensures i in s[1..] <==> i in s && i != s[0]
  {
    hide Before;
    BeforeStrict(args, s[0], s[0]);
  }

  /** The tree's order is the only one: whatever sequence holds just the selected indices, each before the next, is it. */
  lemma OrderIsUnique(args: seq<string>, selects: nat -> bool, s: seq<nat>)
    requires (forall i :: 0 <= i < |s| ==> s[i] < |args|) && Ordered(args, s)
    requires forall i: nat :: i in s <==> i < |args| && selects(i)
    ensures s == Order(args, selects, |args|)
  {
    hide Before;
    var r := Order(args, selects, |args|);
    OrderIsOrdered(args, selects, |args|);
    forall i: nat ensures i in s <==> i in r {
      OrderSelects(args, selects, |args|, i);
    }
    OneOrder(args, s, r);
  }

  lemma InsertOrdered(args: seq<string>, s: seq<nat>, n: nat, k: nat)
    requires n < |args| && (forall i :: 0 <= i < |s| ==> s[i] < n) && Ordered(args, s) && k <= |s|
    requires k < |s| ==> Leq(args[n], args[s[k]])
    requires forall i :: 0 <= i < k ==> !Leq(args[n], args[s[i]])
    ensures Ordered(args, s[..k] + [n] + s[k..])
  {
    hide Leq;
    var r := s[..k] + [n] + s[k..];
    LeqTotal(args[n], args[n]);
    forall p | 0 <= p < k ensures Before(args, r[p], n) {
      LeqTotal(args[n], args[r[p]]);
    }
    forall q | k < q < |r| ensures Before(args, n, r[q]) {
      if q > k + 1 {
        assert Before(args, s[k], s[q - 1]);
        LeqTransitive(args[n], args[s[k]], args[s[q - 1]]);
      }
    }
    forall p, q | 0 <= p < q < |r| ensures Before(args, r[p], r[q]) {
      assert p < q < k ==> Before(args, s[p], s[q]);
      assert p < k < q ==> Before(args, s[p], s[q - 1]);
      assert k < p < q ==> Before(args, s[p - 1], s[q - 1]);
    }
  }

  /** The elements at those indices. */
  function Pick(elems: seq<Element>, s: seq<nat>): (r: seq<Element>)
    requires forall i :: 0 <= i < |s| ==> s[i] < |elems|
    ensures |r| == |s|
  {
    seq(|s|, i requires 0 <= i < |s| => elems[s[i]])
  }

  /** Inserting an element by value is inserting its index by argument. */
  lemma PickInserted(args: seq<string>, elems: seq<Element>, s: seq<nat>, n: nat)
    requires |elems| == |args| && (forall i :: 0 <= i < |args| ==> elems[i].value == args[i])
    requires n < |args| && forall i :: 0 <= i < |s| ==> s[i] < |args|
    ensures var k := PlaceOf(args, s, args[n]);
      Inserted(Pick(elems, s), elems[n]) == Pick(elems, s[..k] + [n] + s[k..])
  {
    SamePlace(args, elems, s, args[n]);
    hide Place, PlaceOf, Leq, Pick;
    PickSplice(elems, s, PlaceOf(args, s, args[n]), n);
  }

  lemma PickSplice(elems: seq<Element>, s: seq<nat>, k: nat, n: nat)
    requires n < |elems| && k <= |s| && forall i :: 0 <= i < |s| ==> s[i] < |elems|
    ensures Pick(elems, s[..k] + [n] + s[k..]) == Pick(elems, s)[..k] + [elems[n]] + Pick(elems, s)[k..]
  {
    var a, b := s[..k] + [n] + s[k..], Pick(elems, s)[..k] + [elems[n]] + Pick(elems, s)[k..];
    forall i | 0 <= i < |a| ensures Pick(elems, a)[i] == b[i] {
    }
  }

  lemma {:induction false} SamePlace(args: seq<string>, elems: seq<Element>, s: seq<nat>, v: string)
    requires |elems| == |args| && (forall i :: 0 <= i < |args| ==> elems[i].value == args[i])
    requires forall i :: 0 <= i < |s| ==> s[i] < |args|
    ensures Place(Pick(elems, s), v) == PlaceOf(args, s, v)
  {
    if s != [] {
      assert Pick(elems, s)[1..] == Pick(elems, s[1..]);
      SamePlace(args, elems, s[1..], v);
    }
  }

  // ---------------------------------------------------------------- the run

  /**
   * Every element's reference count is one for the list it is linked in plus one for each tree node that holds it,
   * and it has been freed exactly when that is none.
   */
  ghost predicate Accounts(l: List, t: Tree, all: set<Element>)
    reads l`elems, t`shape, all`refCount, all`live
  {
    ElemSet(t.shape) <= all &&
    forall x :: x in all ==>
      x.refCount == (if x in l.elems then 1 else 0) + Holders(t.shape, x) && (x.live <==> x.refCount > 0)
  }

  ghost predicate ValuesAre(elems: seq<Element>, args: seq<string>)
  {
    |elems| == |args| && forall i :: 0 <= i < |args| ==> elems[i].value == args[i]
  }

  ghost function SetOf(s: seq<Element>): set<Element> { set x | x in s }

  /** The first loop: one element for each argument. */
  method FillList(args: seq<string>, l: List, t: Tree)
    requires l.Valid() && l.live && l.elems == [] && t.Valid() && t.shape == Leaf
    modifies l`head, l`tail, l`elems
    ensures l.Valid() && ValuesAre(l.elems, args) && Accounts(l, t, SetOf(l.elems))
    ensures forall x :: x in l.elems ==> fresh(x)
  {
    for i := 0 to |args|
      invariant l.Valid() && ValuesAre(l.elems, args[..i])
      invariant forall x :: x in l.elems ==> fresh(x) && x.refCount == 1 && x.live
    {
      ghost var before := l.elems;
      assert l.tail != null ==> l.tail in before;
      var e := l.AddElement(args[i]);
      assert forall x :: x in l.elems ==> x in before || x == e;
    }
    assert args[..|args|] == args;
  }

  /** A selected element goes into the tree too. */
  method Share(args: seq<string>, l: List, t: Tree, e: Element, ghost all: set<Element>)
    requires l.Valid() && t.Valid() && t.live && all == SetOf(l.elems) && e in all && Accounts(l, t, all)
    modifies t`root, t`shape, t`nodes, t.nodes, e`refCount
    ensures l.Valid() && t.Valid() && fresh(t.nodes - old(t.nodes))
    ensures Elems(t.shape) == Inserted(old(Elems(t.shape)), e)
    ensures Accounts(l, t, all)
  {
    hide Inserted, Tree.Valid;
    ghost var before := t.shape;
    var n := t.InsertNode(e);
    forall x | x in all
      ensures x.refCount == (if x in l.elems then 1 else 0) + Holders(t.shape, x) && (x.live <==> x.refCount > 0)
    {
      HoldersInserted(before, t.shape, e, x);
    }
  }

  /** The second loop has seen the first k elements. */
  ghost predicate Filled(args: seq<string>, selects: nat -> bool, k: nat, l: List, t: Tree, all: set<Element>)
    reads l, l.elems, t, t.nodes, all
  {
    && l.Valid() && t.Valid() && all == SetOf(l.elems) && ValuesAre(l.elems, args) && k <= |args|
    && Elems(t.shape) == Pick(l.elems, Order(args, selects, k))
    && Accounts(l, t, all)
  }

  lemma FilledAtFirst(args: seq<string>, selects: nat -> bool, l: List, t: Tree, all: set<Element>)
    requires l.Valid() && t.Valid() && all == SetOf(l.elems) && ValuesAre(l.elems, args) && t.shape == Leaf
    requires Accounts(l, t, all)
    ensures Filled(args, selects, 0, l, t, all)
  {
  }

  /** The element at k is live, and followed by the one at k + 1. */
  lemma FilledNext(args: seq<string>, selects: nat -> bool, k: nat, l: List, t: Tree, all: set<Element>)
    requires Filled(args, selects, k, l, t, all) && k < |args|
    ensures k < |l.elems| && l.elems[k].live && l.elems[k] in all
    ensures l.elems[k].next == if k + 1 < |args| then l.elems[k + 1] else null
  {
    l.NextFacts(k);
  }

  /** The element the second loop looks at after k of them. */
  ghost function Kth(l: List, k: nat): Element?
    reads l
  {
    if k < |l.elems| then l.elems[k] else null
  }

  lemma FilledHead(args: seq<string>, selects: nat -> bool, k: nat, l: List, t: Tree, all: set<Element>)
    requires Filled(args, selects, k, l, t, all)
    ensures l.head == Kth(l, 0) && |l.elems| == |args|
  {
  }

  /** The body of the second loop, for the k-th element, and the step to the next. */
  method Visit(args: seq<string>, selects: nat -> bool, k: nat, l: List, t: Tree, e: Element, ghost all: set<Element>)
    returns (next: Element?)
    requires Filled(args, selects, k, l, t, all) && t.live && e == Kth(l, k)
    modifies t`root, t`shape, t`nodes, t.nodes, all`refCount
    ensures Filled(args, selects, k + 1, l, t, all) && fresh(t.nodes - old(t.nodes)) && next == Kth(l, k + 1)
    ensures k < |args|
  {
    FilledNext(args, selects, k, l, t, all);
    hide Inserted, Tree.Valid, Accounts, List.Valid, Leq;
    if selects(k) {
      PickInserted(args, l.elems, Order(args, selects, k), k);
      Share(args, l, t, e, all);
    }
    next := e.next;
  }

  /** The second loop. */
  method FillTree(args: seq<string>, selects: nat -> bool, l: List, t: Tree, ghost all: set<Element>)
    requires l.live && t.live && t.nodes == {} && Filled(args, selects, 0, l, t, all)
    modifies t`root, t`shape, t`nodes, all`refCount
    ensures Filled(args, selects, |args|, l, t, all) && fresh(t.nodes)
  {
    hide Filled;
    FilledHead(args, selects, 0, l, t, all);
    var e := l.head;
    var k := 0;
    while e != null
      invariant k <= |args| && Filled(args, selects, k, l, t, all) && fresh(t.nodes) && e == Kth(l, k)
      decreases |args| - k
    {
      e := Visit(args, selects, k, l, t, e, all);
      k := k + 1;
    }
  }

  lemma {:induction false} ValuesOf(elems: seq<Element>, args: seq<string>)
    requires ValuesAre(elems, args)
    ensures Values(elems) == args
  {
    if elems != [] {
      ValuesOf(elems[1..], args[1..]);
    }
  }

  /** While the list is whole, a node's line is the command line from its argument on. */
  lemma LineIs(l: List, args: seq<string>, k: nat)
    requires l.Valid() && ValuesAre(l.elems, args) && k < |args|
    ensures Line(l.elems, l.elems[k]) == args[k..]
  {
    FromIndex(l.elems, k);
    ValuesOf(l.elems[k..], args[k..]);
  }

  /** list_delete takes the list's references, and leaves the tree as it was. */
  method Unlink(l: List, t: Tree, ghost all: set<Element>)
    requires l.Valid() && l.live && all == SetOf(l.elems) && Accounts(l, t, all)
    modifies l`head, l`tail, l`elems, all
    ensures l.Valid() && l.elems == [] && Accounts(l, t, all)
    ensures forall x :: x in all ==> x.next == null
  {
    ghost var was := l.elems;
    l.Delete();
    assert forall x :: x in all ==> x in was;
  }

  /** The part of the run after list_delete: the tree prints what it kept alive, and the rest is freed. */
  method Finish(l: List, t: Tree, ghost all: set<Element>) returns (after: seq<seq<string>>)
    requires l.Valid() && l.live && l.elems == [] && t.Valid() && t.live && Accounts(l, t, all)
    requires forall x :: x in all ==> x.next == null
    modifies l`live, t`live, t.nodes`live, all`refCount, all`live
    ensures after == Lines([], Elems(t.shape))
    ensures !l.live && !t.live
    ensures forall x :: x in all ==> !x.live
    ensures forall n :: n in t.nodes ==> !n.live
  {
    ghost var held := all * ElemSet(t.shape);
    forall x | x in held ensures Printable(x, l) {
      HoldersCount(t.shape, x);
    }
    hide Tree.Valid, List.Valid;
    after := t.OrderedSuffixPrint(held, l);
    t.Delete(all);
    l.Free();
  }

  /** The part of the run before list_delete. */
  method Build(args: seq<string>, selects: nat -> bool, l: List, t: Tree) returns (before: seq<seq<string>>)
    requires l.Valid() && l.live && l.elems == [] && t.Valid() && t.live && t.shape == Leaf && t.nodes == {}
    modifies l`head, l`tail, l`elems, t`root, t`shape, t`nodes
    ensures l.Valid() && t.Valid() && fresh(t.nodes)
    ensures ValuesAre(l.elems, args) && (forall x :: x in l.elems ==> fresh(x))
    ensures Elems(t.shape) == Pick(l.elems, Order(args, selects, |args|))
    ensures Accounts(l, t, SetOf(l.elems)) && AllApart(l.elems, t)
    ensures before == Suffixes(args, Order(args, selects, |args|))
  {
    hide Order, Tree.Valid, Leq, Place;
    FillList(args, l, t);
    FilledAtFirst(args, selects, l, t, SetOf(l.elems));
    FillTree(args, selects, l, t, SetOf(l.elems));
    before := t.OrderedSuffixPrint(SetOf(l.elems), l);
    SuffixLines(l, args, Order(args, selects, |args|));
    BuiltApart(l, t);
  }

  /** No two places in the list hold one element, and no two in the tree one node; nodes are all the tree's nodes. */
  ghost predicate AllApart(elems: seq<Element>, t: Tree)
    reads t`shape, t`nodes
  {
    && (forall i, j :: 0 <= i < j < |elems| ==> elems[i] != elems[j])
    && t.nodes == Nodes(t.shape) && Distinct(t.shape)
  }

  lemma BuiltApart(l: List, t: Tree)
    requires l.Valid() && t.Valid()
    ensures AllApart(l.elems, t)
  {
  }

  /** The command line from each of these indices on. */
  function Suffixes(args: seq<string>, c: seq<nat>): (r: seq<seq<string>>)
    requires forall i :: 0 <= i < |c| ==> c[i] < |args|
    ensures |r| == |c| && forall i :: 0 <= i < |c| ==> r[i] == args[c[i]..]
  {
    seq(|c|, i requires 0 <= i < |c| => args[c[i]..])
  }

  lemma SuffixLines(l: List, args: seq<string>, c: seq<nat>)
    requires l.Valid() && ValuesAre(l.elems, args) && forall i :: 0 <= i < |c| ==> c[i] < |args|
    ensures Lines(l.elems, Pick(l.elems, c)) == Suffixes(args, c)
  {
    forall i | 0 <= i < |c| ensures Line(l.elems, Pick(l.elems, c)[i]) == args[c[i]..] {
      LineIs(l, args, c[i]);
    }
  }

  /**
   * The whole run. The tree prints the command line from each selected argument on, in the tree's order; after the
   * list is deleted it prints each selected argument alone, in the same order. At the end the list and the tree,
   * the element made for each argument, and every node of the tree have been freed.
   */
  method Run(args: seq<string>, selects: nat -> bool)
    returns (before: seq<seq<string>>, after: seq<seq<string>>, ghost l: List, ghost t: Tree, ghost elems: seq<Element>)
    ensures var c := Order(args, selects, |args|);
      && (forall i: nat :: i in c <==> i < |args| && selects(i))
      && |before| == |after| == |c|
      && forall i :: 0 <= i < |c| ==> before[i] == args[c[i]..] && after[i] == [args[c[i]]]
    ensures LinesAscend(before, after)
    ensures ValuesAre(elems, args) && AllApart(elems, t)
    ensures Elems(t.shape) == Pick(elems, Order(args, selects, |args|))
    ensures !l.live && !t.live
    ensures forall x :: x in elems ==> fresh(x) && !x.live
    ensures forall n :: n in Nodes(t.shape) ==> fresh(n) && !n.live
  {
    hide Order, Tree.Valid, List.Valid, Leq, Place, Ascends, LinesAscend;
    var tree := new Tree();
    var list := new List();
    before := Build(args, selects, list, tree);
    elems := list.elems;
    ghost var all := SetOf(elems);
    assert forall x :: x in all ==> fresh(x);
    Unlink(list, tree, all);
    after := Finish(list, tree, all);
    l, t := list, tree;
    OrderIs(args, selects);
    PrintoutsAscend(args, Order(args, selects, |args|), before, after);
  }

  /** The lines ascend by their first values, character by character; of equal values the longer suffix comes later. */
  ghost predicate LinesAscend(before: seq<seq<string>>, after: seq<seq<string>>)
  {
    |before| == |after| && (forall i :: 0 <= i < |after| ==> |before[i]| > 0 && after[i] == before[i][..1]) &&
    forall p, q :: 0 <= p < q < |after| ==>
      AtMost(after[p][0], after[q][0]) && (after[p] == after[q] ==> |before[p]| < |before[q]|)
  }

  lemma PrintoutsAscend(args: seq<string>, c: seq<nat>, before: seq<seq<string>>, after: seq<seq<string>>)
    requires (forall i :: 0 <= i < |c| ==> c[i] < |args|) && Ascends(args, c) && |before| == |after| == |c|
    requires forall i :: 0 <= i < |c| ==> before[i] == args[c[i]..] && after[i] == [args[c[i]]]
    ensures LinesAscend(before, after)
  {
    hide AtMost;
    forall p, q | 0 <= p < q < |after|
      ensures AtMost(after[p][0], after[q][0]) && (after[p] == after[q] ==> |before[p]| < |before[q]|)
    {
      assert after[p][0] == args[c[p]] && after[q][0] == args[c[q]];
    }
  }
}
