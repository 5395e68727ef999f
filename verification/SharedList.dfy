/**
 * Reference-counted list elements (a5/list.c). Freeing is modelled by a ghost flag: an object may be read, and freed,
 * only while it is live.
 */
module SharedList {

  class Element {
    const value: string
    var prev: Element?
    var next: Element?
    var refCount: int
    ghost var live: bool

    constructor (value: string)
      ensures this.value == value && prev == null && next == null && refCount == 1 && live
    {
      this.value := value;
      prev, next, refCount, live := null, null, 1, true;
    }

    method IncRef()
      requires live
      modifies this`refCount
      ensures refCount == old(refCount) + 1
    {
      refCount := refCount + 1;
    }

    /** The last reference frees the element. */
    method DecRef()
      requires live
      modifies this`refCount, this`live
      ensures refCount == old(refCount) - 1
      ensures live <==> refCount != 0
    {
      refCount := refCount - 1;
      if refCount == 0 {
        live := false;
      }
    }
  }

  function NextOf(s: seq<Element>, i: nat): Element?
  {
    if i + 1 < |s| then s[i + 1] else null
  }

  function PrevOf(s: seq<Element>, i: nat): Element?
  {
    if 0 < i <= |s| then s[i - 1] else null
  }

  /** The neighbours in what is left when the element at k is taken out of s. */
  lemma Neighbours(s: seq<Element>, k: nat, i: nat)
    requires k < |s| && i < |s| - 1
    ensures var r := s[..k] + s[k + 1..]; var j := if i < k then i else i + 1;
      && r[i] == s[j]
      && NextOf(r, i) == (if j + 1 == k then NextOf(s, k) else NextOf(s, j))
      && PrevOf(r, i) == (if j == k + 1 then PrevOf(s, k) else PrevOf(s, j))
  {
  }

  class List {
    var head: Element?
    var tail: Element?
    ghost var elems: seq<Element>
    ghost var live: bool

    constructor ()
      ensures Valid() && elems == [] && live
    {
      head, tail, elems, live := null, null, [], true;
    }

    /** The element at index i is linked to its neighbours and live. */
    ghost predicate Linked(i: nat)
      requires i < |elems|
      reads this, elems`next, elems`prev, elems`live
    {
      elems[i].next == NextOf(elems, i) && elems[i].prev == PrevOf(elems, i) && elems[i].live
    }

    ghost predicate Valid()
      reads this, elems`next, elems`prev, elems`live
    {
      && (forall i, j :: 0 <= i < j < |elems| ==> elems[i] != elems[j])
      && head == (if elems == [] then null else elems[0])
      && tail == (if elems == [] then null else elems[|elems| - 1])
      && forall i :: 0 <= i < |elems| ==> Linked(i)
    }

    method AddElement(value: string) returns (e: Element)
      requires Valid() && live
      modifies this`head, this`tail, this`elems, {tail}
      ensures Valid() && elems == old(elems) + [e]
      ensures fresh(e) && e.value == value && e.refCount == 1 && e.live
      ensures forall x :: x in old(elems) ==> x.refCount == old(x.refCount) && x.live
    {
      e := new Element(value);
      if head == null {
        head := e;
      } else {
        assert Linked(|elems| - 1);
        tail.next := e;
        e.prev := tail;
      }
      tail := e;
      elems := elems + [e];
      forall i | 0 <= i < |elems| ensures Linked(i) {
        assert i < |old(elems)| ==> old(Linked(i));
      }
      forall x | x in old(elems) ensures x.refCount == old(x.refCount) && x.live {
        ghost var i :| 0 <= i < |old(elems)| && old(elems)[i] == x;
        assert old(Linked(i));
      }
    }

    /** Where e is in the list. */
    ghost function IndexOf(e: Element): (i: nat)
      requires e in elems
      reads this
      ensures i < |elems| && elems[i] == e
    {
      var i :| 0 <= i < |elems| && elems[i] == e;
      i
    }

    /** Unlinking e drops the list's reference to it. */
    method DeleteElement(e: Element)
      requires Valid() && live && e in elems && e.refCount > 0
      modifies this`head, this`tail, this`elems, e, {e.prev}`next, {e.next}`prev
      ensures Valid()
      ensures elems == old(elems[..IndexOf(e)] + elems[IndexOf(e) + 1..])
      ensures e.next == null && e.prev == null && e.refCount == old(e.refCount) - 1
      ensures e.live <==> e.refCount > 0
      ensures forall x :: x in old(elems) && x != e ==> x.refCount == old(x.refCount) && x.live
    {
      ghost var k := IndexOf(e);
      ghost var was := elems;
      assert Linked(k) && (k > 0 ==> Linked(k - 1)) && (k + 1 < |elems| ==> Linked(k + 1));
      if e == head {
        head := e.next;
      } else {
        e.prev.next := e.next;
      }
      if e == tail {
        tail := e.prev;
      } else {
        e.next.prev := e.prev;
      }
      e.next, e.prev := null, null;
      e.DecRef();
      elems := was[..k] + was[k + 1..];
      forall i | 0 <= i < |elems| ensures Linked(i) {
        ghost var j := if i < k then i else i + 1;
        Neighbours(was, k, i);
        assert elems[i] == was[j] && old(Linked(j));
      }
      forall x | x in was && x != e ensures x.refCount == old(x.refCount) && x.live {
        ghost var i :| 0 <= i < |was| && was[i] == x;
        assert old(Linked(i));
      }
    }

    lemma NoRepeats()
      requires Valid()
      ensures forall i, j :: 0 <= i < j < |elems| ==> elems[i] != elems[j]
    {
    }

    lemma HeadFacts()
      requires Valid()
      ensures head == (if elems == [] then null else elems[0])
      ensures elems != [] ==> IndexOf(elems[0]) == 0
      ensures elems != [] ==> head.live && head.prev == null && head.next == NextOf(elems, 0)
    {
      assert elems != [] ==> Linked(0);
    }

    /** DeleteElement on the first element. */
    method DeleteFirst(e: Element)
      requires Valid() && live && elems != [] && e == elems[0] && e.refCount > 0
      modifies this`head, this`tail, this`elems, e, {e.next}`prev
      ensures Valid() && elems == old(elems[1..])
      ensures Dropped(e, old(e.refCount))
    {
      HeadFacts();
      DeleteElement(e);
    }

    lemma NextFacts(i: nat)
      requires Valid() && i < |elems|
      ensures elems[i].live && elems[i].next == NextOf(elems, i)
    {
      assert Linked(i);
    }

    /** The body of the loop of deletion: the next element is read before this one is deleted. */
    method DeleteAndStep(e: Element, ghost was: seq<Element>, ghost k: nat) returns (n: Element?)
      requires Valid() && live && k < |was| && elems == was[k..] && e == head && e.refCount > 0
      modifies this`head, this`tail, this`elems, e, {e.next}`prev
      ensures Valid() && elems == was[k + 1..] && n == head
      ensures Dropped(e, old(e.refCount))
      ensures old(e.next) == NextOf(was, k)
    {
      hide Valid, Dropped;
      HeadFacts();
      assert e.live;
      n := e.next;
      DeleteFirst(e);
      HeadFacts();
    }

    /** Unlinks every element; those that have no other reference are freed. */
    method Delete()
      requires Valid() && live && forall x :: x in elems ==> x.refCount > 0
      modifies this`head, this`tail, this`elems, elems
      ensures Valid() && elems == []
      ensures forall x :: x in old(elems) ==> Dropped(x, old(x.refCount))
    {
      hide Valid, Dropped;
      ghost var was := elems;
      NoRepeats();
      var e := head;
      ghost var k := 0;
      HeadFacts();
      while e != null
        invariant Valid() && k <= |was| && elems == was[k..] && e == head
        invariant forall i :: k <= i < |was| ==> was[i].refCount == old(was[i].refCount)
        invariant forall i :: 0 <= i < k ==> Dropped(was[i], old(was[i].refCount))
        decreases |was| - k
      {
        HeadFacts();
        assert e == was[k];
        e := DeleteAndStep(e, was, k);
        k := k + 1;
      }
      HeadFacts();
      forall x | x in was ensures Dropped(x, old(x.refCount)) {
        ghost var i :| 0 <= i < |was| && was[i] == x;
      }
    }

    /** x is out of the list, which gave up one of the count references x had. */
    ghost predicate Dropped(x: Element, count: int)
      reads x
    {
      x.next == null && x.prev == null && x.refCount == count - 1 && (x.live <==> x.refCount > 0)
    }

    method Free()
      requires live
      modifies this`live
      ensures !live
    {
      live := false;
    }
  }
}
