/** The growable list of elements in a buffer that is enlarged when full (a7/list.c). */
module GrowableList {

  const INITIAL_SIZE := 10
  const GROWTH_FACTOR := 5

  function Max(a: int, b: int): int { if a < b then b else a }

  /** The size that makes room for one more element. */
  function Room(len: nat, size: nat): nat
  {
    if len == size then GROWTH_FACTOR * size else size
  }

  function InsertAt<T>(s: seq<T>, pos: nat, x: T): seq<T>
    requires pos <= |s|
  {
    s[..pos] + [x] + s[pos..]
  }

  lemma InsertedIs<T>(s: seq<T>, pos: nat, x: T, t: seq<T>)
    requires pos <= |s| && |t| == |s| + 1 && t[pos] == x
    requires forall k :: 0 <= k < pos ==> t[k] == s[k]
    requires forall k :: pos < k < |t| ==> t[k] == s[k - 1]
    ensures t == InsertAt(s, pos, x)
  {
  }

  function RemoveAt<T>(s: seq<T>, pos: nat): seq<T>
    requires pos < |s|
  {
    s[..pos] + s[pos + 1..]
  }

  lemma RemovedIs<T>(s: seq<T>, pos: nat, t: seq<T>)
    requires pos < |s| && |t| == |s| - 1
    requires forall k :: 0 <= k < pos ==> t[k] == s[k]
    requires forall k :: pos <= k < |t| ==> t[k] == s[k + 1]
    ensures t == RemoveAt(s, pos)
  {
  }

  // What the callbacks are given: the output slot's old value first, then the elements read.

  function Mapped<T>(f: (T, T) -> T, s: seq<T>): (r: seq<T>)
    ensures |r| == |s| && forall i :: 0 <= i < |s| ==> r[i] == f(s[i], s[i])
  {
    seq(|s|, i requires 0 <= i < |s| => f(s[i], s[i]))
  }

  function Zipped<T>(f: (T, T, T) -> T, s: seq<T>, t: seq<T>): (r: seq<T>)
    ensures |r| == (if |s| < |t| then |s| else |t|) && forall i :: 0 <= i < |r| ==> r[i] == f(s[i], s[i], t[i])
  {
    seq(if |s| < |t| then |s| else |t|, i requires 0 <= i < |s| && i < |t| => f(s[i], s[i], t[i]))
  }

  function Filtered<T>(f: T -> int, s: seq<T>): seq<T>
  {
    if s == [] then [] else (if f(s[0]) == 1 then [s[0]] else []) + Filtered(f, s[1..])
  }

  function Folded<T>(f: (T, T, T) -> T, acc: T, s: seq<T>): T
  {
    if s == [] then acc else Folded(f, f(acc, s[0], acc), s[1..])
  }

  lemma {:induction false} FilteredConcat<T>(f: T -> int, s: seq<T>, t: seq<T>)
    ensures Filtered(f, s + t) == Filtered(f, s) + Filtered(f, t)
  {
    if s == [] {
      assert s + t == t;
    } else {
      var kept := if f(s[0]) == 1 then [s[0]] else [];
      assert (s + t)[0] == s[0] && (s + t)[1..] == s[1..] + t;
      FilteredConcat(f, s[1..], t);
      assert kept + (Filtered(f, s[1..]) + Filtered(f, t)) == (kept + Filtered(f, s[1..])) + Filtered(f, t);
    }
  }

  /** Filtering keeps every occurrence of the elements selected and none of the others. */
  lemma {:induction false} FilteredKeeps<T>(f: T -> int, s: seq<T>, x: T)
    ensures multiset(Filtered(f, s))[x] == if f(x) == 1 then multiset(s)[x] else 0
  {
    if s != [] {
      FilteredKeeps(f, s[1..], x);
      assert s == [s[0]] + s[1..];
    }
  }

  /** Folding a concatenation goes on from the fold of its first part. */
  lemma {:induction false} FoldedConcat<T>(f: (T, T, T) -> T, acc: T, s: seq<T>, t: seq<T>)
    ensures Folded(f, acc, s + t) == Folded(f, Folded(f, acc, s), t)
  {
    if s == [] {
      assert s + t == t;
    } else {
      assert (s + t)[1..] == s[1..] + t;
      FoldedConcat(f, f(acc, s[0], acc), s[1..], t);
    }
  }

  /** Each step gives the callback the accumulator, the element, and the accumulator again. */
  lemma FoldedSnoc<T>(f: (T, T, T) -> T, acc: T, s: seq<T>, x: T)
    ensures Folded(f, acc, []) == acc
    ensures Folded(f, acc, s + [x]) == f(Folded(f, acc, s), x, Folded(f, acc, s))
  {
    FoldedConcat(f, acc, s, [x]);
  }

  /** The accumulator's values, from the initial one to the last. */
  ghost predicate IsTrace<T>(f: (T, T, T) -> T, initial: T, s: seq<T>, trace: seq<T>)
  {
    && |trace| == |s| + 1 && trace[0] == initial
    && forall i :: 0 <= i < |s| ==> trace[i + 1] == f(trace[i], s[i], trace[i])
  }

  class List<T(0)> {
    var data: array<T>
    var len: nat
    var size: nat
    ghost var copied: nat  // elements moved by all the enlargements so far
    ghost var peak: nat    // the greatest length so far

    /** The buffer has been enlarged only to make room for peak elements. */
    ghost predicate Valid()
      reads this
    {
      && data.Length == size
      && len <= peak <= size
      && 4 * copied == size - INITIAL_SIZE
      && (copied > 0 ==> size < GROWTH_FACTOR * peak)
    }

    ghost function Contents(): seq<T>
      reads this, data
      requires Valid()
    {
      data[..len]
    }

    constructor ()
      ensures Valid() && fresh(data)
      ensures Contents() == [] && copied == 0 && peak == 0
    {
      data := new T[INITIAL_SIZE];
      len, size := 0, INITIAL_SIZE;
      copied, peak := 0, 0;
    }

    /** Every element moved by growth is paid for: fewer than 5/4 moves for each element of the longest list held. */
    lemma GrowthIsPaid()
      requires Valid()
      ensures 4 * copied == size - 10 && (copied == 0 <==> size == 10)
      ensures copied > 0 ==> 4 * copied < 5 * peak
    {
    }

    method Expand()
      requires Valid() && len == size
      modifies this
      ensures data.Length == size == GROWTH_FACTOR * old(size) && fresh(data)
      ensures len == old(len) && peak == old(peak) && data[..len] == old(data[..len])
      ensures copied == old(copied) + old(size) && 4 * copied == size - INITIAL_SIZE
    {
      copied := copied + size;
      size := size * GROWTH_FACTOR;
      var room := new T[size];
      forall i | 0 <= i < len {
        room[i] := data[i];
      }
      data := room;
    }

    method Append(x: T)
      requires Valid()
      modifies this, data
      ensures Valid() && (data == old(data) || fresh(data))
      ensures Contents() == old(Contents()) + [x]
      ensures size == Room(old(len), old(size)) && peak == Max(old(peak), len)
    {
      if len == size {
        Expand();
      }
      data[len] := x;
      len := len + 1;
      peak := Max(peak, len);
    }

    /** Appends elements[0] .. elements[n - 1]; nothing for n <= 0. */
    method AppendArray(elements: array<T>, n: int)
      requires Valid() && elements != data && n <= elements.Length
      modifies this, data
      ensures Valid() && (data == old(data) || fresh(data))
      ensures Contents() == old(Contents()) + elements[..Max(n, 0)]
      ensures peak == Max(old(peak), len)
    {
      var i := 0;
      while i < n
        invariant 0 <= i <= Max(n, 0)
        invariant Valid() && (data == old(data) || fresh(data))
        invariant elements != data && elements[..] == old(elements[..])
        invariant Contents() == old(Contents()) + elements[..i]
        invariant peak == Max(old(peak), len)
      {
        Append(elements[i]);
        i := i + 1;
      }
    }

    /** The loop of insertion: elements from pos on move up one place. */
    method ShiftUp(pos: nat)
      requires data.Length == size && pos <= len < size
      modifies data
      ensures forall k :: 0 <= k < pos ==> data[k] == old(data[k])
      ensures forall k :: pos < k <= len ==> data[k] == old(data[k - 1])
    {
      var i := len;
      while i > pos
        invariant pos <= i <= len
        invariant forall k :: 0 <= k < i ==> data[k] == old(data[k])
        invariant forall k :: i < k <= len ==> data[k] == old(data[k - 1])
      {
        data[i] := data[i - 1];
        i := i - 1;
      }
    }

    method Insert(pos: nat, x: T)
      requires Valid() && pos <= len
      modifies this, data
      ensures Valid() && (data == old(data) || fresh(data))
      ensures Contents() == InsertAt(old(Contents()), pos, x)
      ensures size == Room(old(len), old(size)) && peak == Max(old(peak), len)
    {
      hide InsertAt;
      ghost var s := Contents();
      if len == size {
        Expand();
      }
      ShiftUp(pos);
      data[pos] := x;
      len := len + 1;
      peak := Max(peak, len);
      InsertedIs(s, pos, x, data[..len]);
    }

    /** The last round of the loop reads one place past the list, which a full buffer does not have. */
    method Remove(pos: nat) returns (defined: bool)
      requires Valid() && pos < len
      modifies this, data
      ensures defined <==> old(len) < size
      ensures defined ==> Valid() && data == old(data) && Contents() == RemoveAt(old(Contents()), pos)
      ensures size == old(size) && copied == old(copied) && peak == old(peak)
    {
      ghost var s := Contents();
      var i := pos;
      while i < len
        invariant pos <= i <= len
        invariant len == size ==> i < len
        invariant forall k :: 0 <= k < pos ==> data[k] == s[k]
        invariant forall k :: pos <= k < i && k + 1 < len ==> data[k] == s[k + 1]
        invariant forall k :: i <= k < len ==> data[k] == s[k]
        modifies data
      {
        if i + 1 == data.Length {
          return false;
        }
        data[i] := data[i + 1];
        i := i + 1;
      }
      len := len - 1;
      defined := true;
      RemovedIs(s, pos, data[..len]);
    }

    method Get(pos: nat) returns (x: T)
      requires Valid() && pos < len
      ensures x == Contents()[pos]
    {
      x := data[pos];
    }

    /** The first position of an element equal to x, or -1 when there is none. */
    method Index(x: T, equal: (T, T) -> bool) returns (at: int)
      requires Valid()
      ensures -1 <= at < len
      ensures at >= 0 ==> equal(Contents()[at], x)
      ensures forall k :: 0 <= k < (if at < 0 then len else at) ==> !equal(Contents()[k], x)
    {
      for i := 0 to len
        invariant forall k :: 0 <= k < i ==> !equal(Contents()[k], x)
      {
        if equal(data[i], x) {
          return i;
        }
      }
      at := -1;
    }
  }

  /** Ten appended elements fill a new list, and none of them can then be removed. */
  method RemoveFromFull<T(0)>(x: T, pos: nat) returns (l: List<T>, defined: bool)
    requires pos < INITIAL_SIZE
    ensures !defined
  {
    l := new List();
    for i := 0 to INITIAL_SIZE
      invariant l.Valid() && l.len == i && l.size == INITIAL_SIZE
      invariant fresh(l) && fresh(l.data)
    {
      l.Append(x);
    }
    defined := l.Remove(pos);
  }

  method Map1<T(0)>(f: (T, T) -> T, out: List<T>, input: List<T>)
    requires out.Valid() && input.Valid() && out != input && out.data != input.data
    modifies out, out.data
    ensures out.Valid() && (out.data == old(out.data) || fresh(out.data))
    ensures out.Contents() == old(out.Contents()) + Mapped(f, input.Contents())
  {
    var i := 0;
    while i < input.len
      invariant 0 <= i <= input.len
      invariant out.Valid() && (out.data == old(out.data) || fresh(out.data))
      invariant input.data[..] == old(input.data[..]) && input.data != out.data
      invariant out.Contents() == old(out.Contents()) + Mapped(f, input.Contents())[..i]
    {
      var e := input.Get(i);
      out.Append(f(e, e));
      i := i + 1;
    }
  }

  method Map2<T(0)>(f: (T, T, T) -> T, out: List<T>, input0: List<T>, input1: List<T>)
    requires out.Valid() && input0.Valid() && input1.Valid()
    requires out != input0 && out.data != input0.data && out != input1 && out.data != input1.data
    modifies out, out.data
    ensures out.Valid() && (out.data == old(out.data) || fresh(out.data))
    ensures out.Contents() == old(out.Contents()) + Zipped(f, input0.Contents(), input1.Contents())
  {
    hide Zipped;
    ghost var z := Zipped(f, input0.Contents(), input1.Contents());
    var n := if input0.len < input1.len then input0.len else input1.len;
    var i := 0;
    while i < n
      invariant 0 <= i <= n
      invariant out.Valid() && (out.data == old(out.data) || fresh(out.data))
      invariant input0.data[..] == old(input0.data[..]) && input0.data != out.data
      invariant input1.data[..] == old(input1.data[..]) && input1.data != out.data
      invariant out.Contents() == old(out.Contents()) + z[..i]
    {
      var e0 := input0.Get(i);
      var e1 := input1.Get(i);
      out.Append(f(e0, e0, e1));
      assert z[..i + 1] == z[..i] + [f(e0, e0, e1)];
      i := i + 1;
    }
  }

  method Foldl<T(0)>(f: (T, T, T) -> T, initial: T, input: List<T>) returns (acc: T, ghost trace: seq<T>)
    requires input.Valid()
    ensures IsTrace(f, initial, input.Contents(), trace) && acc == trace[input.len]
    ensures acc == Folded(f, initial, input.Contents())
  {
    acc := initial;
    trace := [initial];
    ghost var s := input.Contents();
    var i := 0;
    while i < input.len
      invariant 0 <= i <= input.len
      invariant IsTrace(f, initial, s[..i], trace) && acc == trace[i] == Folded(f, initial, s[..i])
    {
      var e := input.Get(i);
      FoldedSnoc(f, initial, s[..i], e);
      assert s[..i + 1] == s[..i] + [e];
      acc := f(acc, e, acc);
      trace := trace + [acc];
      i := i + 1;
    }
    assert s[..i] == s;
  }

  method Filter<T(0)>(f: T -> int, out: List<T>, input: List<T>)
    requires out.Valid() && input.Valid() && out != input && out.data != input.data
    modifies out, out.data
    ensures out.Valid() && (out.data == old(out.data) || fresh(out.data))
    ensures out.Contents() == old(out.Contents()) + Filtered(f, input.Contents())
  {
    ghost var s := input.Contents();
    var i := 0;
    while i < input.len
      invariant 0 <= i <= input.len
      invariant out.Valid() && (out.data == old(out.data) || fresh(out.data))
      invariant input.data[..] == old(input.data[..]) && input.data != out.data
      invariant out.Contents() == old(out.Contents()) + Filtered(f, s[..i])
    {
      var e := input.Get(i);
      assert s[..i + 1] == s[..i] + [e];
      FilteredConcat(f, s[..i], [e]);
      if f(e) == 1 {
        out.Append(e);
      }
      i := i + 1;
    }
    assert s[..i] == s;
  }
}
