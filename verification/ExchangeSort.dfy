/** The in-place exchange sort (a3/bubble_sort_dynamic.c). */
module ExchangeSort {

  function Less(s: seq<int>, x: int): (n: nat)
  {
    if s == [] then 0 else (if s[0] < x then 1 else 0) + Less(s[1..], x)
  }

  function Greater(s: seq<int>, x: int): (n: nat)
  {
    if s == [] then 0 else (if s[0] > x then 1 else 0) + Greater(s[1..], x)
  }

  /** Pairs out of order. */
  function Inversions(s: seq<int>): nat
  {
    if s == [] then 0 else Less(s[1..], s[0]) + Inversions(s[1..])
  }

  ghost predicate Ascending(s: seq<int>)
  {
    forall p, q :: 0 <= p < q < |s| ==> s[p] <= s[q]
  }

  function Exchange(s: seq<int>, j: nat, i: nat): seq<int>
    requires j < i < |s|
  {
    s[j := s[i]][i := s[j]]
  }

  lemma {:induction false} LessConcat(a: seq<int>, b: seq<int>, x: int)
    ensures Less(a + b, x) == Less(a, x) + Less(b, x)
  {
    if a == [] {
      assert a + b == b;
    } else {
      assert (a + b)[1..] == a[1..] + b;
      LessConcat(a[1..], b, x);
    }
  }

  lemma {:induction false} Monotone(s: seq<int>, x: int, y: int)
    requires y <= x
    ensures Less(s, y) <= Less(s, x) && Greater(s, x) <= Greater(s, y)
  {
    if s != [] {
      Monotone(s[1..], x, y);
    }
  }

  /** One element more makes an inversion with each greater one before it and each lesser one after it. */
  lemma {:induction false} InversionsInsert(b: seq<int>, z: int, c: seq<int>)
    ensures Inversions(b + [z] + c) == Inversions(b + c) + Greater(b, z) + Less(c, z)
  {
    if b == [] {
      assert b + [z] + c == [z] + c && b + c == c;
    } else {
      var t := b[1..];
      assert (b + [z] + c)[1..] == t + [z] + c && (b + c)[1..] == t + c;
      InversionsInsert(t, z, c);
      LessConcat(t + [z], c, b[0]);
      LessConcat(t, [z], b[0]);
      LessConcat(t, c, b[0]);
    }
  }

  // ---------------------------------------------------------------- what the counts count

  lemma {:induction false} GreaterSnoc(b: seq<int>, y: int, z: int)
    ensures Greater(b + [y], z) == Greater(b, z) + if y > z then 1 else 0
  {
    if b == [] {
      assert [y][1..] == [];
    } else {
      assert (b + [y])[1..] == b[1..] + [y];
      GreaterSnoc(b[1..], y, z);
    }
  }

  /** The pairs of places out of order. */
  ghost function InvertedPairs(s: seq<int>): set<(nat, nat)>
  {
    set p: nat, q: nat | p < q < |s| && s[p] > s[q] :: (p, q)
  }

  /** Places of b whose elements are above z, each paired with n. */
  ghost function Column(b: seq<int>, z: int, n: nat): set<(nat, nat)>
  {
    set p: nat | p < |b| && b[p] > z :: (p, n)
  }

  lemma {:induction false} ColumnSize(b: seq<int>, z: int, n: nat)
    ensures |Column(b, z, n)| == Greater(b, z)
    decreases |b|
  {
    if b != [] {
      var k := |b| - 1;
      var c, y := b[..k], b[k];
      assert b == c + [y];
      GreaterSnoc(c, y, z);
      ColumnSize(c, z, n);
      assert Column(b, z, n) == Column(c, z, n) + if y > z then {(k, n)} else {};
    } else {
      assert Column(b, z, n) == {};
    }
  }

  lemma PairsSnoc(b: seq<int>, z: int)
    ensures InvertedPairs(b + [z]) == InvertedPairs(b) + Column(b, z, |b|)
    ensures InvertedPairs(b) !! Column(b, z, |b|)
  {
  }

  /** Inversions counts exactly the pairs of places, adjacent or not, whose elements are out of order. */
  lemma {:induction false} InversionsArePairs(s: seq<int>)
    ensures Inversions(s) == |InvertedPairs(s)|
    decreases |s|
  {
    if s != [] {
      var b, z := s[..|s| - 1], s[|s| - 1];
      assert s == b + [z] && b + [z] + [] == b + [z] && b + [] == b;
      InversionsArePairs(b);
      InversionsInsert(b, z, []);
      ColumnSize(b, z, |b|);
      PairsSnoc(b, z);
    } else {
      assert InvertedPairs(s) == {};
    }
  }

  /** The two sequences have as many elements below any value. */
  ghost predicate SameLess(r: seq<int>, r': seq<int>)
  {
    forall x :: Less(r, x) == Less(r', x)
  }

  /** Inversions with a common prefix differ as those of the rest do, when the rests have the same elements. */
  lemma {:induction false} InversionsPrefix(a: seq<int>, r: seq<int>, r': seq<int>)
    requires SameLess(r, r') && Inversions(r') < Inversions(r)
    ensures Inversions(a + r') < Inversions(a + r)
  {
    if a == [] {
      assert a + r == r && a + r' == r';
    } else {
      assert (a + r)[1..] == a[1..] + r && (a + r')[1..] == a[1..] + r';
      InversionsPrefix(a[1..], r, r');
      LessConcat(a[1..], r, a[0]);
      LessConcat(a[1..], r', a[0]);
    }
  }

  lemma LessSplit(p: int, b: seq<int>, q: int, c: seq<int>, z: int)
    ensures Less([p] + (b + [q] + c), z) == (if p < z then 1 else 0) + Less(b, z) + (if q < z then 1 else 0) + Less(c, z)
  {
    assert ([p] + (b + [q] + c))[1..] == b + [q] + c;
    LessConcat(b + [q], c, z);
    LessConcat(b, [q], z);
  }

  lemma ExchangeEnds(x: int, b: seq<int>, y: int, c: seq<int>)
    requires y < x
    ensures Inversions([y] + (b + [x] + c)) < Inversions([x] + (b + [y] + c))
    ensures SameLess([x] + (b + [y] + c), [y] + (b + [x] + c))
  {
    InversionsInsert(b, x, c);
    InversionsInsert(b, y, c);
    Monotone(b, x, y);
    LessSplit(y, b, x, c, y);
    LessSplit(x, b, y, c, x);
    assert ([y] + (b + [x] + c))[1..] == b + [x] + c && ([x] + (b + [y] + c))[1..] == b + [y] + c;
    forall z ensures Less([x] + (b + [y] + c), z) == Less([y] + (b + [x] + c), z) {
      LessSplit(x, b, y, c, z);
      LessSplit(y, b, x, c, z);
    }
  }

  lemma Parts(s: seq<int>, j: nat, i: nat)
    requires j < i < |s|
    ensures s == s[..j] + ([s[j]] + (s[j + 1..i] + [s[i]] + s[i + 1..]))
    ensures Exchange(s, j, i) == s[..j] + ([s[i]] + (s[j + 1..i] + [s[j]] + s[i + 1..]))
  {
  }

  /** Exchanging an inverted pair, adjacent or not, lowers the number of inversions. */
  lemma ExchangeLowers(s: seq<int>, j: nat, i: nat)
    requires j < i < |s| && s[i] < s[j]
    ensures Inversions(Exchange(s, j, i)) < Inversions(s)
  {
    hide Inversions, Exchange;
    var b, c := s[j + 1..i], s[i + 1..];
    ExchangeEnds(s[j], b, s[i], c);
    InversionsPrefix(s[..j], [s[j]] + (b + [s[i]] + c), [s[i]] + (b + [s[j]] + c));
    Parts(s, j, i);
  }

  lemma ExchangePermutes(s: seq<int>, j: nat, i: nat)
    requires j < i < |s|
    ensures multiset(Exchange(s, j, i)) == multiset(s)
  {
  }

  method Swap(val: array<int>, j: nat, i: nat)
    requires j < i < val.Length
    modifies val
    ensures val[..] == Exchange(old(val[..]), j, i)
  {
    var t := val[i];
    val[i] := val[j];
    val[j] := t;
  }

  type Pair = p: (nat, nat) | p.0 < p.1 witness (0, 1)

  /** What exchanging these pairs of indices, one after the other, makes of s. */
  function Replay(s: seq<int>, trace: seq<Pair>): (t: seq<int>)
    requires forall p :: p in trace ==> p.1 < |s|
    ensures |t| == |s|
  {
    if trace == [] then s else
      var n := |trace| - 1;
      Exchange(Replay(s, trace[..n]), trace[n].0, trace[n].1)
  }

  /** Each of the pairs is inverted when its turn comes. */
  predicate AllInverted(s: seq<int>, trace: seq<Pair>)
    requires forall p :: p in trace ==> p.1 < |s|
  {
    trace == [] ||
    var n := |trace| - 1;
    var u := Replay(s, trace[..n]);
    AllInverted(s, trace[..n]) && u[trace[n].1] < u[trace[n].0]
  }

  /** However inverted pairs are chosen, there are no more exchanges than inversions. */
  lemma {:induction false} ExchangesBounded(s: seq<int>, trace: seq<Pair>)
    requires (forall p :: p in trace ==> p.1 < |s|) && AllInverted(s, trace)
    ensures |trace| + Inversions(Replay(s, trace)) <= Inversions(s)
    ensures multiset(Replay(s, trace)) == multiset(s)
  {
    hide Inversions, Exchange;
    if trace != [] {
      var n := |trace| - 1;
      var u := Replay(s, trace[..n]);
      ExchangesBounded(s, trace[..n]);
      ExchangeLowers(u, trace[n].0, trace[n].1);
      ExchangePermutes(u, trace[n].0, trace[n].1);
    }
  }

  /** t is made of s by the exchanges in trace, each of an inverted pair. */
  ghost predicate Reached(s: seq<int>, t: seq<int>, trace: seq<Pair>)
  {
    (forall p :: p in trace ==> p.1 < |s|) && AllInverted(s, trace) && Replay(s, trace) == t
  }

  lemma ReachedStep(s: seq<int>, t: seq<int>, trace: seq<Pair>, j: nat, i: nat)
    requires Reached(s, t, trace) && j < i < |t| && t[i] < t[j]
    ensures Reached(s, Exchange(t, j, i), trace + [(j, i)])
  {
    hide Exchange;
    var next := trace + [(j, i)];
    assert next[..|trace|] == trace;
  }

  /** The elements after index i are in place: ascending, and none below one before them. */
  ghost predicate SortedAbove(s: seq<int>, i: int)
  {
    forall p, q :: 0 <= p < q < |s| && i < q ==> s[p] <= s[q]
  }

  /** The element at i is at least those from j + 1 up to it. */
  ghost predicate TopOf(s: seq<int>, j: int, i: int)
    requires -1 <= j < i < |s|
  {
    forall p :: j < p < i ==> s[p] <= s[i]
  }

  lemma ExchangeKeeps(s: seq<int>, j: nat, i: nat)
    requires j < i < |s| && s[i] < s[j] && SortedAbove(s, i) && TopOf(s, j, i)
    ensures SortedAbove(Exchange(s, j, i), i) && TopOf(Exchange(s, j, i), j - 1, i)
  {
  }

  lemma PassDone(s: seq<int>, i: nat)
    requires i < |s| && SortedAbove(s, i) && TopOf(s, -1, i)
    ensures SortedAbove(s, i - 1)
  {
  }

  /** Sorts in place, by exchanges of inverted pairs, no more of them than the input has inversions. */
  method Sort(val: array<int>) returns (ghost trace: seq<Pair>)
    modifies val
    ensures Ascending(val[..])
    ensures multiset(val[..]) == multiset(old(val[..]))
    ensures Reached(old(val[..]), val[..], trace)
    ensures |trace| <= Inversions(old(val[..])) == |InvertedPairs(old(val[..]))|
  {
    ghost var s := val[..];
    trace := [];
    var i := val.Length - 1;
    assert Reached(s, val[..], trace) && SortedAbove(val[..], i);
    hide Reached, SortedAbove;
    while i > 0
      invariant -1 <= i < val.Length
      invariant Reached(s, val[..], trace) && SortedAbove(val[..], i)
    {
      var j := i - 1;
      while j >= 0
        invariant -1 <= j < i
        invariant Reached(s, val[..], trace) && SortedAbove(val[..], i) && TopOf(val[..], j, i)
      {
        if val[i] < val[j] {
          ReachedStep(s, val[..], trace, j, i);
          ExchangeKeeps(val[..], j, i);
          Swap(val, j, i);
          trace := trace + [(j, i)];
        }
        j := j - 1;
      }
      PassDone(val[..], i);
      i := i - 1;
    }
    SortedWhole(s, val[..], trace, i);
    InversionsArePairs(s);
  }

  lemma SortedWhole(s: seq<int>, t: seq<int>, trace: seq<Pair>, i: int)
    requires i <= 0 && SortedAbove(t, i) && Reached(s, t, trace)
    ensures Ascending(t) && multiset(t) == multiset(s) && |trace| <= Inversions(s)
  {
    ExchangesBounded(s, trace);
  }
}
