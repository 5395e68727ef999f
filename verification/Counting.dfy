/** What the three bounded buffers share: roles, sums over the threads, and the histogram. */
module Counting {

  datatype Role = Producer | Consumer

  function Delta(r: Role): int { if r.Producer? then 1 else -1 }

  /** MAX_ITEMS and NUM_ITERATIONS. */
  datatype Config = Config(max: nat, iterations: nat)

  function Sum<T>(ts: seq<T>, w: T -> int): int
  {
    if ts == [] then 0 else w(ts[0]) + Sum(ts[1..], w)
  }

  lemma {:induction false} SumUpdate<T>(ts: seq<T>, k: nat, t: T, w: T -> int)
    requires k < |ts|
    ensures Sum(ts[k := t], w) == Sum(ts, w) - w(ts[k]) + w(t)
  {
    if k == 0 {
      assert ts[0 := t][1..] == ts[1..];
    } else {
      assert ts[k := t][1..] == ts[1..][k - 1 := t];
      SumUpdate(ts[1..], k - 1, t, w);
    }
  }

  lemma {:induction false} SumNonNegative<T>(ts: seq<T>, w: T -> int)
    requires forall k :: 0 <= k < |ts| ==> w(ts[k]) >= 0
    ensures Sum(ts, w) >= 0
  {
    if ts != [] {
      SumNonNegative(ts[1..], w);
    }
  }

  lemma {:induction false} SumAtLeast<T>(ts: seq<T>, w: T -> int, k: nat)
    requires k < |ts| && forall j :: 0 <= j < |ts| ==> w(ts[j]) >= 0
    ensures w(ts[k]) <= Sum(ts, w)
  {
    if k == 0 {
      SumNonNegative(ts[1..], w);
    } else {
      SumAtLeast(ts[1..], w, k - 1);
    }
  }

  lemma {:induction false} SumAtLeastTwo<T>(ts: seq<T>, w: T -> int, j: nat, k: nat)
    requires j < k < |ts| && forall i :: 0 <= i < |ts| ==> w(ts[i]) >= 0
    ensures w(ts[j]) + w(ts[k]) <= Sum(ts, w)
  {
    if j == 0 {
      SumAtLeast(ts[1..], w, k - 1);
    } else {
      SumAtLeastTwo(ts[1..], w, j - 1, k - 1);
    }
  }

  lemma {:induction false} SumWitness<T>(ts: seq<T>, w: T -> int) returns (k: nat)
    requires Sum(ts, w) > 0
    ensures k < |ts| && w(ts[k]) > 0
  {
    if w(ts[0]) > 0 {
      k := 0;
    } else {
      var j := SumWitness(ts[1..], w);
      k := j + 1;
    }
  }

  lemma {:induction false} SumWitnessOther<T>(ts: seq<T>, w: T -> int, j: nat) returns (k: nat)
    requires j < |ts| && w(ts[j]) < 0 <= Sum(ts, w)
    ensures k < |ts| && w(ts[k]) > 0
  {
    if j == 0 {
      k := SumWitness(ts[1..], w);
      k := k + 1;
    } else if w(ts[0]) > 0 {
      k := 0;
    } else {
      k := SumWitnessOther(ts[1..], w, j - 1);
      k := k + 1;
    }
  }

  lemma {:induction false} SumZero<T>(ts: seq<T>, w: T -> int)
    requires forall k :: 0 <= k < |ts| ==> w(ts[k]) == 0
    ensures Sum(ts, w) == 0
  {
    if ts != [] {
      SumZero(ts[1..], w);
    }
  }

  /** A weight that is the sum of two others sums to the sum of their sums. */
  lemma {:induction false} SumPlus<T>(ts: seq<T>, u: T -> int, v: T -> int, w: T -> int)
    requires forall k :: 0 <= k < |ts| ==> w(ts[k]) == u(ts[k]) + v(ts[k])
    ensures Sum(ts, w) == Sum(ts, u) + Sum(ts, v)
  {
    if ts != [] {
      assert forall k :: 0 <= k < |ts[1..]| ==> ts[1..][k] == ts[k + 1];
      SumPlus(ts[1..], u, v, w);
    }
  }

  lemma {:induction false} SumScaled<T>(ts: seq<T>, u: T -> int, w: T -> int, f: int)
    requires forall k :: 0 <= k < |ts| ==> w(ts[k]) == f * u(ts[k])
    ensures Sum(ts, w) == f * Sum(ts, u)
  {
    if ts != [] {
      assert forall k :: 0 <= k < |ts[1..]| ==> ts[1..][k] == ts[k + 1];
      SumScaled(ts[1..], u, w, f);
    }
  }

  /** Weights of the same parity have sums of the same parity. */
  lemma {:induction false} SumParity<T>(ts: seq<T>, u: T -> int, v: T -> int)
    requires forall k :: 0 <= k < |ts| ==> (u(ts[k]) - v(ts[k])) % 2 == 0
    ensures (Sum(ts, u) - Sum(ts, v)) % 2 == 0
  {
    if ts != [] {
      assert forall k :: 0 <= k < |ts[1..]| ==> ts[1..][k] == ts[k + 1];
      SumParity(ts[1..], u, v);
    }
  }

  // ---------------------------------------------------------------- the surplus

  /** What all producers add less what all consumers take, by the signs of the threads' roles. */
  function Surplus<T>(c: Config, ts: seq<T>, sign: T -> int): int
  {
    Sum(ts, sign) * c.iterations
  }

  /** The surplus, which main's thread counts make 0, can be left in the buffer. */
  predicate Fits<T>(c: Config, ts: seq<T>, sign: T -> int)
  {
    0 <= Surplus(c, ts, sign) <= c.max
  }

  /** How far the threads' net changes so far are, in all, from the final ones. */
  lemma {:induction false} SurplusLeft<T>(c: Config, ts: seq<T>, net: T -> int, sign: T -> int, short: T -> int, owed: T -> int)
    requires forall k :: 0 <= k < |ts| ==>
      short(ts[k]) == net(ts[k]) - c.iterations * sign(ts[k]) && owed(ts[k]) == -short(ts[k])
    ensures Sum(ts, short) == Sum(ts, net) - Surplus(c, ts, sign)
    ensures Sum(ts, owed) == Surplus(c, ts, sign) - Sum(ts, net)
  {
    if ts != [] {
      assert forall k :: 0 <= k < |ts[1..]| ==> ts[1..][k] == ts[k + 1];
      SurplusLeft(c, ts[1..], net, sign, short, owed);
    }
  }

  // ---------------------------------------------------------------- the histogram

  /** The total of the histogram, which main computes. */
  function Total(h: seq<int>): int
  {
    if h == [] then 0 else Total(h[..|h| - 1]) + h[|h| - 1]
  }

  /** The sum over even indices less the sum over odd ones. */
  function Alternating(h: seq<int>): int
  {
    if h == [] then 0 else Alternating(h[..|h| - 1]) + (if |h| % 2 == 1 then h[|h| - 1] else -h[|h| - 1])
  }

  function Sign(i: int): int { if i % 2 == 0 then 1 else -1 }

  lemma {:induction false} Record(h: seq<int>, i: nat)
    requires i < |h|
    ensures Total(h[i := h[i] + 1]) == Total(h) + 1
    ensures Alternating(h[i := h[i] + 1]) == Alternating(h) + Sign(i)
  {
    var n := |h| - 1;
    var h' := h[i := h[i] + 1];
    if i == n {
      assert h'[..n] == h[..n];
    } else {
      assert h'[..n] == h[..n][i := h[..n][i] + 1];
      Record(h[..n], i);
    }
  }

  lemma {:induction false} EmptyHistogram(h: seq<int>)
    requires forall k :: 0 <= k < |h| ==> h[k] == 0
    ensures Total(h) == 0 && Alternating(h) == 0
  {
    if h != [] {
      EmptyHistogram(h[..|h| - 1]);
    }
  }

  /** The alternating sum after so many entries at indices that alternate in parity, the first one odd. */
  function Level(entries: int): int { -(entries % 2) }

  lemma AlternationStep(items: int, entries: int)
    requires (items - entries - 1) % 2 == 0
    ensures Level(entries) + Sign(items) == Level(entries + 1)
  {
  }

  // ---------------------------------------------------------------- what happens in a run

  /** The steps of a run at which something happens. */
  ghost function StepsOf<S>(run: seq<S>, event: (S, S) -> bool): set<nat>
  {
    set n: nat | n < |run| && Occurs(run, event, n)
  }

  predicate Occurs<S>(run: seq<S>, event: (S, S) -> bool, n: nat)
  {
    n + 1 < |run| && event(run[n], run[n + 1])
  }

  ghost function Happened<S>(run: seq<S>, event: (S, S) -> bool): nat
  {
    |StepsOf(run, event)|
  }

  lemma HappenedFirst<S>(s: S, event: (S, S) -> bool)
    ensures Happened([s], event) == 0
  {
    assert StepsOf([s], event) == {};
  }

  lemma HappenedNext<S>(run: seq<S>, s: S, event: (S, S) -> bool)
    requires run != []
    ensures Happened(run + [s], event) == Happened(run, event) + if event(run[|run| - 1], s) then 1 else 0
  {
    var n := |run| - 1;
    assert StepsOf(run + [s], event) == StepsOf(run, event) + if event(run[n], s) then {n} else {};
  }

  /** A quantity that starts at nothing and changes by one exactly at the event's steps counts them. */
  lemma {:induction false} CountsEvents<S>(run: seq<S>, q: S -> int, event: (S, S) -> bool)
    requires run != [] && q(run[0]) == 0
    requires forall n :: 0 <= n && n + 1 < |run| ==> q(run[n + 1]) == q(run[n]) + if event(run[n], run[n + 1]) then 1 else 0
    ensures q(run[|run| - 1]) == Happened(run, event)
    decreases |run|
  {
    var n := |run| - 1;
    var rest := run[..n];
    if n == 0 {
      assert run == [run[0]];
      HappenedFirst(run[0], event);
    } else {
      assert run == rest + [run[n]];
      forall m | 0 <= m && m + 1 < |rest| ensures q(rest[m + 1]) == q(rest[m]) + if event(rest[m], rest[m + 1]) then 1 else 0 {
        assert rest[m] == run[m] && rest[m + 1] == run[m + 1];
      }
      CountsEvents(rest, q, event);
      HappenedNext(rest, run[n], event);
      assert n - 1 >= 0 && n - 1 + 1 < |run|;
    }
  }
}
