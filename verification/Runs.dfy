/** Runs of a deterministic machine: cycles repeated until one halts or fails. */
module Runs {

  datatype Outcome<+S, +E> = Running(s: S) | Halted(s: S) | Failed(e: E)

  function Run<S, E>(step: S -> Outcome<S, E>, s: S, n: nat): Outcome<S, E>
  {
    if n == 0 then Running(s) else
      match step(s)
      case Running(t) => Run(step, t, n - 1)
      case o => o
  }

  /** The machine passes through t when started in s. */
  ghost predicate Reaches<S, E>(step: S -> Outcome<S, E>, s: S, t: S)
  {
    exists n: nat :: Run(step, s, n) == Running(t)
  }

  ghost predicate HaltsIn<S, E>(step: S -> Outcome<S, E>, s: S, t: S)
  {
    exists n: nat :: Run(step, s, n) == Halted(t)
  }

  lemma {:induction false} RunAppend<S, E>(step: S -> Outcome<S, E>, s: S, m: nat, n: nat)
    requires Run(step, s, m).Running?
    ensures Run(step, s, m + n) == Run(step, Run(step, s, m).s, n)
  {
    if m > 0 {
      RunAppend(step, step(s).s, m - 1, n);
    }
  }

  lemma ReachesSelf<S, E>(step: S -> Outcome<S, E>, s: S)
    ensures Reaches(step, s, s)
  {
    assert Run(step, s, 0) == Running(s);
  }

  lemma ReachesOne<S, E>(step: S -> Outcome<S, E>, s: S, t: S)
    requires step(s) == Running(t)
    ensures Reaches(step, s, t)
  {
    assert Run(step, t, 0) == Running(t);
    assert Run(step, s, 1) == Running(t);
  }

  lemma ReachesTrans<S, E>(step: S -> Outcome<S, E>, s: S, t: S, u: S)
    requires Reaches(step, s, t) && Reaches(step, t, u)
    ensures Reaches(step, s, u)
  {
    var m: nat :| Run(step, s, m) == Running(t);
    var n: nat :| Run(step, t, n) == Running(u);
    RunAppend(step, s, m, n);
    assert Run(step, s, m + n) == Running(u);
  }

  lemma ReachesHalt<S, E>(step: S -> Outcome<S, E>, s: S, t: S, u: S)
    requires Reaches(step, s, t) && step(t) == Halted(u)
    ensures HaltsIn(step, s, u)
  {
    var n: nat :| Run(step, s, n) == Running(t);
    RunAppend(step, s, n, 1);
    assert Run(step, s, n + 1) == Halted(u);
  }

  lemma ReachesThenHalts<S, E>(step: S -> Outcome<S, E>, s: S, t: S, u: S)
    requires Reaches(step, s, t) && HaltsIn(step, t, u)
    ensures HaltsIn(step, s, u)
  {
    var m: nat :| Run(step, s, m) == Running(t);
    var n: nat :| Run(step, t, n) == Halted(u);
    RunAppend(step, s, m, n);
    assert Run(step, s, m + n) == Halted(u);
  }

  /** A machine halts at most once, so the final state of a run is unique. */
  lemma HaltUnique<S, E>(step: S -> Outcome<S, E>, s: S, t: S, u: S)
    requires HaltsIn(step, s, t) && HaltsIn(step, s, u)
    ensures t == u
  {
    var m: nat :| Run(step, s, m) == Halted(t);
    var n: nat :| Run(step, s, n) == Halted(u);
    SameHalt(step, s, m, n);
  }

  lemma {:induction false} SameHalt<S, E>(step: S -> Outcome<S, E>, s: S, m: nat, n: nat)
    requires Run(step, s, m).Halted? && Run(step, s, n).Halted?
    ensures Run(step, s, m) == Run(step, s, n)
  {
    if step(s).Running? {
      SameHalt(step, step(s).s, m - 1, n - 1);
    }
  }
}
