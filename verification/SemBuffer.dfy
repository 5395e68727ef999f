/**
 * The bounded buffer on three semaphores (a9/pc_sem.c), as a transition system.
 * Any number of producers and consumers, iterations and places; a step is one access to shared state.
 */
module SemBuffer {
  import opened Counting

  /** Where a thread is: about to run its loop test, one of the statements of its loop body, or finished. */
  datatype Pc = Test | WaitRoom | Lock | LoadItems | StoreItems | LoadHist | StoreHist | Unlock | Post | Done

  /** A thread with its loop index and the register its current read-modify-write uses. */
  datatype Thread = Thread(role: Role, pc: Pc, i: nat, tmp: int)

  /** fault records a histogram access out of bounds. */
  datatype State = State(empty: nat, full: nat, mutex: nat, items: int, hist: seq<int>, threads: seq<Thread>, fault: bool)

  predicate Init(c: Config, s: State)
  {
    && s.empty == c.max && s.full == 0 && s.mutex == 1 && s.items == 0 && !s.fault
    && |s.hist| == c.max + 1 && (forall k :: 0 <= k < |s.hist| ==> s.hist[k] == 0)
    && forall k :: 0 <= k < |s.threads| ==> s.threads[k].pc == Test && s.threads[k].i == 0
  }

  /** A semaphore wait is possible only when the semaphore is positive; every other statement always is. */
  predicate Enabled(s: State, k: nat)
  {
    k < |s.threads| &&
    var t := s.threads[k];
    match t.pc
    case WaitRoom => if t.role.Producer? then s.empty > 0 else s.full > 0
    case Lock => s.mutex > 0
    case Done => false
    case _ => true
  }

  function Move(s: State, k: nat, t: Thread): State
    requires k < |s.threads|
  {
    s.(threads := s.threads[k := t])
  }

  function Do(c: Config, s: State, k: nat): State
    requires Enabled(s, k)
  {
    var t := s.threads[k];
    match t.pc
    case Test => Move(s, k, t.(pc := if t.i < c.iterations then WaitRoom else Done))
    case WaitRoom =>
      var u := Move(s, k, t.(pc := Lock));
      if t.role.Producer? then u.(empty := s.empty - 1) else u.(full := s.full - 1)
    case Lock => Move(s, k, t.(pc := LoadItems)).(mutex := s.mutex - 1)
    case LoadItems => Move(s, k, t.(pc := StoreItems, tmp := s.items))
    case StoreItems => Move(s, k, t.(pc := LoadHist)).(items := t.tmp + Delta(t.role))
    case LoadHist =>
      if 0 <= s.items < |s.hist| then Move(s, k, t.(pc := StoreHist, tmp := s.hist[s.items])) else s.(fault := true)
    case StoreHist =>
      if 0 <= s.items < |s.hist| then Move(s, k, t.(pc := Unlock)).(hist := s.hist[s.items := t.tmp + 1])
      else s.(fault := true)
    case Unlock => Move(s, k, t.(pc := Post)).(mutex := s.mutex + 1)
    case Post =>
      var u := Move(s, k, t.(pc := Test, i := t.i + 1));
      if t.role.Producer? then u.(full := s.full + 1) else u.(empty := s.empty + 1)
  }

  // ---------------------------------------------------------------- what each thread contributes

  predicate Critical(p: Pc)
  {
    p.LoadItems? || p.StoreItems? || p.LoadHist? || p.StoreHist? || p.Unlock?
  }

  /** Past the wait on its room semaphore, before the post on the other one. */
  function InFlight(t: Thread): int { if t.pc.Lock? || Critical(t.pc) || t.pc.Post? then 1 else 0 }

  function InCritical(t: Thread): int { if Critical(t.pc) then 1 else 0 }

  predicate Counted(p: Pc) { p.LoadHist? || p.StoreHist? || p.Unlock? || p.Post? }

  /** Its share of items not accounted for by full. */
  function Pending(t: Thread): int
  {
    if t.role.Producer? then if Counted(t.pc) then 1 else 0
    else if t.pc.Lock? || t.pc.LoadItems? || t.pc.StoreItems? then 1 else 0
  }

  /** Updates of items so far. */
  function Updates(t: Thread): int { t.i + if Counted(t.pc) then 1 else 0 }

  /** The net change to items so far. */
  function Net(t: Thread): int { if t.role.Producer? then Updates(t) else -Updates(t) }

  /** Histogram entries made so far. */
  function Recorded(t: Thread): int { t.i + if t.pc.Unlock? || t.pc.Post? then 1 else 0 }

  function Index(p: Pc): nat
  {
    match p
    case Test => 0 case WaitRoom => 1 case Lock => 2 case LoadItems => 3 case StoreItems => 4
    case LoadHist => 5 case StoreHist => 6 case Unlock => 7 case Post => 8 case Done => 9
  }

  /** Steps left to take. */
  function Left(c: Config): Thread -> int
  {
    (t: Thread) => if t.pc.Done? then 0 else 9 * (c.iterations - t.i) + 1 - Index(t.pc)
  }

  // ---------------------------------------------------------------- the invariant

  predicate ThreadOk(c: Config, s: State, t: Thread)
  {
    && t.i <= c.iterations
    && (t.pc.Done? ==> t.i == c.iterations)
    && (!t.pc.Done? && !t.pc.Test? ==> t.i < c.iterations)
    && (t.pc.StoreItems? ==> t.tmp == s.items)
    && (t.pc.StoreHist? ==> 0 <= s.items < |s.hist| && t.tmp == s.hist[s.items])
  }

  ghost predicate ThreadsOk(c: Config, s: State)
  {
    forall k :: 0 <= k < |s.threads| ==> ThreadOk(c, s, s.threads[k])
  }

  /** The conservation laws. */
  ghost predicate Conserved(c: Config, s: State)
  {
    && s.empty + s.full + Sum(s.threads, InFlight) == c.max
    && s.items == s.full + Sum(s.threads, Pending)
    && s.mutex + Sum(s.threads, InCritical) == 1
    && s.items == Sum(s.threads, Net)
  }

  ghost predicate HistogramOk(c: Config, s: State)
  {
    && |s.hist| == c.max + 1 && !s.fault
    && Total(s.hist) == Sum(s.threads, Recorded)
    && Alternating(s.hist) == Level(Sum(s.threads, Recorded))
  }

  ghost predicate Inv(c: Config, s: State)
  {
    ThreadsOk(c, s) && Conserved(c, s) && HistogramOk(c, s)
  }

  lemma {:induction false} InitialSums(ts: seq<Thread>)
    requires forall k :: 0 <= k < |ts| ==> ts[k].pc == Test && ts[k].i == 0
    ensures Sum(ts, InFlight) == Sum(ts, Pending) == Sum(ts, InCritical) == Sum(ts, Net) == Sum(ts, Recorded) == 0
  {
    if ts != [] {
      InitialSums(ts[1..]);
    }
  }

  lemma InitInv(c: Config, s: State)
    requires Init(c, s)
    ensures Inv(c, s)
  {
    InitialSums(s.threads);
    EmptyHistogram(s.hist);
  }

  /** No two threads are in their critical sections. */
  lemma MutualExclusion(c: Config, s: State, j: nat, k: nat)
    requires Conserved(c, s) && j < |s.threads| && k < |s.threads| && j != k
    ensures !(Critical(s.threads[j].pc) && Critical(s.threads[k].pc))
  {
    if j < k {
      SumAtLeastTwo(s.threads, InCritical, j, k);
    } else {
      SumAtLeastTwo(s.threads, InCritical, k, j);
    }
  }

  /** Any number of threads in any roles can begin. */
  function Begin(c: Config, roles: seq<Role>): (s: State)
    ensures Init(c, s) && |s.threads| == |roles| && forall k :: 0 <= k < |roles| ==> s.threads[k].role == roles[k]
  {
    State(c.max, 0, 1, 0, seq(c.max + 1, _ => 0),
      seq(|roles|, k requires 0 <= k < |roles| => Thread(roles[k], Test, 0, 0)), false)
  }

  /** A thread is held up exactly when it is done, its room semaphore is 0, or another thread is in its critical section. */
  lemma HeldUp(c: Config, s: State, k: nat)
    requires Inv(c, s) && k < |s.threads|
    ensures var t := s.threads[k];
      !Enabled(s, k) <==>
        || t.pc.Done?
        || (t.pc.WaitRoom? && if t.role.Producer? then s.empty == 0 else s.full == 0)
        || (t.pc.Lock? && exists j :: 0 <= j < |s.threads| && j != k && Critical(s.threads[j].pc))
  {
    assert Conserved(c, s);
    hide Inv, Sum;
    SumNonNegative(s.threads, InCritical);
    if s.threads[k].pc.Lock? {
      if s.mutex == 0 {
        var j := SumWitness(s.threads, InCritical);
      }
      forall j | 0 <= j < |s.threads| && Critical(s.threads[j].pc) ensures s.mutex == 0 {
        SumAtLeast(s.threads, InCritical, j);
      }
    }
  }

  /** The buffer never under- or overflows. */
  lemma ItemsInRange(c: Config, s: State)
    requires Conserved(c, s)
    ensures 0 <= s.items <= c.max
    ensures forall k :: 0 <= k < |s.threads| && s.threads[k].pc.StoreItems? ==> 0 <= s.items + Delta(s.threads[k].role) <= c.max
  {
    SumNonNegative(s.threads, Pending);
    SumPlus(s.threads, Pending, Idle, InFlight);
    SumNonNegative(s.threads, Idle);
    forall k | 0 <= k < |s.threads| && s.threads[k].pc.StoreItems?
      ensures 0 <= s.items + Delta(s.threads[k].role) <= c.max
    {
      SumAtLeast(s.threads, Pending, k);
      SumAtLeast(s.threads, Idle, k);
    }
  }

  /** In flight with no item pending. */
  function Idle(t: Thread): int { InFlight(t) - Pending(t) }

  /** A step moves one thread, and never touches the histogram outside its bounds. */
  lemma NoFault(c: Config, s: State, k: nat)
    requires Inv(c, s) && Enabled(s, k)
    ensures var s' := Do(c, s, k);
      !s'.fault && |s'.hist| == |s.hist| && |s'.threads| == |s.threads| && s'.threads == s.threads[k := s'.threads[k]]
  {
    hide Sum;
    ItemsInRange(c, s);
    assert ThreadOk(c, s, s.threads[k]);
  }

  /** What one step does to the shared variables is what it does to the thread's part in the sums. */
  lemma ThreadConserved(c: Config, s: State, k: nat)
    requires Enabled(s, k) && ThreadOk(c, s, s.threads[k])
    requires var s' := Do(c, s, k); !s'.fault && |s'.threads| == |s.threads|
    ensures var s', t, t' := Do(c, s, k), s.threads[k], Do(c, s, k).threads[k];
      && s'.empty + s'.full + InFlight(t') == s.empty + s.full + InFlight(t)
      && s'.mutex + InCritical(t') == s.mutex + InCritical(t)
      && s'.items - s'.full - Pending(t') == s.items - s.full - Pending(t)
      && s'.items - Net(t') == s.items - Net(t)
  {
  }

  lemma StepConserved(c: Config, s: State, k: nat)
    requires Inv(c, s) && Enabled(s, k)
    ensures Conserved(c, Do(c, s, k))
  {
    NoFault(c, s, k);
    assert Conserved(c, s) && ThreadOk(c, s, s.threads[k]);
    ThreadConserved(c, s, k);
    hide Do, Sum, Inv, InFlight, InCritical, Pending, Net;
    var t := Do(c, s, k).threads[k];
    SumUpdate(s.threads, k, t, InFlight);
    SumUpdate(s.threads, k, t, InCritical);
    SumUpdate(s.threads, k, t, Pending);
    SumUpdate(s.threads, k, t, Net);
  }

  lemma StepThreads(c: Config, s: State, k: nat)
    requires Inv(c, s) && Enabled(s, k)
    ensures ThreadsOk(c, Do(c, s, k))
  {
    var s' := Do(c, s, k);
    ItemsInRange(c, s);
    forall j | 0 <= j < |s'.threads| ensures ThreadOk(c, s', s'.threads[j]) {
      assert ThreadOk(c, s, s.threads[j]) && ThreadOk(c, s, s.threads[k]);
      if j != k {
        MutualExclusion(c, s, j, k);
      }
    }
  }

  /** The histogram entry about to be made has the parity of the number of entries before it, plus one. */
  lemma EntryParity(c: Config, s: State, k: nat)
    requires Inv(c, s) && k < |s.threads| && s.threads[k].pc.StoreHist?
    ensures (s.items - Sum(s.threads, Recorded) - 1) % 2 == 0
  {
    assert s.items == Sum(s.threads, Net);
    hide Sum, Net, Updates;
    OneUnrecorded(c, s, k);
    UpdatesParity(s.threads);
    assert s.items - Sum(s.threads, Recorded) - 1 == s.items - Sum(s.threads, Updates);
  }

  lemma UpdatesParity(ts: seq<Thread>)
    ensures (Sum(ts, Net) - Sum(ts, Updates)) % 2 == 0
    ensures Sum(ts, Updates) == Sum(ts, Recorded) + Sum(ts, Unrecorded)
  {
    hide Sum;
    SumParity(ts, Net, Updates);
    SumPlus(ts, Recorded, Unrecorded, Updates);
  }

  /** Only the thread that holds the lock can be between its update and its histogram entry. */
  lemma OneUnrecorded(c: Config, s: State, k: nat)
    requires Conserved(c, s) && k < |s.threads| && s.threads[k].pc.StoreHist?
    ensures Sum(s.threads, Unrecorded) == 1
  {
    hide Sum;
    SumAtLeast(s.threads, Unrecorded, k);
    SumPlus(s.threads, Unrecorded, NotUnrecorded, InCritical);
    SumNonNegative(s.threads, NotUnrecorded);
  }

  function Unrecorded(t: Thread): int { if t.pc.LoadHist? || t.pc.StoreHist? then 1 else 0 }

  function NotUnrecorded(t: Thread): int { InCritical(t) - Unrecorded(t) }

  lemma EntryHistogram(c: Config, s: State, k: nat)
    requires Inv(c, s) && k < |s.threads| && s.threads[k].pc.StoreHist?
    ensures HistogramOk(c, Do(c, s, k))
  {
    NoFault(c, s, k);
    SumUpdate(s.threads, k, Do(c, s, k).threads[k], Recorded);
    assert HistogramOk(c, s) && ThreadOk(c, s, s.threads[k]);
    EntryParity(c, s, k);
    Record(s.hist, s.items);
    AlternationStep(s.items, Sum(s.threads, Recorded));
    hide Sum, Sign, Level, Total, Alternating, Inv, ThreadsOk, Conserved;
  }

  lemma StepHistogram(c: Config, s: State, k: nat)
    requires Inv(c, s) && Enabled(s, k)
    ensures HistogramOk(c, Do(c, s, k))
  {
    if s.threads[k].pc.StoreHist? {
      EntryHistogram(c, s, k);
    } else {
      NoFault(c, s, k);
      SumUpdate(s.threads, k, Do(c, s, k).threads[k], Recorded);
      assert HistogramOk(c, s);
      hide Sum, Level, Total, Alternating, Inv;
    }
  }

  lemma StepInv(c: Config, s: State, k: nat)
    requires Inv(c, s) && Enabled(s, k)
    ensures Inv(c, Do(c, s, k))
  {
    StepConserved(c, s, k);
    StepThreads(c, s, k);
    StepHistogram(c, s, k);
  }

  // ---------------------------------------------------------------- runs

  /** A run: the states passed through, and the thread that takes each step. */
  ghost predicate IsRun(c: Config, run: seq<State>, schedule: seq<nat>)
  {
    && |run| == |schedule| + 1 && Init(c, run[0])
    && forall n :: 0 <= n < |schedule| ==> Enabled(run[n], schedule[n]) && run[n + 1] == Do(c, run[n], schedule[n])
  }

  lemma {:induction false} RunInv(c: Config, run: seq<State>, schedule: seq<nat>, n: nat)
    requires IsRun(c, run, schedule) && n < |run|
    ensures Inv(c, run[n])
    ensures |run[n].threads| == |run[0].threads|
    ensures Sum(run[n].threads, Left(c)) + n == |run[0].threads| * (9 * c.iterations + 1)
    ensures Sum(run[n].threads, RoleSign) == Sum(run[0].threads, RoleSign)
  {
    if n == 0 {
      InitInv(c, run[0]);
      InitialLeft(c, run[0].threads);
    } else {
      RunInv(c, run, schedule, n - 1);
      assert Enabled(run[n - 1], schedule[n - 1]) && run[n] == Do(c, run[n - 1], schedule[n - 1]);
      StepInv(c, run[n - 1], schedule[n - 1]);
      StepLeft(c, run[n - 1], schedule[n - 1]);
    }
  }

  /** What every reachable state satisfies: bounds, no histogram access out of range, mutual exclusion. */
  ghost predicate Safe(c: Config, s: State)
  {
    && 0 <= s.items <= c.max && !s.fault
    && forall j, k :: 0 <= j < k < |s.threads| ==> !(Critical(s.threads[j].pc) && Critical(s.threads[k].pc))
  }

  lemma AlwaysSafe(c: Config, run: seq<State>, schedule: seq<nat>, n: nat)
    requires IsRun(c, run, schedule) && n < |run|
    ensures Safe(c, run[n]) && Conserved(c, run[n]) && HistogramOk(c, run[n])
    ensures forall i :: 0 <= i <= c.max ==> Due(i)(run[n]) == Happened(run[..n + 1], Becomes(i))
  {
    RunInv(c, run, schedule, n);
    forall i | 0 <= i <= c.max ensures Due(i)(run[n]) == Happened(run[..n + 1], Becomes(i)) {
      HistogramCounts(c, run, schedule, n, i);
    }
    var s := run[n];
    ItemsInRange(c, s);
    forall j, k | 0 <= j < k < |s.threads| ensures !(Critical(s.threads[j].pc) && Critical(s.threads[k].pc)) {
      MutualExclusion(c, s, j, k);
    }
  }

  lemma {:induction false} InitialLeft(c: Config, ts: seq<Thread>)
    requires forall k :: 0 <= k < |ts| ==> ts[k].pc == Test && ts[k].i == 0
    ensures Sum(ts, Left(c)) == |ts| * (9 * c.iterations + 1)
  {
    if ts != [] {
      InitialLeft(c, ts[1..]);
    }
  }

  lemma ThreadLeft(c: Config, s: State, k: nat)
    requires Enabled(s, k) && ThreadOk(c, s, s.threads[k]) && !Do(c, s, k).fault && |Do(c, s, k).threads| == |s.threads|
    ensures Left(c)(Do(c, s, k).threads[k]) == Left(c)(s.threads[k]) - 1
    ensures Do(c, s, k).threads[k].role == s.threads[k].role
  {
  }

  /** Every step uses up exactly one of the steps left, and no thread changes its role. */
  lemma StepLeft(c: Config, s: State, k: nat)
    requires Inv(c, s) && Enabled(s, k)
    ensures Sum(Do(c, s, k).threads, Left(c)) == Sum(s.threads, Left(c)) - 1
    ensures Sum(Do(c, s, k).threads, RoleSign) == Sum(s.threads, RoleSign)
  {
    NoFault(c, s, k);
    assert ThreadOk(c, s, s.threads[k]);
    ThreadLeft(c, s, k);
    var t := Do(c, s, k).threads[k];
    SumUpdate(s.threads, k, t, Left(c));
    SumUpdate(s.threads, k, t, RoleSign);
    hide Do, Sum, Inv;
  }

  function RoleSign(t: Thread): int { Delta(t.role) }

  predicate AllDone(s: State)
  {
    forall k :: 0 <= k < |s.threads| ==> s.threads[k].pc.Done?
  }

  /** How far a thread's net change is from its final one. */
  function Short(c: Config): Thread -> int
  {
    (t: Thread) => Net(t) - c.iterations * Delta(t.role)
  }

  function Owed(c: Config): Thread -> int
  {
    (t: Thread) => c.iterations * Delta(t.role) - Net(t)
  }

  lemma ShortSum(c: Config, s: State)
    requires Conserved(c, s)
    ensures Sum(s.threads, Short(c)) == s.items - Surplus(c, s.threads, RoleSign)
    ensures Sum(s.threads, Owed(c)) == Surplus(c, s.threads, RoleSign) - s.items
  {
    SurplusLeft(c, s.threads, Net, RoleSign, Short(c), Owed(c));
  }

  /** With no thread busy, nothing is in flight. */
  lemma AllWaiting(c: Config, s: State)
    requires Conserved(c, s)
    requires forall k :: 0 <= k < |s.threads| ==> s.threads[k].pc.WaitRoom? || s.threads[k].pc.Done?
    ensures s.empty + s.full == c.max && s.items == s.full
  {
    SumZero(s.threads, InFlight);
    SumZero(s.threads, Pending);
  }

  /** In every reachable state with a thread unfinished, some thread can take a step. */
  lemma NoDeadlock(c: Config, s: State) returns (k: nat)
    requires Inv(c, s) && c.max > 0 && Fits(c, s.threads, RoleSign) && !AllDone(s)
    ensures Enabled(s, k)
  {
    SumNonNegative(s.threads, InCritical);
    if Sum(s.threads, InCritical) > 0 {
      k := SumWitness(s.threads, InCritical);
    } else if j: nat :| j < |s.threads| && !s.threads[j].pc.WaitRoom? && !s.threads[j].pc.Done? {
      k := j;
    } else {
      AllWaiting(c, s);
      ShortSum(c, s);
      var j: nat :| j < |s.threads| && !s.threads[j].pc.Done?;
      k := WhoseTurn(c, s, j);
    }
  }

  /** Thread j waits for room: if it has none, the other side has, and is not finished. */
  lemma WhoseTurn(c: Config, s: State, j: nat) returns (k: nat)
    requires ThreadsOk(c, s) && c.max > 0 && Fits(c, s.threads, RoleSign)
    requires forall k :: 0 <= k < |s.threads| ==> s.threads[k].pc.WaitRoom? || s.threads[k].pc.Done?
    requires s.empty + s.full == c.max && s.items == s.full
    requires Sum(s.threads, Short(c)) == s.items - Surplus(c, s.threads, RoleSign) && Sum(s.threads, Owed(c)) == Surplus(c, s.threads, RoleSign) - s.items
    requires j < |s.threads| && s.threads[j].pc.WaitRoom?
    ensures Enabled(s, k)
  {
    assert forall i :: 0 <= i < |s.threads| ==> ThreadOk(c, s, s.threads[i]);
    hide Sum, ThreadsOk, Surplus;
    if Enabled(s, j) {
      k := j;
    } else {
      k := SumWitnessOther(s.threads, if s.threads[j].role.Producer? then Short(c) else Owed(c), j);
      assert ThreadOk(c, s, s.threads[k]);
    }
  }

  lemma RunNotStuck(c: Config, run: seq<State>, schedule: seq<nat>, n: nat) returns (k: nat)
    requires IsRun(c, run, schedule) && n < |run| && c.max > 0 && Fits(c, run[0].threads, RoleSign) && !AllDone(run[n])
    ensures Enabled(run[n], k)
  {
    RunInv(c, run, schedule, n);
    k := NoDeadlock(c, run[n]);
  }

  /** A run that can go no further has finished every thread exactly when the surplus fits into the buffer. */
  lemma CompletesIff(c: Config, run: seq<State>, schedule: seq<nat>)
    requires IsRun(c, run, schedule) && c.max > 0 && forall k :: !Enabled(run[|schedule|], k)
    ensures AllDone(run[|schedule|]) <==> Fits(c, run[0].threads, RoleSign)
  {
    RunInv(c, run, schedule, |schedule|);
    if AllDone(run[|schedule|]) {
      DoneItems(c, run[|schedule|]);
      ItemsInRange(c, run[|schedule|]);
    } else if Fits(c, run[0].threads, RoleSign) {
      var k := RunNotStuck(c, run, schedule, |schedule|);
      assert false;
    }
  }

  lemma DoneItems(c: Config, s: State)
    requires Inv(c, s) && AllDone(s)
    ensures s.items == Surplus(c, s.threads, RoleSign)
    ensures forall k :: 0 <= k < |s.threads| ==> s.threads[k].i == c.iterations
  {
    forall k | 0 <= k < |s.threads| ensures s.threads[k].i == c.iterations {
      assert ThreadOk(c, s, s.threads[k]);
    }
    ShortSum(c, s);
    SumZero(s.threads, Short(c));
  }

  lemma {:induction false} LeftAtEnd(c: Config, ts: seq<Thread>)
    requires forall k :: 0 <= k < |ts| ==> ts[k].i <= c.iterations && (!ts[k].pc.Done? && !ts[k].pc.Test? ==> ts[k].i < c.iterations)
    ensures Sum(ts, Left(c)) >= 0
    ensures Sum(ts, Left(c)) == 0 <==> forall k :: 0 <= k < |ts| ==> ts[k].pc.Done?
  {
    if ts != [] {
      LeftAtEnd(c, ts[1..]);
      assert Left(c)(ts[0]) >= 0 && (Left(c)(ts[0]) == 0 <==> ts[0].pc.Done?);
      assert (forall k :: 0 <= k < |ts| ==> ts[k].pc.Done?) ==> forall k :: 0 <= k < |ts[1..]| ==> ts[1..][k] == ts[k + 1];
    }
  }

  /** Every run has at most (9 NUM_ITERATIONS + 1) steps per thread, and is complete exactly when it has that many. */
  lemma RunLength(c: Config, run: seq<State>, schedule: seq<nat>)
    requires IsRun(c, run, schedule)
    ensures |schedule| <= |run[0].threads| * (9 * c.iterations + 1)
    ensures AllDone(run[|schedule|]) <==> |schedule| == |run[0].threads| * (9 * c.iterations + 1)
  {
    var n := |schedule|;
    RunInv(c, run, schedule, n);
    forall k | 0 <= k < |run[n].threads| ensures ThreadOk(c, run[n], run[n].threads[k]) {
    }
    LeftAtEnd(c, run[n].threads);
  }

  lemma {:induction false} DoneRecorded(c: Config, ts: seq<Thread>)
    requires forall k :: 0 <= k < |ts| ==> ts[k].pc.Done? && ts[k].i == c.iterations
    ensures Sum(ts, Recorded) == |ts| * c.iterations
  {
    if ts != [] {
      DoneRecorded(c, ts[1..]);
    }
  }

  // ---------------------------------------------------------------- what the histogram counts

  /** items becomes i. */
  function Becomes(i: int): (State, State) -> bool
  {
    (s: State, s': State) => s'.items == i && s.items != i
  }

  /** Entry i of the histogram and, while items is i, the entry about to be made. */
  function Due(i: int): State -> int
  {
    (s: State) => if 0 <= i < |s.hist| then s.hist[i] + (if s.items == i then Sum(s.threads, Unrecorded) else 0) else 0
  }

  /** A thread at its store to items is the only one in its critical section: no entry is due. */
  lemma NoneUnrecorded(c: Config, s: State, k: nat)
    requires Conserved(c, s) && k < |s.threads| && s.threads[k].pc.StoreItems?
    ensures Sum(s.threads, Unrecorded) == 0
  {
    hide Sum;
    SumNonNegative(s.threads, Unrecorded);
    SumPlus(s.threads, Unrecorded, NotUnrecorded, InCritical);
    SumAtLeast(s.threads, NotUnrecorded, k);
  }

  /** What a step does to the one entry, and to those that are due. */
  lemma StepDue(c: Config, s: State, k: nat, i: int)
    requires Inv(c, s) && Enabled(s, k) && 0 <= i <= c.max
    ensures Due(i)(Do(c, s, k)) == Due(i)(s) + if Becomes(i)(s, Do(c, s, k)) then 1 else 0
  {
    NoFault(c, s, k);
    assert ThreadOk(c, s, s.threads[k]);
    SumUpdate(s.threads, k, Do(c, s, k).threads[k], Unrecorded);
    if s.threads[k].pc.StoreItems? {
      NoneUnrecorded(c, s, k);
    }
    if s.threads[k].pc.StoreHist? {
      OneUnrecorded(c, s, k);
    }
    hide Sum, Inv;
  }

  /**
   * In every reachable state, entry i is the number of times items has become i, less the one entry a thread may
   * still have to make.
   */
  lemma HistogramCounts(c: Config, run: seq<State>, schedule: seq<nat>, n: nat, i: int)
    requires IsRun(c, run, schedule) && n < |run| && 0 <= i <= c.max
    ensures Due(i)(run[n]) == Happened(run[..n + 1], Becomes(i))
  {
    var r := run[..n + 1];
    InitialSums(run[0].threads);
    NoUnrecorded(run[0].threads);
    forall m | 0 <= m && m + 1 < |r| ensures Due(i)(r[m + 1]) == Due(i)(r[m]) + if Becomes(i)(r[m], r[m + 1]) then 1 else 0 {
      RunInv(c, run, schedule, m);
      assert Enabled(run[m], schedule[m]) && run[m + 1] == Do(c, run[m], schedule[m]);
      StepDue(c, run[m], schedule[m], i);
    }
    CountsEvents(r, Due(i), Becomes(i));
  }

  lemma NoUnrecorded(ts: seq<Thread>)
    requires forall k :: 0 <= k < |ts| ==> !ts[k].pc.LoadHist? && !ts[k].pc.StoreHist?
    ensures Sum(ts, Unrecorded) == 0
  {
    SumZero(ts, Unrecorded);
  }

  /**
   * At the end the buffer holds the surplus, the final assertion of main holds, each histogram entry is the number
   * of times items has become its index, and even and odd entries balance, but for one when the surplus is odd.
   */
  lemma Final(c: Config, run: seq<State>, schedule: seq<nat>)
    requires IsRun(c, run, schedule) && AllDone(run[|schedule|])
    ensures var s := run[|schedule|];
      && s.items == Surplus(c, run[0].threads, RoleSign) && Total(s.hist) == |run[0].threads| * c.iterations
      && Alternating(s.hist) == Level(s.items)
    ensures |run[|schedule|].hist| == c.max + 1
    ensures forall i :: 0 <= i <= c.max ==> run[|schedule|].hist[i] == Happened(run, Becomes(i))
  {
    var s := run[|schedule|];
    RunInv(c, run, schedule, |schedule|);
    DoneItems(c, s);
    DoneRecorded(c, s.threads);
    EndParity(c, s);
    assert run[..|schedule| + 1] == run;
    NoUnrecorded(s.threads);
    forall i | 0 <= i <= c.max ensures s.hist[i] == Happened(run, Becomes(i)) {
      HistogramCounts(c, run, schedule, |schedule|, i);
    }
  }

  lemma EndParity(c: Config, s: State)
    requires Conserved(c, s) && forall k :: 0 <= k < |s.threads| ==> s.threads[k].pc.Done?
    ensures Sum(s.threads, Recorded) % 2 == s.items % 2
  {
    SumParity(s.threads, Net, Recorded);
  }
}
