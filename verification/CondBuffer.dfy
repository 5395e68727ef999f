/**
 * The bounded buffer on a mutex and two condition variables (a9/pc_mutex_cond.c), as a transition system.
 * Any number of producers and consumers, iterations and places. A wait releases the mutex and sleeps; a signal
 * moves one sleeper, any one, to where it must take the mutex again before it re-tests.
 */
module CondBuffer {
  import opened Counting

  /**
   * Where a thread is: before mutex_lock; at the test of its for loop; at the test of its while loop; about to
   * count a wait; about to wait; asleep; signalled but without the mutex; at its three updates; before
   * mutex_unlock; finished.
   */
  datatype Pc =
    | Start | LoopTest | RoomTest | CountWait | Wait | Asleep | Woken | Change | Hist | Signal | Unlock | Done

  datatype Thread = Thread(role: Role, pc: Pc, i: nat)

  /** fault records a histogram access out of bounds. */
  datatype State = State(
    locked: bool, items: int, hist: seq<int>, producerWaits: nat, consumerWaits: nat, threads: seq<Thread>, fault: bool)

  predicate Init(c: Config, s: State)
  {
    && !s.locked && s.items == 0 && s.producerWaits == 0 && s.consumerWaits == 0 && !s.fault
    && |s.hist| == c.max + 1 && (forall k :: 0 <= k < |s.hist| ==> s.hist[k] == 0)
    && forall k :: 0 <= k < |s.threads| ==> s.threads[k].pc == Start && s.threads[k].i == 0
  }

  /** Thread w sleeps on the condition that a thread of role r signals. */
  predicate Sleeper(s: State, r: Role, w: nat)
  {
    w < |s.threads| && s.threads[w].role != r && s.threads[w].pc.Asleep?
  }

  /** Thread k can step; when it signals and there are sleepers, w is the one it wakes. */
  predicate Enabled(s: State, k: nat, w: nat)
  {
    k < |s.threads| &&
    match s.threads[k].pc
    case Start => !s.locked
    case Woken => !s.locked
    case Asleep => false
    case Done => false
    case Signal => Sleeper(s, s.threads[k].role, w) || forall j :: 0 <= j < |s.threads| ==> !Sleeper(s, s.threads[k].role, j)
    case _ => true
  }

  function Move(s: State, k: nat, t: Thread): State
    requires k < |s.threads|
  {
    s.(threads := s.threads[k := t])
  }

  predicate NoRoom(c: Config, s: State, r: Role)
  {
    if r.Producer? then s.items >= c.max else s.items <= 0
  }

  function Do(c: Config, s: State, k: nat, w: nat): State
    requires Enabled(s, k, w)
  {
    var t := s.threads[k];
    match t.pc
    case Start => Move(s, k, t.(pc := LoopTest)).(locked := true)
    case LoopTest => Move(s, k, t.(pc := if t.i < c.iterations then RoomTest else Unlock))
    case RoomTest => Move(s, k, t.(pc := if NoRoom(c, s, t.role) then CountWait else Change))
    case CountWait =>
      var u := Move(s, k, t.(pc := Wait));
      if t.role.Producer? then u.(producerWaits := s.producerWaits + 1) else u.(consumerWaits := s.consumerWaits + 1)
    case Wait => Move(s, k, t.(pc := Asleep)).(locked := false)
    case Woken => Move(s, k, t.(pc := RoomTest)).(locked := true)
    case Change => Move(s, k, t.(pc := Hist)).(items := s.items + Delta(t.role))
    case Hist =>
      if 0 <= s.items < |s.hist| then Move(s, k, t.(pc := Signal)).(hist := s.hist[s.items := s.hist[s.items] + 1])
      else s.(fault := true)
    case Signal =>
      var u := Move(s, k, t.(pc := LoopTest, i := t.i + 1));
      if Sleeper(s, t.role, w) then Move(u, w, s.threads[w].(pc := Woken)) else u
    case Unlock => Move(s, k, t.(pc := Done)).(locked := false)
  }

  // ---------------------------------------------------------------- what each thread contributes

  predicate Inside(p: Pc)
  {
    p.LoopTest? || p.RoomTest? || p.CountWait? || p.Wait? || p.Change? || p.Hist? || p.Signal? || p.Unlock?
  }

  function Holds(t: Thread): int { if Inside(t.pc) then 1 else 0 }

  function Updates(t: Thread): int { t.i + if t.pc.Hist? || t.pc.Signal? then 1 else 0 }

  function Net(t: Thread): int { if t.role.Producer? then Updates(t) else -Updates(t) }

  function Recorded(t: Thread): int { t.i + if t.pc.Signal? then 1 else 0 }

  function Sleeping(r: Role): Thread -> int
  {
    (t: Thread) => if t.role == r && t.pc.Asleep? then 1 else 0
  }

  /**
   * What lets a sleeper of role r go on: a thread of its role woken but not yet running, or with the mutex and
   * about to use a place; or a thread of the other role that has made a place and has yet to signal it.
   */
  function Credit(r: Role): Thread -> int
  {
    (t: Thread) =>
      if t.role == r then if t.pc.Woken? || t.pc.RoomTest? || t.pc.Change? then 1 else 0
      else if t.pc.Hist? || t.pc.Signal? then 1 else 0
  }

  /** Signals sent to role r so far, and waits of role r not yet signalled. */
  function Paid(r: Role): Thread -> int
  {
    (t: Thread) => if t.role != r then t.i else if t.pc.Wait? || t.pc.Asleep? then 1 else 0
  }

  function Position(p: Pc): nat
  {
    match p
    case Start => 5 case LoopTest => 4 case Woken => 4 case RoomTest => 3 case Unlock => 3 case CountWait => 2
    case Change => 2 case Wait => 1 case Hist => 1 case Asleep => 0 case Signal => 0 case Done => 0
  }

  /** A bound on the steps a thread has left, which a signal may raise by at most 4 for the thread it wakes. */
  function Left(c: Config): Thread -> int
  {
    (t: Thread) => 9 * (c.iterations - t.i) + Position(t.pc)
  }

  // ---------------------------------------------------------------- the invariant

  predicate ThreadOk(c: Config, s: State, t: Thread)
  {
    && t.i <= c.iterations
    && (t.pc.Unlock? || t.pc.Done? ==> t.i == c.iterations)
    && (!t.pc.Unlock? && !t.pc.Done? && !t.pc.Start? && !t.pc.LoopTest? ==> t.i < c.iterations)
    && (t.pc.Change? ==> !NoRoom(c, s, t.role))
    && (t.pc.CountWait? || t.pc.Wait? ==> NoRoom(c, s, t.role))
  }

  ghost predicate ThreadsOk(c: Config, s: State)
  {
    forall k :: 0 <= k < |s.threads| ==> ThreadOk(c, s, s.threads[k])
  }

  ghost predicate Conserved(c: Config, s: State)
  {
    && Sum(s.threads, Holds) == (if s.locked then 1 else 0)
    && s.items == Sum(s.threads, Net)
    && 0 <= s.items <= c.max
  }

  /** Places a thread of role r could use. */
  function Room(c: Config, s: State, r: Role): int { if r.Producer? then c.max - s.items else s.items }

  /** No lost wakeup: while a thread of role r sleeps, every place it could use is accounted for by a credit. */
  ghost predicate NoLostWakeup(c: Config, s: State, r: Role)
  {
    Sum(s.threads, Sleeping(r)) > 0 ==> Room(c, s, r) <= Sum(s.threads, Credit(r))
  }

  ghost predicate WaitsPaid(s: State)
  {
    s.producerWaits <= Sum(s.threads, Paid(Producer)) && s.consumerWaits <= Sum(s.threads, Paid(Consumer))
  }

  ghost predicate HistogramOk(c: Config, s: State)
  {
    && |s.hist| == c.max + 1 && !s.fault
    && Total(s.hist) == Sum(s.threads, Recorded)
    && Alternating(s.hist) == Level(Sum(s.threads, Recorded))
  }

  ghost predicate Inv(c: Config, s: State)
  {
    && ThreadsOk(c, s) && Conserved(c, s)
    && NoLostWakeup(c, s, Producer) && NoLostWakeup(c, s, Consumer)
    && WaitsPaid(s) && HistogramOk(c, s)
  }

  lemma {:induction false} InitialSums(ts: seq<Thread>, r: Role)
    requires forall k :: 0 <= k < |ts| ==> ts[k].pc == Start && ts[k].i == 0
    ensures Sum(ts, Holds) == Sum(ts, Net) == Sum(ts, Recorded) == 0
    ensures Sum(ts, Sleeping(r)) == Sum(ts, Paid(r)) == 0
  {
    if ts != [] {
      InitialSums(ts[1..], r);
    }
  }

  lemma InitInv(c: Config, s: State)
    requires Init(c, s)
    ensures Inv(c, s)
  {
    InitialSums(s.threads, Producer);
    InitialSums(s.threads, Consumer);
    EmptyHistogram(s.hist);
  }

  // ---------------------------------------------------------------- one step

  /** The sleeper a step of thread k wakes. */
  predicate Wakes(s: State, k: nat, w: nat)
  {
    k < |s.threads| && s.threads[k].pc.Signal? && Sleeper(s, s.threads[k].role, w)
  }

  /** What a step does to any sum over the threads. */
  lemma SumAfter(c: Config, s: State, k: nat, w: nat, f: Thread -> int)
    requires Enabled(s, k, w) && !Do(c, s, k, w).fault
    ensures var s' := Do(c, s, k, w);
      |s'.threads| == |s.threads| &&
      Sum(s'.threads, f) == Sum(s.threads, f) - f(s.threads[k]) + f(s'.threads[k])
        + if Wakes(s, k, w) then f(s.threads[w].(pc := Woken)) - f(s.threads[w]) else 0
  {
    var s' := Do(c, s, k, w);
    SumUpdate(s.threads, k, s'.threads[k], f);
    if Wakes(s, k, w) {
      SumUpdate(s.threads[k := s'.threads[k]], w, s.threads[w].(pc := Woken), f);
    }
  }

  lemma NoFault(c: Config, s: State, k: nat, w: nat)
    requires Inv(c, s) && Enabled(s, k, w)
    ensures !Do(c, s, k, w).fault && |Do(c, s, k, w).hist| == |s.hist|
  {
  }

  /** At most one thread holds the mutex. */
  lemma MutualExclusion(c: Config, s: State, j: nat, k: nat)
    requires Conserved(c, s) && j < |s.threads| && k < |s.threads| && j != k
    ensures !(Inside(s.threads[j].pc) && Inside(s.threads[k].pc))
  {
    if j < k {
      SumAtLeastTwo(s.threads, Holds, j, k);
    } else {
      SumAtLeastTwo(s.threads, Holds, k, j);
    }
  }

  lemma HolderLocks(c: Config, s: State, k: nat)
    requires Conserved(c, s) && k < |s.threads| && Inside(s.threads[k].pc)
    ensures s.locked
  {
    SumAtLeast(s.threads, Holds, k);
  }

  /** Any number of threads in any roles can begin. */
  function Begin(c: Config, roles: seq<Role>): (s: State)
    ensures Init(c, s) && |s.threads| == |roles| && forall k :: 0 <= k < |roles| ==> s.threads[k].role == roles[k]
  {
    State(false, 0, seq(c.max + 1, _ => 0), 0, 0,
      seq(|roles|, k requires 0 <= k < |roles| => Thread(roles[k], Start, 0)), false)
  }

  /** A thread is held up exactly when it is done, asleep, or at the mutex while another thread holds it. */
  lemma HeldUp(c: Config, s: State, k: nat)
    requires Inv(c, s) && k < |s.threads|
    ensures var t := s.threads[k];
      (forall w :: !Enabled(s, k, w)) <==>
        || t.pc.Done? || t.pc.Asleep?
        || ((t.pc.Start? || t.pc.Woken?) && exists j :: 0 <= j < |s.threads| && j != k && Inside(s.threads[j].pc))
  {
    assert Conserved(c, s);
    hide Inv, Sum;
    SumNonNegative(s.threads, Holds);
    if s.locked {
      var j := SumWitness(s.threads, Holds);
      assert Inside(s.threads[j].pc);
    }
    forall j | 0 <= j < |s.threads| && Inside(s.threads[j].pc) ensures s.locked {
      HolderLocks(c, s, j);
    }
    CanMove(s, k);
    hide Enabled;
  }

  lemma CanMove(s: State, k: nat)
    requires k < |s.threads|
    ensures var p := s.threads[k].pc;
      (exists w :: Enabled(s, k, w)) <==> !p.Done? && !p.Asleep? && (p.Start? || p.Woken? ==> !s.locked)
  {
    if w: nat :| Sleeper(s, s.threads[k].role, w) {
      assert Enabled(s, k, w) || !Enabled(s, k, 0);
    } else {
      assert Enabled(s, k, 0) || forall w :: !Enabled(s, k, w);
    }
  }

  /** A signal may wake any thread that sleeps on its condition, and only that one moves besides the signaller. */
  lemma AnySleeper(c: Config, s: State, k: nat, w: nat)
    requires k < |s.threads| && s.threads[k].pc.Signal? && Sleeper(s, s.threads[k].role, w)
    ensures Enabled(s, k, w) && Do(c, s, k, w).threads[w].pc.Woken?
    ensures forall j :: 0 <= j < |s.threads| && j != k && j != w ==> Do(c, s, k, w).threads[j] == s.threads[j]
  {
  }

  lemma StepThreads(c: Config, s: State, k: nat, w: nat)
    requires Inv(c, s) && Enabled(s, k, w)
    ensures ThreadsOk(c, Do(c, s, k, w))
  {
    var s' := Do(c, s, k, w);
    NoFault(c, s, k, w);
    forall j | 0 <= j < |s'.threads| ensures ThreadOk(c, s', s'.threads[j]) {
      assert ThreadOk(c, s, s.threads[j]) && ThreadOk(c, s, s.threads[k]);
      if j != k {
        MutualExclusion(c, s, j, k);
      }
    }
  }

  lemma StepConserved(c: Config, s: State, k: nat, w: nat)
    requires Inv(c, s) && Enabled(s, k, w)
    ensures Conserved(c, Do(c, s, k, w))
  {
    NoFault(c, s, k, w);
    SumAfter(c, s, k, w, Holds);
    SumAfter(c, s, k, w, Net);
    if Inside(s.threads[k].pc) {
      HolderLocks(c, s, k);
    }
    assert ThreadOk(c, s, s.threads[k]) && Conserved(c, s);
    hide Sum, Inv, ThreadsOk;
  }

  /** What one step of a thread does to its own sleeping and credit, and to the room. */
  lemma ThreadWakeups(c: Config, s: State, k: nat, w: nat, r: Role)
    requires Enabled(s, k, w) && !Do(c, s, k, w).fault && ThreadOk(c, s, s.threads[k])
    ensures var s', t, t' := Do(c, s, k, w), s.threads[k], Do(c, s, k, w).threads[k];
      if t.pc.Wait? && t.role == r then
        Room(c, s', r) <= 0 && Credit(r)(t') == 0
      else if t.pc.Signal? && t.role != r then
        Sleeping(r)(t') == Sleeping(r)(t) && Room(c, s', r) == Room(c, s, r) && Credit(r)(t') == Credit(r)(t) - 1
      else
        Sleeping(r)(t') == Sleeping(r)(t) &&
        (Room(c, s', r) <= 0 || Room(c, s', r) - Credit(r)(t') <= Room(c, s, r) - Credit(r)(t))
  {
  }

  /** What a signal does to the sleeper it wakes. */
  lemma WokenCredit(s: State, k: nat, w: nat, r: Role)
    requires Wakes(s, k, w)
    ensures var t, t' := s.threads[w], s.threads[w].(pc := Woken); var woken := if t.role == r then 1 else 0;
      && Credit(r)(t) == 0 && Credit(r)(t') == woken
      && Sleeping(r)(t) == woken && Sleeping(r)(t') == 0
  {
  }

  lemma StepWakeups(c: Config, s: State, k: nat, w: nat, r: Role)
    requires Inv(c, s) && Enabled(s, k, w)
    ensures NoLostWakeup(c, Do(c, s, k, w), r)
  {
    NoFault(c, s, k, w);
    SumAfter(c, s, k, w, Sleeping(r));
    SumAfter(c, s, k, w, Credit(r));
    SumNonNegative(s.threads, Sleeping(r));
    SumNonNegative(Do(c, s, k, w).threads, Credit(r));
    assert ThreadOk(c, s, s.threads[k]) && NoLostWakeup(c, s, r);
    ThreadWakeups(c, s, k, w, r);
    if Wakes(s, k, w) {
      WokenCredit(s, k, w, r);
    }
    if s.threads[k].pc.Signal? && s.threads[k].role != r && !Sleeper(s, s.threads[k].role, w) {
      NoSleepers(s, s.threads[k].role, r);
    }
    hide Do, Sum, Inv, ThreadsOk, Room, ThreadOk;
  }

  lemma NoSleepers(s: State, r: Role, other: Role)
    requires r != other && forall j :: 0 <= j < |s.threads| ==> !Sleeper(s, r, j)
    ensures Sum(s.threads, Sleeping(other)) == 0
  {
    forall j | 0 <= j < |s.threads| ensures Sleeping(other)(s.threads[j]) == 0 {
      assert !Sleeper(s, r, j);
    }
    SumZero(s.threads, Sleeping(other));
  }

  function Waits(s: State, r: Role): nat { if r.Producer? then s.producerWaits else s.consumerWaits }

  lemma ThreadPaid(c: Config, s: State, k: nat, w: nat, r: Role)
    requires Enabled(s, k, w) && !Do(c, s, k, w).fault
    ensures Waits(Do(c, s, k, w), r) + Paid(r)(s.threads[k]) <= Waits(s, r) + Paid(r)(Do(c, s, k, w).threads[k]) -
      if Wakes(s, k, w) && s.threads[w].role == r then 1 else 0
  {
  }

  lemma StepPaidBy(c: Config, s: State, k: nat, w: nat, r: Role)
    requires Inv(c, s) && Enabled(s, k, w)
    ensures Waits(Do(c, s, k, w), r) - Sum(Do(c, s, k, w).threads, Paid(r)) <= Waits(s, r) - Sum(s.threads, Paid(r))
  {
    NoFault(c, s, k, w);
    ThreadPaid(c, s, k, w, r);
    SumAfter(c, s, k, w, Paid(r));
    hide Do, Sum, Inv, Waits, NoRoom;
  }

  lemma StepPaid(c: Config, s: State, k: nat, w: nat)
    requires Inv(c, s) && Enabled(s, k, w)
    ensures WaitsPaid(Do(c, s, k, w))
  {
    assert WaitsPaid(s);
    hide Do, Sum, Inv;
    StepPaidBy(c, s, k, w, Producer);
    StepPaidBy(c, s, k, w, Consumer);
  }

  /** The histogram entry about to be made has the parity of the number of entries before it, plus one. */
  lemma EntryParity(c: Config, s: State, k: nat)
    requires Conserved(c, s) && k < |s.threads| && s.threads[k].pc.Hist?
    ensures (s.items - Sum(s.threads, Recorded) - 1) % 2 == 0
  {
    assert s.items == Sum(s.threads, Net);
    hide Sum, Net, Updates;
    OneUnrecorded(c, s, k);
    UpdatesParity(s.threads);
    assert s.items - Sum(s.threads, Recorded) - 1 == s.items - Sum(s.threads, Updates);
  }

  lemma UpdatesParity(ts: seq<Thread>)
    ensures (Sum(ts, Net) - Sum(ts, Updates)) % 2 == 0
    ensures Sum(ts, Updates) == Sum(ts, Recorded) + Sum(ts, Unrecorded)
  {
    hide Sum;
    SumParity(ts, Net, Updates);
    SumPlus(ts, Recorded, Unrecorded, Updates);
  }

  /** Only the thread that holds the lock can be between its update and its histogram entry. */
  lemma OneUnrecorded(c: Config, s: State, k: nat)
    requires Conserved(c, s) && k < |s.threads| && s.threads[k].pc.Hist?
    ensures Sum(s.threads, Unrecorded) == 1
  {
    hide Sum;
    SumAtLeast(s.threads, Unrecorded, k);
    SumPlus(s.threads, Unrecorded, NotUnrecorded, Holds);
    SumNonNegative(s.threads, NotUnrecorded);
  }

  function Unrecorded(t: Thread): int { if t.pc.Hist? then 1 else 0 }

  function NotUnrecorded(t: Thread): int { Holds(t) - Unrecorded(t) }

  lemma EntryHistogram(c: Config, s: State, k: nat, w: nat)
    requires Inv(c, s) && Enabled(s, k, w) && s.threads[k].pc.Hist?
    ensures HistogramOk(c, Do(c, s, k, w))
  {
    NoFault(c, s, k, w);
    SumAfter(c, s, k, w, Recorded);
    EntryParity(c, s, k);
    Record(s.hist, s.items);
    AlternationStep(s.items, Sum(s.threads, Recorded));
    assert HistogramOk(c, s);
    hide Sum, Total, Alternating, Inv, ThreadsOk, Conserved, Sign, Level;
  }

  lemma StepHistogram(c: Config, s: State, k: nat, w: nat)
    requires Inv(c, s) && Enabled(s, k, w)
    ensures HistogramOk(c, Do(c, s, k, w))
  {
    if s.threads[k].pc.Hist? {
      EntryHistogram(c, s, k, w);
    } else {
      NoFault(c, s, k, w);
      SumAfter(c, s, k, w, Recorded);
      assert HistogramOk(c, s);
      hide Sum, Total, Alternating, Inv, Level;
    }
  }

  lemma StepInv(c: Config, s: State, k: nat, w: nat)
    requires Inv(c, s) && Enabled(s, k, w)
    ensures Inv(c, Do(c, s, k, w))
  {
    StepThreads(c, s, k, w);
    StepConserved(c, s, k, w);
    StepWakeups(c, s, k, w, Producer);
    StepWakeups(c, s, k, w, Consumer);
    StepPaid(c, s, k, w);
    StepHistogram(c, s, k, w);
  }

  lemma ThreadLeft(c: Config, s: State, k: nat, w: nat)
    requires Enabled(s, k, w) && !Do(c, s, k, w).fault && ThreadOk(c, s, s.threads[k])
    ensures Left(c)(Do(c, s, k, w).threads[k]) <= Left(c)(s.threads[k]) - if Wakes(s, k, w) then 5 else 1
    ensures Wakes(s, k, w) ==> Left(c)(s.threads[w].(pc := Woken)) == Left(c)(s.threads[w]) + 4
  {
  }

  /** Every step lowers the bound on the steps left, even one that wakes a sleeper. */
  lemma StepLeft(c: Config, s: State, k: nat, w: nat)
    requires Inv(c, s) && Enabled(s, k, w)
    ensures Sum(Do(c, s, k, w).threads, Left(c)) <= Sum(s.threads, Left(c)) - 1
  {
    NoFault(c, s, k, w);
    assert ThreadOk(c, s, s.threads[k]);
    ThreadLeft(c, s, k, w);
    SumAfter(c, s, k, w, Left(c));
    hide Do, Sum, Inv;
  }

  /** No thread changes its role. */
  lemma StepRoles(c: Config, s: State, k: nat, w: nat)
    requires Inv(c, s) && Enabled(s, k, w)
    ensures Sum(Do(c, s, k, w).threads, RoleSign) == Sum(s.threads, RoleSign)
    ensures Sum(Do(c, s, k, w).threads, IsProducer) == Sum(s.threads, IsProducer)
    ensures |Do(c, s, k, w).threads| == |s.threads|
  {
    NoFault(c, s, k, w);
    SumAfter(c, s, k, w, RoleSign);
    SumAfter(c, s, k, w, IsProducer);
    hide Sum, Inv;
  }

  function RoleSign(t: Thread): int { Delta(t.role) }

  function IsProducer(t: Thread): int { if t.role.Producer? then 1 else 0 }

  // ---------------------------------------------------------------- runs

  /** A run: the states passed through, and for each step the thread that takes it and the sleeper it would wake. */
  ghost predicate IsRun(c: Config, run: seq<State>, schedule: seq<(nat, nat)>)
  {
    && |run| == |schedule| + 1 && Init(c, run[0])
    && forall n :: 0 <= n < |schedule| ==>
      Enabled(run[n], schedule[n].0, schedule[n].1) && run[n + 1] == Do(c, run[n], schedule[n].0, schedule[n].1)
  }

  lemma {:induction false} RunInv(c: Config, run: seq<State>, schedule: seq<(nat, nat)>, n: nat)
    requires IsRun(c, run, schedule) && n < |run|
    ensures Inv(c, run[n])
    ensures |run[n].threads| == |run[0].threads|
    ensures Sum(run[n].threads, Left(c)) + n <= |run[0].threads| * (9 * c.iterations + 5)
    ensures Sum(run[n].threads, RoleSign) == Sum(run[0].threads, RoleSign)
    ensures Sum(run[n].threads, IsProducer) == Sum(run[0].threads, IsProducer)
  {
    if n == 0 {
      InitInv(c, run[0]);
      InitialLeft(c, run[0].threads);
    } else {
      RunInv(c, run, schedule, n - 1);
      var s, k, w := run[n - 1], schedule[n - 1].0, schedule[n - 1].1;
      assert Enabled(s, k, w) && run[n] == Do(c, s, k, w);
      StepInv(c, s, k, w);
      StepLeft(c, s, k, w);
      StepRoles(c, s, k, w);
    }
  }

  lemma {:induction false} InitialLeft(c: Config, ts: seq<Thread>)
    requires forall k :: 0 <= k < |ts| ==> ts[k].pc == Start && ts[k].i == 0
    ensures Sum(ts, Left(c)) == |ts| * (9 * c.iterations + 5)
  {
    if ts != [] {
      InitialLeft(c, ts[1..]);
    }
  }

  /** What every reachable state satisfies: bounds, no histogram access out of range, mutual exclusion. */
  ghost predicate Safe(c: Config, s: State)
  {
    && 0 <= s.items <= c.max && !s.fault
    && forall j, k :: 0 <= j < k < |s.threads| ==> !(Inside(s.threads[j].pc) && Inside(s.threads[k].pc))
  }

  lemma AlwaysSafe(c: Config, run: seq<State>, schedule: seq<(nat, nat)>, n: nat)
    requires IsRun(c, run, schedule) && n < |run|
    ensures Safe(c, run[n]) && HistogramOk(c, run[n]) && WaitsPaid(run[n])
    ensures NoLostWakeup(c, run[n], Producer) && NoLostWakeup(c, run[n], Consumer)
    ensures forall i :: 0 <= i <= c.max ==> Due(i)(run[n]) == Happened(run[..n + 1], Becomes(i))
    ensures forall r :: Waits(run[n], r) == Happened(run[..n + 1], FallsAsleep(r)) + Sum(run[n].threads, AtWait(r))
  {
    RunInv(c, run, schedule, n);
    forall i | 0 <= i <= c.max ensures Due(i)(run[n]) == Happened(run[..n + 1], Becomes(i)) {
      HistogramCounts(c, run, schedule, n, i);
    }
    forall r ensures Waits(run[n], r) == Happened(run[..n + 1], FallsAsleep(r)) + Sum(run[n].threads, AtWait(r)) {
      WaitsCount(c, run, schedule, n, r);
    }
    var s := run[n];
    forall j, k | 0 <= j < k < |s.threads| ensures !(Inside(s.threads[j].pc) && Inside(s.threads[k].pc)) {
      MutualExclusion(c, s, j, k);
    }
  }

  /** Every run ends: it has at most 9 NUM_ITERATIONS + 5 steps per thread, under any schedule and any choice of sleepers. */
  lemma RunEnds(c: Config, run: seq<State>, schedule: seq<(nat, nat)>)
    requires IsRun(c, run, schedule)
    ensures |schedule| <= |run[0].threads| * (9 * c.iterations + 5)
  {
    var s := run[|schedule|];
    RunInv(c, run, schedule, |schedule|);
    forall k | 0 <= k < |s.threads| ensures Left(c)(s.threads[k]) >= 0 {
      assert ThreadOk(c, s, s.threads[k]);
    }
    SumNonNegative(s.threads, Left(c));
  }

  predicate AllDone(s: State)
  {
    forall k :: 0 <= k < |s.threads| ==> s.threads[k].pc.Done?
  }

  /** How far a thread's net change is from its final one. */
  function Short(c: Config): Thread -> int
  {
    (t: Thread) => Net(t) - c.iterations * Delta(t.role)
  }

  function Owed(c: Config): Thread -> int
  {
    (t: Thread) => c.iterations * Delta(t.role) - Net(t)
  }

  lemma ShortSum(c: Config, s: State)
    requires Conserved(c, s)
    ensures Sum(s.threads, Short(c)) == s.items - Surplus(c, s.threads, RoleSign)
    ensures Sum(s.threads, Owed(c)) == Surplus(c, s.threads, RoleSign) - s.items
  {
    SurplusLeft(c, s.threads, Net, RoleSign, Short(c), Owed(c));
  }

  predicate Resting(p: Pc) { p.Asleep? || p.Done? }

  /** When all threads rest, the buffer leaves nothing to do for any that sleeps. */
  lemma RestingRoom(c: Config, s: State, j: nat)
    requires Inv(c, s) && forall k :: 0 <= k < |s.threads| ==> Resting(s.threads[k].pc)
    requires j < |s.threads| && s.threads[j].pc.Asleep?
    ensures Room(c, s, s.threads[j].role) == 0
  {
    var r := s.threads[j].role;
    SumAtLeast(s.threads, Sleeping(r), j);
    SumZero(s.threads, Credit(r));
  }

  /** While a thread is unfinished, not every thread rests: the sleepers of both kinds cannot all be right to sleep. */
  lemma SomeoneAwake(c: Config, s: State)
    requires Inv(c, s) && c.max > 0 && Fits(c, s.threads, RoleSign) && !AllDone(s)
    ensures exists k :: 0 <= k < |s.threads| && !Resting(s.threads[k].pc)
  {
    if forall k :: 0 <= k < |s.threads| ==> Resting(s.threads[k].pc) {
      var j: nat :| j < |s.threads| && !s.threads[j].pc.Done?;
      RestingRoom(c, s, j);
      var k := OtherSide(c, s, j);
      RestingRoom(c, s, k);
      assert false;
    }
  }

  /** If a thread sleeps because it has no room, a thread of the other role is unfinished. */
  lemma OtherSide(c: Config, s: State, j: nat) returns (k: nat)
    requires Inv(c, s) && Fits(c, s.threads, RoleSign) && c.max > 0
    requires j < |s.threads| && s.threads[j].pc.Asleep? && Room(c, s, s.threads[j].role) == 0
    ensures k < |s.threads| && s.threads[k].role != s.threads[j].role && !s.threads[k].pc.Done?
  {
    ShortSum(c, s);
    assert forall i :: 0 <= i < |s.threads| ==> ThreadOk(c, s, s.threads[i]);
    hide Inv, Sum, ThreadsOk;
    k := SumWitnessOther(s.threads, if s.threads[j].role.Producer? then Short(c) else Owed(c), j);
  }

  /** In every reachable state with a thread unfinished, some thread can take a step. */
  lemma NoDeadlock(c: Config, s: State) returns (k: nat, w: nat)
    requires Inv(c, s) && c.max > 0 && Fits(c, s.threads, RoleSign) && !AllDone(s)
    ensures Enabled(s, k, w)
  {
    w := 0;
    if s.locked {
      k := SumWitness(s.threads, Holds);
      if j: nat :| Sleeper(s, s.threads[k].role, j) {
        w := j;
      }
    } else {
      SomeoneAwake(c, s);
      k :| 0 <= k < |s.threads| && !Resting(s.threads[k].pc);
      if Inside(s.threads[k].pc) {
        HolderLocks(c, s, k);
      }
    }
  }

  lemma RunNotStuck(c: Config, run: seq<State>, schedule: seq<(nat, nat)>, n: nat) returns (k: nat, w: nat)
    requires IsRun(c, run, schedule) && n < |run| && c.max > 0 && Fits(c, run[0].threads, RoleSign) && !AllDone(run[n])
    ensures Enabled(run[n], k, w)
  {
    RunInv(c, run, schedule, n);
    k, w := NoDeadlock(c, run[n]);
  }

  lemma {:induction false} DoneSums(c: Config, ts: seq<Thread>)
    requires forall k :: 0 <= k < |ts| ==> ts[k].pc.Done? && ts[k].i == c.iterations
    ensures Sum(ts, Recorded) == |ts| * c.iterations
    ensures Sum(ts, Paid(Consumer)) == Sum(ts, IsProducer) * c.iterations
    ensures Sum(ts, Paid(Producer)) == (|ts| - Sum(ts, IsProducer)) * c.iterations
  {
    if ts != [] {
      DoneSums(c, ts[1..]);
    }
  }

  lemma EndParity(c: Config, s: State)
    requires Conserved(c, s) && forall k :: 0 <= k < |s.threads| ==> s.threads[k].pc.Done?
    ensures Sum(s.threads, Recorded) % 2 == s.items % 2
  {
    SumParity(s.threads, Net, Recorded);
  }

  lemma DoneItems(c: Config, s: State)
    requires Inv(c, s) && AllDone(s)
    ensures s.items == Surplus(c, s.threads, RoleSign)
    ensures forall k :: 0 <= k < |s.threads| ==> s.threads[k].i == c.iterations
  {
    forall k | 0 <= k < |s.threads| ensures s.threads[k].i == c.iterations {
      assert ThreadOk(c, s, s.threads[k]);
    }
    ShortSum(c, s);
    SumZero(s.threads, Short(c));
  }

  /** A run that can go no further has finished every thread exactly when the surplus fits into the buffer. */
  lemma CompletesIff(c: Config, run: seq<State>, schedule: seq<(nat, nat)>)
    requires IsRun(c, run, schedule) && c.max > 0 && forall k, w :: !Enabled(run[|schedule|], k, w)
    ensures AllDone(run[|schedule|]) <==> Fits(c, run[0].threads, RoleSign)
  {
    RunInv(c, run, schedule, |schedule|);
    if AllDone(run[|schedule|]) {
      DoneItems(c, run[|schedule|]);
    } else if Fits(c, run[0].threads, RoleSign) {
      var k, w := RunNotStuck(c, run, schedule, |schedule|);
      assert false;
    }
  }

  // ---------------------------------------------------------------- what the histogram and the wait counts count

  /** items becomes i. */
  function Becomes(i: int): (State, State) -> bool
  {
    (s: State, s': State) => s'.items == i && s.items != i
  }

  /** Entry i of the histogram and, while items is i, the entry about to be made. */
  function Due(i: int): State -> int
  {
    (s: State) => if 0 <= i < |s.hist| then s.hist[i] + (if s.items == i then Sum(s.threads, Unrecorded) else 0) else 0
  }

  /** A thread at its change of items is the only one under the mutex: no entry is due. */
  lemma NoneUnrecorded(c: Config, s: State, k: nat)
    requires Conserved(c, s) && k < |s.threads| && s.threads[k].pc.Change?
    ensures Sum(s.threads, Unrecorded) == 0
  {
    hide Sum;
    SumNonNegative(s.threads, Unrecorded);
    SumPlus(s.threads, Unrecorded, NotUnrecorded, Holds);
    SumAtLeast(s.threads, NotUnrecorded, k);
  }

  /** What a step does to the one entry, and to those that are due. */
  lemma StepDue(c: Config, s: State, k: nat, w: nat, i: int)
    requires Inv(c, s) && Enabled(s, k, w) && 0 <= i <= c.max
    ensures Due(i)(Do(c, s, k, w)) == Due(i)(s) + if Becomes(i)(s, Do(c, s, k, w)) then 1 else 0
  {
    NoFault(c, s, k, w);
    SumAfter(c, s, k, w, Unrecorded);
    if s.threads[k].pc.Change? {
      NoneUnrecorded(c, s, k);
    }
    if s.threads[k].pc.Hist? {
      OneUnrecorded(c, s, k);
    }
    hide Sum, Inv;
  }

  lemma NoUnrecorded(ts: seq<Thread>)
    requires forall k :: 0 <= k < |ts| ==> !ts[k].pc.Hist?
    ensures Sum(ts, Unrecorded) == 0
  {
    SumZero(ts, Unrecorded);
  }

  /**
   * In every reachable state, entry i is the number of times items has become i, less the one entry a thread may
   * still have to make.
   */
  lemma HistogramCounts(c: Config, run: seq<State>, schedule: seq<(nat, nat)>, n: nat, i: int)
    requires IsRun(c, run, schedule) && n < |run| && 0 <= i <= c.max
    ensures Due(i)(run[n]) == Happened(run[..n + 1], Becomes(i))
  {
    var r := run[..n + 1];
    NoUnrecorded(run[0].threads);
    forall m | 0 <= m && m + 1 < |r| ensures Due(i)(r[m + 1]) == Due(i)(r[m]) + if Becomes(i)(r[m], r[m + 1]) then 1 else 0 {
      RunInv(c, run, schedule, m);
      var k, w := schedule[m].0, schedule[m].1;
      assert Enabled(run[m], k, w) && run[m + 1] == Do(c, run[m], k, w);
      StepDue(c, run[m], k, w, i);
    }
    CountsEvents(r, Due(i), Becomes(i));
  }

  /** A thread of role r goes to sleep. */
  function FallsAsleep(r: Role): (State, State) -> bool
  {
    (s: State, s': State) => exists k :: 0 <= k < |s.threads| && SleepsNow(r, s, s', k)
  }

  predicate SleepsNow(r: Role, s: State, s': State, k: nat)
  {
    k < |s.threads| && k < |s'.threads| && s.threads[k].role == r && !s.threads[k].pc.Asleep? && s'.threads[k].pc.Asleep?
  }

  /** Counted but not yet asleep. */
  function AtWait(r: Role): Thread -> int
  {
    (t: Thread) => if t.role == r && t.pc.Wait? then 1 else 0
  }

  function Slept(r: Role): State -> int
  {
    (s: State) => Waits(s, r) - Sum(s.threads, AtWait(r))
  }

  lemma StepSlept(c: Config, s: State, k: nat, w: nat, r: Role)
    requires Inv(c, s) && Enabled(s, k, w)
    ensures Slept(r)(Do(c, s, k, w)) == Slept(r)(s) + if FallsAsleep(r)(s, Do(c, s, k, w)) then 1 else 0
  {
    NoFault(c, s, k, w);
    SumAfter(c, s, k, w, AtWait(r));
    ThreadSlept(c, s, k, w, r);
    hide Do, Sum, Inv, Waits;
  }

  lemma ThreadSlept(c: Config, s: State, k: nat, w: nat, r: Role)
    requires Enabled(s, k, w) && !Do(c, s, k, w).fault
    ensures var s', t, t' := Do(c, s, k, w), s.threads[k], Do(c, s, k, w).threads[k];
      Waits(s', r) - AtWait(r)(t') == Waits(s, r) - AtWait(r)(t) + if FallsAsleep(r)(s, s') then 1 else 0
  {
    var s' := Do(c, s, k, w);
    if s.threads[k].pc.Wait? && s.threads[k].role == r {
      assert SleepsNow(r, s, s', k);
    }
  }

  /** In every reachable state, a wait count is the number of times a thread of the role has gone to sleep or is about to. */
  lemma WaitsCount(c: Config, run: seq<State>, schedule: seq<(nat, nat)>, n: nat, r: Role)
    requires IsRun(c, run, schedule) && n < |run|
    ensures Waits(run[n], r) == Happened(run[..n + 1], FallsAsleep(r)) + Sum(run[n].threads, AtWait(r))
  {
    var q := run[..n + 1];
    SumZero(run[0].threads, AtWait(r));
    forall m | 0 <= m && m + 1 < |q| ensures Slept(r)(q[m + 1]) == Slept(r)(q[m]) + if FallsAsleep(r)(q[m], q[m + 1]) then 1 else 0 {
      RunInv(c, run, schedule, m);
      var k, w := schedule[m].0, schedule[m].1;
      assert Enabled(run[m], k, w) && run[m + 1] == Do(c, run[m], k, w);
      StepSlept(c, run[m], k, w, r);
    }
    CountsEvents(q, Slept(r), FallsAsleep(r));
  }

  lemma ReportEntry(c: Config, run: seq<State>, schedule: seq<(nat, nat)>, i: int)
    requires IsRun(c, run, schedule) && AllDone(run[|schedule|]) && 0 <= i <= c.max
    ensures |run[|schedule|].hist| == c.max + 1 && run[|schedule|].hist[i] == Happened(run, Becomes(i))
  {
    hide Happened, Becomes, Sum;
    RunInv(c, run, schedule, |schedule|);
    assert run[..|schedule| + 1] == run;
    NoUnrecorded(run[|schedule|].threads);
    HistogramCounts(c, run, schedule, |schedule|, i);
  }

  lemma ReportWaits(c: Config, run: seq<State>, schedule: seq<(nat, nat)>, r: Role)
    requires IsRun(c, run, schedule) && AllDone(run[|schedule|])
    ensures Waits(run[|schedule|], r) == Happened(run, FallsAsleep(r))
  {
    hide Happened, FallsAsleep, Sum, Waits;
    assert run[..|schedule| + 1] == run;
    WaitsCount(c, run, schedule, |schedule|, r);
    SumZero(run[|schedule|].threads, AtWait(r));
  }

  /** What is printed at the end: each count is that of the events it stands for. */
  lemma Report(c: Config, run: seq<State>, schedule: seq<(nat, nat)>)
    requires IsRun(c, run, schedule) && AllDone(run[|schedule|])
    ensures |run[|schedule|].hist| == c.max + 1
    ensures forall i :: 0 <= i <= c.max ==> run[|schedule|].hist[i] == Happened(run, Becomes(i))
    ensures run[|schedule|].producerWaits == Happened(run, FallsAsleep(Producer))
    ensures run[|schedule|].consumerWaits == Happened(run, FallsAsleep(Consumer))
  {
    assert |run| == |schedule| + 1;
    hide IsRun, AllDone, Happened, Becomes, FallsAsleep;
    ReportEntry(c, run, schedule, 0);
    forall i | 0 <= i <= c.max ensures run[|schedule|].hist[i] == Happened(run, Becomes(i)) {
      ReportEntry(c, run, schedule, i);
    }
    ReportWaits(c, run, schedule, Producer);
    ReportWaits(c, run, schedule, Consumer);
  }

  lemma FinalState(c: Config, run: seq<State>, schedule: seq<(nat, nat)>)
    requires IsRun(c, run, schedule) && AllDone(run[|schedule|])
    ensures var s := run[|schedule|]; var producers := Sum(run[0].threads, IsProducer);
      && s.items == Surplus(c, run[0].threads, RoleSign) && !s.locked
      && Total(s.hist) == |run[0].threads| * c.iterations && Alternating(s.hist) == Level(s.items)
      && s.producerWaits <= (|run[0].threads| - producers) * c.iterations
      && s.consumerWaits <= producers * c.iterations
  {
    hide Inv, Sum, Total, Alternating;
    RunInv(c, run, schedule, |schedule|);
    AtRest(c, run[|schedule|]);
  }

  /**
   * At the end the buffer holds the surplus and the mutex is free, the final assertion of main holds, each histogram
   * entry is the number of times items has become its index, even and odd entries balance but for one when the
   * surplus is odd, and each kind of thread has waited exactly as often as is counted, and at most as often as the
   * other kind has signalled.
   */
  lemma Final(c: Config, run: seq<State>, schedule: seq<(nat, nat)>)
    requires IsRun(c, run, schedule) && AllDone(run[|schedule|])
    ensures var s := run[|schedule|]; var producers := Sum(run[0].threads, IsProducer);
      && s.items == Surplus(c, run[0].threads, RoleSign) && !s.locked
      && Total(s.hist) == |run[0].threads| * c.iterations && Alternating(s.hist) == Level(s.items)
      && s.producerWaits <= (|run[0].threads| - producers) * c.iterations
      && s.consumerWaits <= producers * c.iterations
    ensures |run[|schedule|].hist| == c.max + 1
    ensures forall i :: 0 <= i <= c.max ==> run[|schedule|].hist[i] == Happened(run, Becomes(i))
    ensures run[|schedule|].producerWaits == Happened(run, FallsAsleep(Producer))
    ensures run[|schedule|].consumerWaits == Happened(run, FallsAsleep(Consumer))
  {
    assert |run| == |schedule| + 1;
    hide IsRun, AllDone, Happened, Becomes, FallsAsleep, Sum, Total, Alternating, Surplus, Level;
    FinalState(c, run, schedule);
    Report(c, run, schedule);
  }

  lemma AtRest(c: Config, s: State)
    requires Inv(c, s) && AllDone(s)
    ensures s.items == Surplus(c, s.threads, RoleSign) && !s.locked
    ensures Total(s.hist) == |s.threads| * c.iterations && Alternating(s.hist) == Level(s.items)
    ensures s.producerWaits <= (|s.threads| - Sum(s.threads, IsProducer)) * c.iterations
    ensures s.consumerWaits <= Sum(s.threads, IsProducer) * c.iterations
  {
    DoneItems(c, s);
    DoneSums(c, s.threads);
    SumZero(s.threads, Holds);
    EndParity(c, s);
  }
}
