/**
 * The bounded buffer under a spinlock, with an unlocked test before the lock (a8/pc_spinlock.c), as a transition
 * system. Any number of producers and consumers, iterations and places; a step is one access to shared state.
 */
module SpinBuffer {
  import opened Counting

  /**
   * Where a thread is: at its loop test; at the unlocked test; spinning on the lock; at the test under the lock;
   * about to count a wait; at the assertion of produce or consume; at the loads and stores of its two updates;
   * about to release the lock; finished.
   */
  datatype Pc =
    | LoopTest | PreTest | Lock | RoomTest | CountWait | Assertion | LoadItems | StoreItems | LoadHist | StoreHist
    | Unlock | Done

  datatype Thread = Thread(role: Role, pc: Pc, i: nat, tmp: int)

  /** fault records a failed assertion or a histogram access out of bounds. */
  datatype State = State(
    locked: bool, items: int, hist: seq<int>, producerWaits: nat, consumerWaits: nat, threads: seq<Thread>, fault: bool)

  predicate Init(c: Config, s: State)
  {
    && !s.locked && s.items == 0 && s.producerWaits == 0 && s.consumerWaits == 0 && !s.fault
    && |s.hist| == c.max + 1 && (forall k :: 0 <= k < |s.hist| ==> s.hist[k] == 0)
    && forall k :: 0 <= k < |s.threads| ==> s.threads[k].pc == LoopTest && s.threads[k].i == 0
  }

  predicate Enabled(s: State, k: nat)
  {
    k < |s.threads| && !s.threads[k].pc.Done? && (s.threads[k].pc.Lock? ==> !s.locked)
  }

  function Move(s: State, k: nat, t: Thread): State
    requires k < |s.threads|
  {
    s.(threads := s.threads[k := t])
  }

  predicate HasRoom(c: Config, s: State, r: Role)
  {
    if r.Producer? then s.items < c.max else s.items > 0
  }

  function Do(c: Config, s: State, k: nat): State
    requires Enabled(s, k)
  {
    var t := s.threads[k];
    match t.pc
    case LoopTest => Move(s, k, t.(pc := if t.i < c.iterations then PreTest else Done))
    case PreTest => Move(s, k, t.(pc := if HasRoom(c, s, t.role) then Lock else LoopTest))
    case Lock => Move(s, k, t.(pc := RoomTest)).(locked := true)
    case RoomTest => Move(s, k, t.(pc := if HasRoom(c, s, t.role) then Assertion else CountWait))
    case CountWait =>
      var u := Move(s, k, t.(pc := Unlock));
      if t.role.Producer? then u.(producerWaits := s.producerWaits + 1) else u.(consumerWaits := s.consumerWaits + 1)
    case Assertion => if HasRoom(c, s, t.role) then Move(s, k, t.(pc := LoadItems)) else s.(fault := true)
    case LoadItems => Move(s, k, t.(pc := StoreItems, tmp := s.items))
    case StoreItems => Move(s, k, t.(pc := LoadHist)).(items := t.tmp + Delta(t.role))
    case LoadHist =>
      if 0 <= s.items < |s.hist| then Move(s, k, t.(pc := StoreHist, tmp := s.hist[s.items])) else s.(fault := true)
    case StoreHist =>
      if 0 <= s.items < |s.hist|
      then Move(s, k, t.(pc := Unlock, i := t.i + 1)).(hist := s.hist[s.items := t.tmp + 1])
      else s.(fault := true)
    case Unlock => Move(s, k, t.(pc := LoopTest)).(locked := false)
  }

  // ---------------------------------------------------------------- the invariant

  predicate Inside(p: Pc)
  {
    p.RoomTest? || p.CountWait? || p.Assertion? || p.LoadItems? || p.StoreItems? || p.LoadHist? || p.StoreHist? || p.Unlock?
  }

  function Holds(t: Thread): int { if Inside(t.pc) then 1 else 0 }

  function Updates(t: Thread): int { t.i + if t.pc.LoadHist? || t.pc.StoreHist? then 1 else 0 }

  function Net(t: Thread): int { if t.role.Producer? then Updates(t) else -Updates(t) }

  function Entries(t: Thread): int { t.i }

  predicate ThreadOk(c: Config, s: State, t: Thread)
  {
    && t.i <= c.iterations
    && (t.pc.Done? ==> t.i == c.iterations)
    && (!t.pc.Done? && !t.pc.LoopTest? && !t.pc.Unlock? ==> t.i < c.iterations)
    && (t.pc.Assertion? || t.pc.LoadItems? || t.pc.StoreItems? ==> HasRoom(c, s, t.role))
    && (t.pc.StoreItems? ==> t.tmp == s.items)
    && (t.pc.StoreHist? ==> 0 <= s.items < |s.hist| && t.tmp == s.hist[s.items])
  }

  ghost predicate ThreadsOk(c: Config, s: State)
  {
    forall k :: 0 <= k < |s.threads| ==> ThreadOk(c, s, s.threads[k])
  }

  ghost predicate Conserved(c: Config, s: State)
  {
    && Sum(s.threads, Holds) == (if s.locked then 1 else 0)
    && s.items == Sum(s.threads, Net)
    && 0 <= s.items <= c.max
  }

  ghost predicate HistogramOk(c: Config, s: State)
  {
    && |s.hist| == c.max + 1 && !s.fault
    && Total(s.hist) == Sum(s.threads, Entries)
    && Alternating(s.hist) == Level(Sum(s.threads, Entries))
  }

  ghost predicate Inv(c: Config, s: State)
  {
    ThreadsOk(c, s) && Conserved(c, s) && HistogramOk(c, s)
  }

  lemma {:induction false} InitialSums(ts: seq<Thread>)
    requires forall k :: 0 <= k < |ts| ==> ts[k].pc == LoopTest && ts[k].i == 0
    ensures Sum(ts, Holds) == Sum(ts, Net) == Sum(ts, Entries) == 0
  {
    if ts != [] {
      InitialSums(ts[1..]);
    }
  }

  lemma InitInv(c: Config, s: State)
    requires Init(c, s)
    ensures Inv(c, s)
  {
    InitialSums(s.threads);
    EmptyHistogram(s.hist);
  }

  /** A step moves one thread, fails no assertion and keeps within the histogram. */
  lemma NoFault(c: Config, s: State, k: nat)
    requires Inv(c, s) && Enabled(s, k)
    ensures var s' := Do(c, s, k);
      !s'.fault && |s'.hist| == |s.hist| && |s'.threads| == |s.threads| && s'.threads == s.threads[k := s'.threads[k]]
  {
    hide Sum;
    assert ThreadOk(c, s, s.threads[k]);
  }

  /** At most one thread holds the lock. */
  lemma MutualExclusion(c: Config, s: State, j: nat, k: nat)
    requires Conserved(c, s) && j < |s.threads| && k < |s.threads| && j != k
    ensures !(Inside(s.threads[j].pc) && Inside(s.threads[k].pc))
  {
    if j < k {
      SumAtLeastTwo(s.threads, Holds, j, k);
    } else {
      SumAtLeastTwo(s.threads, Holds, k, j);
    }
  }

  lemma HolderLocks(c: Config, s: State, k: nat)
    requires Conserved(c, s) && k < |s.threads|
    ensures Inside(s.threads[k].pc) ==> s.locked
  {
    SumAtLeast(s.threads, Holds, k);
  }

  /** Any number of threads in any roles can begin. */
  function Begin(c: Config, roles: seq<Role>): (s: State)
    ensures Init(c, s) && |s.threads| == |roles| && forall k :: 0 <= k < |roles| ==> s.threads[k].role == roles[k]
  {
    State(false, 0, seq(c.max + 1, _ => 0), 0, 0,
      seq(|roles|, k requires 0 <= k < |roles| => Thread(roles[k], LoopTest, 0, 0)), false)
  }

  /** A thread is held up exactly when it is done or spins while another thread holds the lock. */
  lemma HeldUp(c: Config, s: State, k: nat)
    requires Inv(c, s) && k < |s.threads|
    ensures var t := s.threads[k];
      !Enabled(s, k) <==>
        || t.pc.Done?
        || (t.pc.Lock? && exists j :: 0 <= j < |s.threads| && j != k && Inside(s.threads[j].pc))
  {
    assert Conserved(c, s);
    hide Inv, Sum;
    SumNonNegative(s.threads, Holds);
    if s.locked {
      var j := SumWitness(s.threads, Holds);
      assert Inside(s.threads[j].pc);
    }
    forall j | 0 <= j < |s.threads| && Inside(s.threads[j].pc) ensures s.locked {
      HolderLocks(c, s, j);
    }
  }

  lemma StepThreads(c: Config, s: State, k: nat)
    requires Inv(c, s) && Enabled(s, k)
    ensures ThreadsOk(c, Do(c, s, k))
  {
    var s' := Do(c, s, k);
    NoFault(c, s, k);
    forall j | 0 <= j < |s'.threads| ensures ThreadOk(c, s', s'.threads[j]) {
      assert ThreadOk(c, s, s.threads[j]) && ThreadOk(c, s, s.threads[k]);
      if j != k {
        MutualExclusion(c, s, j, k);
      }
    }
  }

  lemma StepConserved(c: Config, s: State, k: nat)
    requires Inv(c, s) && Enabled(s, k)
    ensures Conserved(c, Do(c, s, k))
  {
    NoFault(c, s, k);
    SumUpdate(s.threads, k, Do(c, s, k).threads[k], Holds);
    SumUpdate(s.threads, k, Do(c, s, k).threads[k], Net);
    HolderLocks(c, s, k);
    assert ThreadOk(c, s, s.threads[k]) && Conserved(c, s);
    hide Sum, Inv, ThreadsOk;
  }

  /** The histogram entry about to be made has the parity of the number of entries before it, plus one. */
  lemma EntryParity(c: Config, s: State, k: nat)
    requires Conserved(c, s) && k < |s.threads| && s.threads[k].pc.StoreHist?
    ensures (s.items - Sum(s.threads, Entries) - 1) % 2 == 0
  {
    assert s.items == Sum(s.threads, Net);
    hide Sum, Net, Updates;
    OneUnrecorded(c, s, k);
    UpdatesParity(s.threads);
    assert s.items - Sum(s.threads, Entries) - 1 == s.items - Sum(s.threads, Updates);
  }

  lemma UpdatesParity(ts: seq<Thread>)
    ensures (Sum(ts, Net) - Sum(ts, Updates)) % 2 == 0
    ensures Sum(ts, Updates) == Sum(ts, Entries) + Sum(ts, Unrecorded)
  {
    hide Sum;
    SumParity(ts, Net, Updates);
    SumPlus(ts, Entries, Unrecorded, Updates);
  }

  /** Only the thread that holds the lock can be between its update and its histogram entry. */
  lemma OneUnrecorded(c: Config, s: State, k: nat)
    requires Conserved(c, s) && k < |s.threads| && s.threads[k].pc.StoreHist?
    ensures Sum(s.threads, Unrecorded) == 1
  {
    hide Sum;
    SumAtLeast(s.threads, Unrecorded, k);
    SumPlus(s.threads, Unrecorded, NotUnrecorded, Holds);
    SumNonNegative(s.threads, NotUnrecorded);
  }

  function Unrecorded(t: Thread): int { if t.pc.LoadHist? || t.pc.StoreHist? then 1 else 0 }

  function NotUnrecorded(t: Thread): int { Holds(t) - Unrecorded(t) }

  lemma EntryHistogram(c: Config, s: State, k: nat)
    requires Inv(c, s) && k < |s.threads| && s.threads[k].pc.StoreHist?
    ensures HistogramOk(c, Do(c, s, k))
  {
    NoFault(c, s, k);
    SumUpdate(s.threads, k, Do(c, s, k).threads[k], Entries);
    assert HistogramOk(c, s) && ThreadOk(c, s, s.threads[k]);
    EntryParity(c, s, k);
    Record(s.hist, s.items);
    AlternationStep(s.items, Sum(s.threads, Entries));
    hide Sum, Sign, Level, Total, Alternating, Inv, ThreadsOk, Conserved;
  }

  lemma StepHistogram(c: Config, s: State, k: nat)
    requires Inv(c, s) && Enabled(s, k)
    ensures HistogramOk(c, Do(c, s, k))
  {
    if s.threads[k].pc.StoreHist? {
      EntryHistogram(c, s, k);
    } else {
      NoFault(c, s, k);
      SumUpdate(s.threads, k, Do(c, s, k).threads[k], Entries);
      assert HistogramOk(c, s);
      hide Sum, Level, Total, Alternating, Inv;
    }
  }

  lemma StepInv(c: Config, s: State, k: nat)
    requires Inv(c, s) && Enabled(s, k)
    ensures Inv(c, Do(c, s, k))
  {
    StepThreads(c, s, k);
    StepConserved(c, s, k);
    StepHistogram(c, s, k);
  }

  // ---------------------------------------------------------------- runs

  /** The schedule, a sequence of threads, takes s to t. */
  ghost predicate Path(c: Config, s: State, schedule: seq<nat>, t: State)
    decreases |schedule|
  {
    if schedule == [] then s == t
    else Enabled(s, schedule[0]) && Path(c, Do(c, s, schedule[0]), schedule[1..], t)
  }

  ghost predicate Reachable(c: Config, s: State)
  {
    exists s0, schedule :: Init(c, s0) && Path(c, s0, schedule, s)
  }

  lemma {:induction false} PathInv(c: Config, s: State, schedule: seq<nat>, t: State)
    requires Inv(c, s) && Path(c, s, schedule, t)
    ensures Inv(c, t)
    decreases |schedule|
  {
    if schedule != [] {
      StepInv(c, s, schedule[0]);
      PathInv(c, Do(c, s, schedule[0]), schedule[1..], t);
    }
  }

  lemma {:induction false} PathAppend(c: Config, s: State, p: seq<nat>, t: State, q: seq<nat>, u: State)
    requires Path(c, s, p, t) && Path(c, t, q, u)
    ensures Path(c, s, p + q, u)
    decreases |p|
  {
    if p == [] {
      assert p + q == q;
    } else {
      assert (p + q)[1..] == p[1..] + q;
      PathAppend(c, Do(c, s, p[0]), p[1..], t, q, u);
    }
  }

  lemma PathStep(c: Config, s: State, k: nat)
    requires Enabled(s, k)
    ensures Path(c, s, [k], Do(c, s, k))
  {
    assert Path(c, Do(c, s, k), [k][1..], Do(c, s, k));
  }

  /**
   * What every reachable state satisfies, despite the unlocked test: no assertion has failed, the lock excludes,
   * and while it is free items is what has been produced less what has been consumed.
   */
  lemma AlwaysSafe(c: Config, s: State)
    requires Reachable(c, s)
    ensures !s.fault && 0 <= s.items <= c.max
    ensures forall j, k :: 0 <= j < k < |s.threads| ==> !(Inside(s.threads[j].pc) && Inside(s.threads[k].pc))
    ensures !s.locked ==> s.items == Sum(s.threads, SignedIndex)
    ensures Total(s.hist) == Sum(s.threads, Entries) && Alternating(s.hist) == Level(Sum(s.threads, Entries))
  {
    var s0, schedule :| Init(c, s0) && Path(c, s0, schedule, s);
    InitInv(c, s0);
    PathInv(c, s0, schedule, s);
    forall j, k | 0 <= j < k < |s.threads| ensures !(Inside(s.threads[j].pc) && Inside(s.threads[k].pc)) {
      MutualExclusion(c, s, j, k);
    }
    if !s.locked {
      FreeSums(c, s);
    }
  }

  function SignedIndex(t: Thread): int { if t.role.Producer? then t.i else 0 - t.i }

  function Unsettled(t: Thread): int { Net(t) - SignedIndex(t) }

  lemma FreeSums(c: Config, s: State)
    requires Conserved(c, s) && !s.locked
    ensures s.items == Sum(s.threads, SignedIndex)
  {
    SumPlus(s.threads, SignedIndex, Unsettled, Net);
    forall k | 0 <= k < |s.threads| ensures Unsettled(s.threads[k]) == 0 {
      HolderLocks(c, s, k);
    }
    SumZero(s.threads, Unsettled);
  }

  // ---------------------------------------------------------------- how often threads wait

  function HasRole(r: Role): Thread -> int { (t: Thread) => if t.role == r then 1 else 0 }

  /** Stores to items by threads of role r. */
  function Stores(r: Role): Thread -> int { (t: Thread) => if t.role == r then Updates(t) else 0 }

  /** A thread of role r found room without the lock, and will find none, or has found none, under it. */
  function Fooled(r: Role, full: bool): Thread -> int
  {
    (t: Thread) => if t.role == r && (t.pc.CountWait? || (full && (t.pc.Lock? || t.pc.RoomTest?))) then 1 else 0
  }

  function NotFooled(r: Role, full: bool): Thread -> int
  {
    (t: Thread) => HasRole(r)(t) - Fooled(r, full)(t)
  }

  function Waits(s: State, r: Role): nat { if r.Producer? then s.producerWaits else s.consumerWaits }

  /** Waits so far and those bound to come: one store can fool each other thread of its role once. */
  ghost predicate WaitsPaid(c: Config, s: State, r: Role)
  {
    Waits(s, r) + Sum(s.threads, Fooled(r, !HasRoom(c, s, r)))
      <= (Sum(s.threads, HasRole(r)) - 1) * Sum(s.threads, Stores(r))
  }

  lemma StepRole(c: Config, s: State, k: nat, r: Role)
    requires Inv(c, s) && Enabled(s, k)
    ensures Sum(Do(c, s, k).threads, HasRole(r)) == Sum(s.threads, HasRole(r))
  {
    NoFault(c, s, k);
    SumUpdate(s.threads, k, Do(c, s, k).threads[k], HasRole(r));
    hide Sum, Inv;
  }

  lemma StepStores(c: Config, s: State, k: nat, r: Role)
    requires Inv(c, s) && Enabled(s, k)
    ensures Sum(Do(c, s, k).threads, Stores(r)) == Sum(s.threads, Stores(r)) +
      if s.threads[k].pc.StoreItems? && s.threads[k].role == r then 1 else 0
  {
    NoFault(c, s, k);
    SumUpdate(s.threads, k, Do(c, s, k).threads[k], Stores(r));
    hide Sum, Inv, HasRoom;
  }

  /** A step that does not store to items. */
  lemma StepFooled(c: Config, s: State, k: nat, r: Role)
    requires Inv(c, s) && Enabled(s, k) && !s.threads[k].pc.StoreItems?
    ensures var s' := Do(c, s, k);
      Waits(s', r) + Sum(s'.threads, Fooled(r, !HasRoom(c, s', r))) == Waits(s, r) + Sum(s.threads, Fooled(r, !HasRoom(c, s, r)))
  {
    NoFault(c, s, k);
    var s', full := Do(c, s, k), !HasRoom(c, s, r);
    SumUpdate(s.threads, k, s'.threads[k], Fooled(r, full));
    hide Sum, Inv;
    ThreadFooled(c, s, k, r);
  }

  lemma ThreadFooled(c: Config, s: State, k: nat, r: Role)
    requires Enabled(s, k) && !s.threads[k].pc.StoreItems?
    requires var s' := Do(c, s, k); !s'.fault && |s'.threads| == |s.threads|
    ensures var s', full := Do(c, s, k), !HasRoom(c, s, r);
      && HasRoom(c, s', r) == HasRoom(c, s, r)
      && Waits(s', r) + Fooled(r, full)(s'.threads[k]) == Waits(s, r) + Fooled(r, full)(s.threads[k])
  {
  }

  /** A store by a thread of role r may fool every other thread of role r. */
  lemma StoreFools(c: Config, s: State, k: nat, r: Role)
    requires Inv(c, s) && Enabled(s, k) && s.threads[k].pc.StoreItems? && s.threads[k].role == r
    ensures var s' := Do(c, s, k);
      Waits(s', r) == Waits(s, r) && Sum(s'.threads, Fooled(r, !HasRoom(c, s', r))) <= Sum(s'.threads, HasRole(r)) - 1
  {
    NoFault(c, s, k);
    var s' := Do(c, s, k);
    var full := !HasRoom(c, s', r);
    hide Inv, Sum;
    SumPlus(s'.threads, Fooled(r, full), NotFooled(r, full), HasRole(r));
    SumAtLeast(s'.threads, NotFooled(r, full), k);
  }

  /** A store by the other role makes room. */
  lemma StoreMakesRoom(c: Config, s: State, k: nat, r: Role)
    requires Inv(c, s) && Enabled(s, k) && s.threads[k].pc.StoreItems? && s.threads[k].role != r
    ensures var s' := Do(c, s, k);
      Waits(s', r) == Waits(s, r) &&
      Sum(s'.threads, Fooled(r, !HasRoom(c, s', r))) <= Sum(s.threads, Fooled(r, !HasRoom(c, s, r)))
  {
    NoFault(c, s, k);
    var s', full := Do(c, s, k), !HasRoom(c, s, r);
    assert ThreadOk(c, s, s.threads[k]) && HasRoom(c, s', r);
    SumUpdate(s.threads, k, s'.threads[k], Fooled(r, false));
    hide Inv, Sum;
    SumPlus(s.threads, Fooled(r, false), Relieved(r, full), Fooled(r, full));
    SumNonNegative(s.threads, Relieved(r, full));
  }

  function Relieved(r: Role, full: bool): Thread -> int
  {
    (t: Thread) => Fooled(r, full)(t) - Fooled(r, false)(t)
  }

  lemma StepWaits(c: Config, s: State, k: nat, r: Role)
    requires Inv(c, s) && Enabled(s, k) && WaitsPaid(c, s, r)
    ensures WaitsPaid(c, Do(c, s, k), r)
  {
    hide Do, Sum, Inv, HasRoom;
    StepRole(c, s, k, r);
    StepStores(c, s, k, r);
    if !s.threads[k].pc.StoreItems? {
      StepFooled(c, s, k, r);
    } else if s.threads[k].role == r {
      StoreFools(c, s, k, r);
      SumNonNegative(s.threads, Fooled(r, !HasRoom(c, s, r)));
      var others, stores := Sum(s.threads, HasRole(r)) - 1, Sum(s.threads, Stores(r));
      assert others * (stores + 1) == others * stores + others;
    } else {
      StoreMakesRoom(c, s, k, r);
    }
  }

  lemma {:induction false} InitialWaits(c: Config, ts: seq<Thread>, r: Role, full: bool)
    requires forall k :: 0 <= k < |ts| ==> ts[k].pc == LoopTest && ts[k].i == 0
    ensures Sum(ts, Fooled(r, full)) == Sum(ts, Stores(r)) == 0
  {
    if ts != [] {
      InitialWaits(c, ts[1..], r, full);
    }
  }

  lemma {:induction false} PathWaits(c: Config, s: State, schedule: seq<nat>, t: State, r: Role)
    requires Inv(c, s) && Path(c, s, schedule, t) && WaitsPaid(c, s, r)
    ensures WaitsPaid(c, t, r) && Sum(t.threads, HasRole(r)) == Sum(s.threads, HasRole(r))
    decreases |schedule|
  {
    if schedule != [] {
      StepInv(c, s, schedule[0]);
      StepWaits(c, s, schedule[0], r);
      StepRole(c, s, schedule[0], r);
      PathWaits(c, Do(c, s, schedule[0]), schedule[1..], t, r);
    }
  }

  /** In every reachable state, each store has been the cause of at most one wait of each other thread of its role. */
  lemma WaitsBounded(c: Config, s0: State, schedule: seq<nat>, s: State, r: Role)
    requires Init(c, s0) && Path(c, s0, schedule, s)
    ensures Waits(s, r) <= (Sum(s.threads, HasRole(r)) - 1) * Sum(s.threads, Stores(r))
    ensures Sum(s.threads, HasRole(r)) == Sum(s0.threads, HasRole(r))
  {
    InitInv(c, s0);
    InitialWaits(c, s0.threads, r, !HasRoom(c, s0, r));
    PathWaits(c, s0, schedule, s, r);
    SumNonNegative(s.threads, Fooled(r, !HasRoom(c, s, r)));
  }

  // ---------------------------------------------------------------- every reachable state can be completed

  predicate AllDone(s: State)
  {
    forall k :: 0 <= k < |s.threads| ==> s.threads[k].pc.Done?
  }

  function RoleSign(t: Thread): int { Delta(t.role) }

  function Remaining(c: Config): Thread -> int { (t: Thread) => c.iterations - t.i }

  function Unfinished(t: Thread): int { if t.pc.Done? then 0 else 1 }

  /** Operations left to do in all. */
  ghost function Work(c: Config, s: State): int { Sum(s.threads, Remaining(c)) }

  lemma StepWork(c: Config, s: State, k: nat)
    requires Inv(c, s) && Enabled(s, k)
    ensures Work(c, Do(c, s, k)) == Work(c, s) - if s.threads[k].pc.StoreHist? then 1 else 0
    ensures Sum(Do(c, s, k).threads, RoleSign) == Sum(s.threads, RoleSign)
    ensures Sum(Do(c, s, k).threads, Unfinished) == Sum(s.threads, Unfinished) - if Do(c, s, k).threads[k].pc.Done? then 1 else 0
  {
    NoFault(c, s, k);
    var t := Do(c, s, k).threads[k];
    SumUpdate(s.threads, k, t, Remaining(c));
    SumUpdate(s.threads, k, t, RoleSign);
    SumUpdate(s.threads, k, t, Unfinished);
    assert ThreadOk(c, s, s.threads[k]);
    hide Sum, Inv;
  }

  /** Thread k, inside the lock, is going to complete its operation. */
  predicate Productive(c: Config, s: State, k: nat)
  {
    k < |s.threads| &&
    match s.threads[k].pc
    case RoomTest => HasRoom(c, s, s.threads[k].role)
    case Assertion => true
    case LoadItems => true
    case StoreItems => true
    case LoadHist => true
    case StoreHist => true
    case _ => false
  }

  function Distance(p: Pc): nat
  {
    match p
    case LoopTest => 10 case PreTest => 9 case Lock => 8
    case RoomTest => 7 case Assertion => 6 case LoadItems => 5 case StoreItems => 4 case LoadHist => 3
    case StoreHist => 2 case CountWait => 2 case Unlock => 1 case Done => 0
  }

  /** The holder of the lock can run on to its release. */
  lemma {:induction false} Drain(c: Config, s: State, k: nat) returns (p: seq<nat>, t: State)
    requires Inv(c, s) && k < |s.threads| && Inside(s.threads[k].pc)
    ensures Path(c, s, p, t) && Inv(c, t) && !t.locked
    ensures Sum(t.threads, RoleSign) == Sum(s.threads, RoleSign)
    ensures Work(c, t) <= Work(c, s) - if Productive(c, s, k) then 1 else 0
    decreases Distance(s.threads[k].pc)
  {
    hide Sum, Inv, Work;
    var s1 := Do(c, s, k);
    NoFault(c, s, k);
    StepInv(c, s, k);
    StepWork(c, s, k);
    PathStep(c, s, k);
    if s.threads[k].pc.Unlock? {
      p, t := [k], s1;
    } else {
      var q;
      q, t := Drain(c, s1, k);
      PathAppend(c, s, [k], s1, q, t);
      p := [k] + q;
    }
  }

  /** With the lock free, an unfinished thread that has room can complete one operation. */
  lemma {:induction false} Operate(c: Config, s: State, k: nat) returns (p: seq<nat>, t: State)
    requires Inv(c, s) && !s.locked && k < |s.threads| && s.threads[k].i < c.iterations
    requires s.threads[k].pc.LoopTest? || s.threads[k].pc.PreTest? || s.threads[k].pc.Lock?
    requires HasRoom(c, s, s.threads[k].role)
    ensures Path(c, s, p, t) && Inv(c, t)
    ensures Sum(t.threads, RoleSign) == Sum(s.threads, RoleSign)
    ensures Work(c, t) < Work(c, s)
    decreases Distance(s.threads[k].pc)
  {
    hide Sum, Inv, Work;
    var s1 := Do(c, s, k);
    NoFault(c, s, k);
    StepInv(c, s, k);
    StepWork(c, s, k);
    PathStep(c, s, k);
    var q;
    if s.threads[k].pc.Lock? {
      q, t := Drain(c, s1, k);
    } else {
      q, t := Operate(c, s1, k);
    }
    PathAppend(c, s, [k], s1, q, t);
    p := [k] + q;
  }

  function Short(c: Config): Thread -> int { (t: Thread) => SignedIndex(t) - c.iterations * Delta(t.role) }

  function Owed(c: Config): Thread -> int { (t: Thread) => c.iterations * Delta(t.role) - SignedIndex(t) }

  lemma ShortSum(c: Config, s: State)
    requires Conserved(c, s) && !s.locked
    ensures Sum(s.threads, Short(c)) == s.items - Surplus(c, s.threads, RoleSign)
    ensures Sum(s.threads, Owed(c)) == Surplus(c, s.threads, RoleSign) - s.items
  {
    FreeSums(c, s);
    SurplusLeft(c, s.threads, SignedIndex, RoleSign, Short(c), Owed(c));
  }

  /** With the lock free and operations left, some thread with operations left has room. */
  lemma SomeoneHasRoom(c: Config, s: State, j: nat) returns (k: nat)
    requires Conserved(c, s) && ThreadsOk(c, s) && Fits(c, s.threads, RoleSign) && !s.locked && c.max > 0
    requires j < |s.threads| && s.threads[j].i < c.iterations
    ensures k < |s.threads| && s.threads[k].i < c.iterations && HasRoom(c, s, s.threads[k].role)
  {
    ShortSum(c, s);
    assert forall i :: 0 <= i < |s.threads| ==> ThreadOk(c, s, s.threads[i]);
    hide Sum, ThreadsOk;
    if HasRoom(c, s, s.threads[j].role) {
      k := j;
    } else {
      k := SumWitnessOther(s.threads, if s.threads[j].role.Producer? then Short(c) else Owed(c), j);
    }
  }

  /** One stretch of a completing schedule, which leaves less to do. */
  lemma Advance(c: Config, s: State) returns (p: seq<nat>, t: State)
    requires Inv(c, s) && Fits(c, s.threads, RoleSign) && c.max > 0 && !AllDone(s)
    ensures Path(c, s, p, t) && Inv(c, t) && Fits(c, t.threads, RoleSign)
    ensures Work(c, t) <= Work(c, s)
    ensures Work(c, t) == Work(c, s) ==> !t.locked
    ensures Work(c, t) == Work(c, s) ==> s.locked || Sum(t.threads, Unfinished) < Sum(s.threads, Unfinished)
  {
    hide Sum, Work;
    if s.locked {
      var k := SumWitness(s.threads, Holds);
      p, t := Drain(c, s, k);
    } else if k: nat :| k < |s.threads| && s.threads[k].i == c.iterations && !s.threads[k].pc.Done? {
      assert ThreadOk(c, s, s.threads[k]);
      HolderLocks(c, s, k);
      NoFault(c, s, k);
      StepInv(c, s, k);
      StepWork(c, s, k);
      PathStep(c, s, k);
      p, t := [k], Do(c, s, k);
    } else {
      var j: nat :| j < |s.threads| && !s.threads[j].pc.Done?;
      assert ThreadOk(c, s, s.threads[j]);
      var k := SomeoneHasRoom(c, s, j);
      assert ThreadOk(c, s, s.threads[k]);
      HolderLocks(c, s, k);
      p, t := Operate(c, s, k);
    }
  }

  /** From every state of the invariant, some schedule finishes every thread. */
  lemma {:induction false} Complete(c: Config, s: State) returns (p: seq<nat>, t: State)
    requires Inv(c, s) && Fits(c, s.threads, RoleSign) && c.max > 0
    ensures Path(c, s, p, t) && Inv(c, t) && Fits(c, t.threads, RoleSign) && AllDone(t)
    decreases Work(c, s), s.locked, Sum(s.threads, Unfinished)
  {
    SumNonNegative(s.threads, Unfinished);
    WorkNonNegative(c, s);
    hide Sum, Inv, Work, Fits;
    if AllDone(s) {
      p, t := [], s;
    } else {
      var q, u := Advance(c, s);
      WorkNonNegative(c, u);
      var r;
      r, t := Complete(c, u);
      PathAppend(c, s, q, u, r, t);
      p := q + r;
    }
  }

  lemma WorkNonNegative(c: Config, s: State)
    requires Inv(c, s)
    ensures Work(c, s) >= 0
  {
    forall k | 0 <= k < |s.threads| ensures Remaining(c)(s.threads[k]) >= 0 {
      assert ThreadOk(c, s, s.threads[k]);
    }
    SumNonNegative(s.threads, Remaining(c));
  }

  /**
   * From every reachable state some schedule completes all threads exactly when the surplus fits into the buffer.
   */
  lemma CompletableIff(c: Config, s0: State, schedule: seq<nat>, s: State)
    requires Init(c, s0) && Path(c, s0, schedule, s) && c.max > 0
    ensures (exists p, t :: Path(c, s, p, t) && AllDone(t)) <==> Fits(c, s0.threads, RoleSign)
  {
    InitInv(c, s0);
    PathInv(c, s0, schedule, s);
    PathRoles(c, s0, schedule, s);
    if Fits(c, s0.threads, RoleSign) {
      var p, t := Complete(c, s);
    } else if p, t :| Path(c, s, p, t) && AllDone(t) {
      PathInv(c, s, p, t);
      PathRoles(c, s, p, t);
      AtRest(c, t);
    }
  }

  /** When all threads have finished, the buffer holds the surplus and the histogram adds up. */
  lemma Final(c: Config, s0: State, schedule: seq<nat>, s: State)
    requires Init(c, s0) && Path(c, s0, schedule, s) && AllDone(s)
    ensures s.items == Surplus(c, s0.threads, RoleSign) && !s.locked
    ensures Total(s.hist) == |s.threads| * c.iterations && Alternating(s.hist) == Level(s.items)
  {
    InitInv(c, s0);
    PathInv(c, s0, schedule, s);
    PathRoles(c, s0, schedule, s);
    AtRest(c, s);
  }

  /** And of p threads of a role each has waited at most (p - 1) NUM_ITERATIONS times on average. */
  lemma FinalWaits(c: Config, s0: State, schedule: seq<nat>, s: State, r: Role)
    requires Init(c, s0) && Path(c, s0, schedule, s) && AllDone(s)
    ensures var p := Sum(s0.threads, HasRole(r)); Waits(s, r) <= (p - 1) * (c.iterations * p)
  {
    InitInv(c, s0);
    PathInv(c, s0, schedule, s);
    WaitsBounded(c, s0, schedule, s, r);
    forall k | 0 <= k < |s.threads| ensures s.threads[k].i == c.iterations {
      assert ThreadOk(c, s, s.threads[k]);
    }
    SumScaled(s.threads, HasRole(r), Stores(r), c.iterations);
  }

  lemma {:induction false} PathRoles(c: Config, s: State, schedule: seq<nat>, t: State)
    requires Inv(c, s) && Path(c, s, schedule, t)
    ensures Sum(t.threads, RoleSign) == Sum(s.threads, RoleSign)
    decreases |schedule|
  {
    if schedule != [] {
      StepInv(c, s, schedule[0]);
      StepWork(c, s, schedule[0]);
      PathRoles(c, Do(c, s, schedule[0]), schedule[1..], t);
    }
  }

  lemma {:induction false} DoneEntries(c: Config, ts: seq<Thread>)
    requires forall k :: 0 <= k < |ts| ==> ts[k].i == c.iterations
    ensures Sum(ts, Entries) == |ts| * c.iterations
  {
    if ts != [] {
      DoneEntries(c, ts[1..]);
    }
  }

  lemma EndParity(c: Config, s: State)
    requires Conserved(c, s) && AllDone(s)
    ensures Sum(s.threads, Entries) % 2 == s.items % 2
  {
    SumParity(s.threads, Net, Entries);
  }

  lemma AtRest(c: Config, s: State)
    requires Inv(c, s) && AllDone(s)
    ensures s.items == Surplus(c, s.threads, RoleSign) && !s.locked
    ensures Total(s.hist) == |s.threads| * c.iterations && Alternating(s.hist) == Level(s.items)
  {
    hide Sum, Total, Alternating, Surplus;
    forall k | 0 <= k < |s.threads| ensures s.threads[k].i == c.iterations {
      assert ThreadOk(c, s, s.threads[k]);
    }
    SumZero(s.threads, Holds);
    ShortSum(c, s);
    SumZero(s.threads, Short(c));
    DoneEntries(c, s.threads);
    EndParity(c, s);
  }

  // ---------------------------------------------------------------- what the histogram and the wait counts count

  /** A run: the states passed through, and the thread that takes each step. */
  ghost predicate IsRun(c: Config, run: seq<State>, schedule: seq<nat>)
  {
    && |run| == |schedule| + 1 && Init(c, run[0])
    && forall n :: 0 <= n < |schedule| ==> Enabled(run[n], schedule[n]) && run[n + 1] == Do(c, run[n], schedule[n])
  }

  /** The states of a run are those the schedule leads to. */
  lemma {:induction false} RunIsPath(c: Config, run: seq<State>, schedule: seq<nat>, n: nat)
    requires IsRun(c, run, schedule) && n < |run|
    ensures Path(c, run[0], schedule[..n], run[n]) && Inv(c, run[n])
  {
    if n == 0 {
      InitInv(c, run[0]);
    } else {
      RunIsPath(c, run, schedule, n - 1);
      var k := schedule[n - 1];
      assert Enabled(run[n - 1], k) && run[n] == Do(c, run[n - 1], k);
      StepInv(c, run[n - 1], k);
      PathStep(c, run[n - 1], k);
      PathAppend(c, run[0], schedule[..n - 1], run[n - 1], [k], run[n]);
      assert schedule[..n] == schedule[..n - 1] + [k];
    }
  }

  /** items becomes i. */
  function Becomes(i: int): (State, State) -> bool
  {
    (s: State, s': State) => s'.items == i && s.items != i
  }

  /** Entry i of the histogram and, while items is i, the entry about to be made. */
  function Due(i: int): State -> int
  {
    (s: State) => if 0 <= i < |s.hist| then s.hist[i] + (if s.items == i then Sum(s.threads, Unrecorded) else 0) else 0
  }

  /** A thread at its store to items is the only one under the lock: no entry is due. */
  lemma NoneUnrecorded(c: Config, s: State, k: nat)
    requires Conserved(c, s) && k < |s.threads| && s.threads[k].pc.StoreItems?
    ensures Sum(s.threads, Unrecorded) == 0
  {
    hide Sum;
    SumNonNegative(s.threads, Unrecorded);
    SumPlus(s.threads, Unrecorded, NotUnrecorded, Holds);
    SumAtLeast(s.threads, NotUnrecorded, k);
  }

  /** What a step does to the one entry, and to those that are due. */
  lemma StepDue(c: Config, s: State, k: nat, i: int)
    requires Inv(c, s) && Enabled(s, k) && 0 <= i <= c.max
    ensures Due(i)(Do(c, s, k)) == Due(i)(s) + if Becomes(i)(s, Do(c, s, k)) then 1 else 0
  {
    NoFault(c, s, k);
    assert ThreadOk(c, s, s.threads[k]);
    SumUpdate(s.threads, k, Do(c, s, k).threads[k], Unrecorded);
    if s.threads[k].pc.StoreItems? {
      NoneUnrecorded(c, s, k);
    }
    if s.threads[k].pc.StoreHist? {
      OneUnrecorded(c, s, k);
    }
    hide Sum, Inv;
  }

  lemma NoUnrecorded(ts: seq<Thread>)
    requires forall k :: 0 <= k < |ts| ==> !ts[k].pc.LoadHist? && !ts[k].pc.StoreHist?
    ensures Sum(ts, Unrecorded) == 0
  {
    SumZero(ts, Unrecorded);
  }

  /**
   * In every reachable state, entry i is the number of times items has become i, less the one entry a thread may
   * still have to make.
   */
  lemma HistogramCounts(c: Config, run: seq<State>, schedule: seq<nat>, n: nat, i: int)
    requires IsRun(c, run, schedule) && n < |run| && 0 <= i <= c.max
    ensures Due(i)(run[n]) == Happened(run[..n + 1], Becomes(i))
  {
    var r := run[..n + 1];
    NoUnrecorded(run[0].threads);
    forall m | 0 <= m && m + 1 < |r| ensures Due(i)(r[m + 1]) == Due(i)(r[m]) + if Becomes(i)(r[m], r[m + 1]) then 1 else 0 {
      RunIsPath(c, run, schedule, m);
      assert Enabled(run[m], schedule[m]) && run[m + 1] == Do(c, run[m], schedule[m]);
      StepDue(c, run[m], schedule[m], i);
    }
    CountsEvents(r, Due(i), Becomes(i));
  }

  /** A thread of role r makes its test under the lock and finds no room. */
  function FindsNone(c: Config, r: Role): (State, State) -> bool
  {
    (s: State, s': State) => !HasRoom(c, s, r) && exists k :: 0 <= k < |s.threads| && TestsNow(r, s, s', k)
  }

  predicate TestsNow(r: Role, s: State, s': State, k: nat)
  {
    k < |s.threads| && k < |s'.threads| && s.threads[k].role == r && s.threads[k].pc.RoomTest? && !s'.threads[k].pc.RoomTest?
  }

  /** Found no room, and not yet counted. */
  function AtCount(r: Role): Thread -> int
  {
    (t: Thread) => if t.role == r && t.pc.CountWait? then 1 else 0
  }

  function Refused(r: Role): State -> int
  {
    (s: State) => Waits(s, r) + Sum(s.threads, AtCount(r))
  }

  lemma ThreadRefused(c: Config, s: State, k: nat, r: Role)
    requires Enabled(s, k)
    requires var s' := Do(c, s, k); !s'.fault && |s'.threads| == |s.threads|
    ensures var s', t, t' := Do(c, s, k), s.threads[k], Do(c, s, k).threads[k];
      Waits(s', r) + AtCount(r)(t') == Waits(s, r) + AtCount(r)(t) + if FindsNone(c, r)(s, s') then 1 else 0
  {
    var s' := Do(c, s, k);
    if s.threads[k].pc.RoomTest? && s.threads[k].role == r {
      assert TestsNow(r, s, s', k);
    }
  }

  lemma StepRefused(c: Config, s: State, k: nat, r: Role)
    requires Inv(c, s) && Enabled(s, k)
    ensures Refused(r)(Do(c, s, k)) == Refused(r)(s) + if FindsNone(c, r)(s, Do(c, s, k)) then 1 else 0
  {
    NoFault(c, s, k);
    ThreadRefused(c, s, k, r);
    SumUpdate(s.threads, k, Do(c, s, k).threads[k], AtCount(r));
    hide Do, Sum, Inv, Waits, FindsNone;
  }

  /** In every reachable state, a wait count is the number of times a thread of the role found no room under the lock. */
  lemma WaitsCount(c: Config, run: seq<State>, schedule: seq<nat>, n: nat, r: Role)
    requires IsRun(c, run, schedule) && n < |run|
    ensures Waits(run[n], r) + Sum(run[n].threads, AtCount(r)) == Happened(run[..n + 1], FindsNone(c, r))
  {
    var q := run[..n + 1];
    SumZero(run[0].threads, AtCount(r));
    forall m | 0 <= m && m + 1 < |q|
      ensures Refused(r)(q[m + 1]) == Refused(r)(q[m]) + if FindsNone(c, r)(q[m], q[m + 1]) then 1 else 0
    {
      RunIsPath(c, run, schedule, m);
      assert Enabled(run[m], schedule[m]) && run[m + 1] == Do(c, run[m], schedule[m]);
      StepRefused(c, run[m], schedule[m], r);
    }
    CountsEvents(q, Refused(r), FindsNone(c, r));
  }

  lemma ReportEntry(c: Config, run: seq<State>, schedule: seq<nat>, i: int)
    requires IsRun(c, run, schedule) && AllDone(run[|schedule|]) && 0 <= i <= c.max
    ensures |run[|schedule|].hist| == c.max + 1 && run[|schedule|].hist[i] == Happened(run, Becomes(i))
  {
    hide Happened, Becomes, Sum;
    RunIsPath(c, run, schedule, |schedule|);
    assert run[..|schedule| + 1] == run;
    NoUnrecorded(run[|schedule|].threads);
    HistogramCounts(c, run, schedule, |schedule|, i);
  }

  lemma ReportWaits(c: Config, run: seq<State>, schedule: seq<nat>, r: Role)
    requires IsRun(c, run, schedule) && AllDone(run[|schedule|])
    ensures Waits(run[|schedule|], r) == Happened(run, FindsNone(c, r))
  {
    hide Happened, FindsNone, Sum, Waits;
    assert run[..|schedule| + 1] == run;
    WaitsCount(c, run, schedule, |schedule|, r);
    SumZero(run[|schedule|].threads, AtCount(r));
  }

  /** What is printed at the end: each count is that of the events it stands for. */
  lemma Report(c: Config, run: seq<State>, schedule: seq<nat>)
    requires IsRun(c, run, schedule) && AllDone(run[|schedule|])
    ensures |run[|schedule|].hist| == c.max + 1
    ensures forall i :: 0 <= i <= c.max ==> run[|schedule|].hist[i] == Happened(run, Becomes(i))
    ensures run[|schedule|].producerWaits == Happened(run, FindsNone(c, Producer))
    ensures run[|schedule|].consumerWaits == Happened(run, FindsNone(c, Consumer))
  {
    assert |run| == |schedule| + 1;
    hide IsRun, AllDone, Happened, Becomes, FindsNone;
    ReportEntry(c, run, schedule, 0);
    forall i | 0 <= i <= c.max ensures run[|schedule|].hist[i] == Happened(run, Becomes(i)) {
      ReportEntry(c, run, schedule, i);
    }
    ReportWaits(c, run, schedule, Producer);
    ReportWaits(c, run, schedule, Consumer);
  }
}
