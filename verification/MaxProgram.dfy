/** The hand-assembled program for the maximum of ten words (a7/sm_jt.c, loadMax), on the C machine. */
module MaxProgram {
  import opened Word
  import opened MainMemory
  import opened Runs
  import Isa
  import SmJt
  import opened Assembly
  import opened Programs
  import opened Portability

  // ---------------------------------------------------------------- what the program computes

  /** The program compares by the sign of a wrapped difference. */
  function Keep(m: int32, x: int32): int32
  {
    if Wrap(m as int - x) > 0 then m else x
  }

  /** The max register after the first n elements of s. */
  function Fold(m: int32, s: seq<int32>, n: nat): int32
    requires n <= |s|
  {
    if n == 0 then m else Keep(Fold(m, s, n - 1), s[n - 1])
  }

  /** The largest of m and the first n elements of s. */
  function MaxOf(m: int32, s: seq<int32>, n: nat): (r: int32)
    requires n <= |s|
    ensures r == m || exists k :: 0 <= k < n && r == s[k]
    ensures m <= r && forall k :: 0 <= k < n ==> s[k] <= r
  {
    if n == 0 then m else
      var p := MaxOf(m, s, n - 1);
      if p > s[n - 1] then p else s[n - 1]
  }

  /** No running maximum differs from the next element by more than a word can hold. */
  ghost predicate NoOverflow(m: int32, s: seq<int32>, n: nat)
    requires n <= |s|
  {
    forall k {:trigger MaxOf(m, s, k)} :: 0 <= k < n ==> -TWO31 <= MaxOf(m, s, k) - s[k] as int < TWO31
  }

  lemma KeepIsMax(m: int32, x: int32)
    ensures Keep(m, x) == (if m > x then m else x) <==> -TWO31 <= m as int - x < TWO31
  {
  }

  ghost predicate RightThroughout(m: int32, s: seq<int32>, n: nat)
    requires n <= |s|
  {
    forall k :: 0 <= k <= n ==> Fold(m, s, k) == MaxOf(m, s, k)
  }

  /** The running maximum is right after every element exactly when no difference overflows. */
  lemma {:induction false} FoldIsMax(m: int32, s: seq<int32>, n: nat)
    requires n <= |s|
    ensures RightThroughout(m, s, n) <==> NoOverflow(m, s, n)
  {
    hide Keep;
    if n > 0 {
      FoldIsMax(m, s, n - 1);
      KeepIsMax(MaxOf(m, s, n - 1), s[n - 1]);
      assert RightThroughout(m, s, n) ==> Fold(m, s, n - 1) == MaxOf(m, s, n - 1) && Fold(m, s, n) == MaxOf(m, s, n);
      assert NoOverflow(m, s, n) ==> RightThroughout(m, s, n - 1) && Fold(m, s, n) == MaxOf(m, s, n);
    }
  }

  /** How many elements have been seen when the last one equal to the maximum has; 0 when only m is. */
  function LastMax(m: int32, s: seq<int32>, n: nat): (p: nat)
    requires n <= |s|
    ensures p <= n && MaxOf(m, s, n) == if p == 0 then m else s[p - 1]
    ensures forall k :: p <= k < n ==> s[k] < MaxOf(m, s, n)
  {
    if n == 0 then 0
    else if s[n - 1] >= MaxOf(m, s, n - 1) then n
    else LastMax(m, s, n - 1)
  }

  /**
   * The maximum's last occurrence replaces what the register then holds, and no later element replaces it. Other
   * differences may overflow.
   */
  ghost predicate Survives(m: int32, s: seq<int32>, n: nat)
    requires n <= |s|
  {
    var p := LastMax(m, s, n);
    && (p > 0 ==> -TWO31 <= Fold(m, s, p - 1) - s[p - 1] as int)
    && Outlasts(m, s, n)
  }

  /** No element after the maximum's last occurrence is smaller by more than a word can hold. */
  ghost predicate Outlasts(m: int32, s: seq<int32>, n: nat)
    requires n <= |s|
  {
    forall k :: LastMax(m, s, n) <= k < n ==> MaxOf(m, s, n) - s[k] as int < TWO31
  }

  lemma {:induction false} FoldAtMost(m: int32, s: seq<int32>, n: nat)
    requires n <= |s|
    ensures Fold(m, s, n) <= MaxOf(m, s, n)
  {
    if n > 0 {
      FoldAtMost(m, s, n - 1);
    }
  }

  lemma KeepBelow(f: int32, x: int32, top: int32)
    requires f <= top && x <= top
    ensures x == top ==> (Keep(f, x) == top <==> -TWO31 <= f as int - x)
    ensures x < top ==> (Keep(f, x) == top <==> f == top && f as int - x < TWO31)
  {
  }

  /** One more element: a new maximum has to get in, any other must not push the maximum out. */
  lemma SurvivesStep(m: int32, s: seq<int32>, n: nat)
    requires 0 < n <= |s|
    ensures s[n - 1] == MaxOf(m, s, n) ==> (Survives(m, s, n) <==> -TWO31 <= Fold(m, s, n - 1) - s[n - 1] as int)
    ensures s[n - 1] < MaxOf(m, s, n) ==> MaxOf(m, s, n) == MaxOf(m, s, n - 1)
    ensures s[n - 1] < MaxOf(m, s, n) ==>
      (Survives(m, s, n) <==> Survives(m, s, n - 1) && MaxOf(m, s, n) - s[n - 1] as int < TWO31)
  {
    hide Fold;
  }

  /** The final answer is right exactly when the maximum survives. */
  lemma {:induction false} FinalIsMax(m: int32, s: seq<int32>, n: nat)
    requires n <= |s|
    ensures Fold(m, s, n) == MaxOf(m, s, n) <==> Survives(m, s, n)
  {
    if n > 0 {
      FinalIsMax(m, s, n - 1);
      FinalStep(m, s, n);
    }
  }

  lemma FinalStep(m: int32, s: seq<int32>, n: nat)
    requires 0 < n <= |s|
    requires Fold(m, s, n - 1) == MaxOf(m, s, n - 1) <==> Survives(m, s, n - 1)
    ensures Fold(m, s, n) == MaxOf(m, s, n) <==> Survives(m, s, n)
  {
    assert Fold(m, s, n) == Keep(Fold(m, s, n - 1), s[n - 1]) && MaxOf(m, s, n - 1) <= MaxOf(m, s, n);
    hide Fold, MaxOf, Keep, Survives;
    FoldAtMost(m, s, n - 1);
    KeepBelow(Fold(m, s, n - 1), s[n - 1], MaxOf(m, s, n));
    SurvivesStep(m, s, n);
  }

  /** With no overflow up to the maximum's last occurrence, only the elements after it decide. */
  lemma FinalWithin(m: int32, s: seq<int32>, n: nat)
    requires n <= |s| && NoOverflow(m, s, LastMax(m, s, n))
    ensures Fold(m, s, n) == MaxOf(m, s, n) <==> Outlasts(m, s, n)
  {
    hide Keep, LastMax, MaxOf, Fold;
    FinalIsMax(m, s, n);
    var p := LastMax(m, s, n);
    if p > 0 {
      FoldIsMax(m, s, p);
      assert Fold(m, s, p - 1) == MaxOf(m, s, p - 1);
      assert -TWO31 <= MaxOf(m, s, p - 1) - s[p - 1] as int;
    }
  }

  /** An overflow need not make the final answer wrong. */
  lemma OverflowCanBeHarmless()
    ensures var s := [10, MIN, -1, 10, 10, 10, 10, 10, 10, 10];
      !NoOverflow(-1, s, 10) && Survives(-1, s, 10) && Fold(-1, s, 10) == MaxOf(-1, s, 10) == 10
  {
    var s: seq<int32> := [10, MIN, -1, 10, 10, 10, 10, 10, 10, 10];
    assert Fold(-1, s, 1) == 10 && MaxOf(-1, s, 1) == 10;
    assert Fold(-1, s, 2) == MIN && MaxOf(-1, s, 2) == 10;
    assert Fold(-1, s, 3) == -1 && MaxOf(-1, s, 3) == 10;
    hide Keep;
    Tens(s, 10);
    FinalIsMax(-1, s, 10);
  }

  lemma {:induction false} Tens(s: seq<int32>, n: nat)
    requires 3 < n <= |s| && Fold(-1, s, 3) == -1 && MaxOf(-1, s, 3) == 10
    requires forall k :: 3 <= k < n ==> s[k] == 10
    ensures Fold(-1, s, n) == MaxOf(-1, s, n) == 10
  {
    if n > 4 {
      Tens(s, n - 1);
    }
  }

  /** No array of non-negative words overflows against the start value -1, the array loadMax stores among them. */
  lemma NonNegative(m: int32, s: seq<int32>, n: nat)
    requires n <= |s| && m >= -1 && forall k :: 0 <= k < n ==> s[k] >= 0
    ensures NoOverflow(m, s, n)
  {
  }

  /** An overflow can make the final answer wrong. */
  lemma OverflowGoesWrong()
    ensures var s := [0x7fff_ffff, -1, 0, 0, 0, 0, 0, 0, 0, 0];
      Fold(-1, s, 10) == 0 && MaxOf(-1, s, 10) == 0x7fff_ffff
  {
    var s: seq<int32> := [0x7fff_ffff, -1, 0, 0, 0, 0, 0, 0, 0, 0];
    assert Fold(-1, s, 3) == Keep(Keep(Keep(-1, s[0]), s[1]), s[2]) == 0;
    assert Fold(-1, s, 6) == Keep(Keep(Keep(Fold(-1, s, 3), s[3]), s[4]), s[5]) == 0;
    assert Fold(-1, s, 9) == Keep(Keep(Keep(Fold(-1, s, 6), s[6]), s[7]), s[8]) == 0;
    assert s[0] == 0x7fff_ffff;
  }

  // ---------------------------------------------------------------- the program

  const LOOP := 0x6a
  const OUT := 0x82
  const ARRAY := 8
  const COUNT := 10

  function Listing(a: int): Option<Instr>
  {
    if a < LOOP then EntryCode(a) else if a < OUT then LoopCode(a) else ExitCode(a)
  }

  function EntryCode(a: int): Option<Instr>
  {
    match a
    case 0x50 => Some(LdImm(0, 0))
    case 0x56 => Some(LdImm(-10, 1))
    case 0x5c => Some(LdImm(0, 2))
    case 0x62 => Some(LdBase(0, 2, 3))
    case 0x64 => Some(LdImm(8, 4))
    case _ => None
  }

  function LoopCode(a: int): Option<Instr>
  {
    match a
    case 0x6a => Some(Mov(0, 5))
    case 0x6c => Some(Add(1, 5))
    case 0x6e => Some(Beq(5, 9))
    case 0x70 => Some(LdIdx(4, 0, 5))
    case 0x72 => Some(Mov(5, 7))
    case 0x74 => Some(NotI(7))
    case 0x76 => Some(Inc(7))
    case 0x78 => Some(Add(3, 7))
    case 0x7a => Some(Bgt(7, 1))
    case 0x7c => Some(Mov(5, 3))
    case 0x7e => Some(Inc(0))
    case 0x80 => Some(Br(-12))
    case _ => None
  }

  function ExitCode(a: int): Option<Instr>
  {
    match a
    case 0x82 => Some(StBase(3, 0, 2))
    case 0x84 => Some(LdImm(4, 1))
    case 0x8a => Some(StBase(0, 0, 1))
    case 0x8c => Some(Halt)
    case _ => None
  }

  function Source(): Code { a => Listing(a) }

  /** The array at address 8 as a sequence. */
  function Elements(m: Bytes): (s: seq<int32>)
    requires |m| >= 48
    ensures |s| == COUNT
  {
    seq(COUNT, k requires 0 <= k < COUNT => ReadWord(m, ARRAY + 4 * k))
  }

  /** At the head of the loop with k elements seen. */
  ghost predicate AtLoop(c: SmJt.Sm, m0: Bytes, k: nat)
    requires |m0| >= 48
  {
    var s := c.core;
    && k <= COUNT
    && s.mem == m0 && s.pc == LOOP
    && s.reg.r0 == k && s.reg.r1 == -10 && s.reg.r2 == 0 && s.reg.r4 == ARRAY
    && s.reg.r3 == Fold(ReadWord(m0, 0), Elements(m0), k)
  }

  lemma Enter(c0: SmJt.Sm) returns (c: SmJt.Sm)
    requires c0.core.pc == 0x50 && Loaded(c0.core.mem, Source()) && |c0.core.mem| >= 48
    ensures Reaches(SmJt.Step, c0, c) && AtLoop(c, c0.core.mem, 0)
  {
    hide Wrap, Loaded, Reaches, ReadWord;
    ReachesSelf(SmJt.Step, c0);
    c := NextC(c0, c0, Source(), 0x50, LdImm(0, 0));
    c := NextC(c0, c, Source(), 0x56, LdImm(-10, 1));
    c := NextC(c0, c, Source(), 0x5c, LdImm(0, 2));
    c := LoadC(c0, c, 0x62, LdBase(0, 2, 3));
    c := NextC(c0, c, Source(), 0x64, LdImm(8, 4));
  }

  /** The difference the loop tests: complement, increment and add. */
  lemma Difference(m: int32, x: int32)
    ensures Wrap(m as int + Wrap(Not(x) as int + 1)) == Wrap(m as int - x)
  {
    WrapAdd(-(x as int), m);
    assert Not(x) as int + 1 == -(x as int);
  }

  lemma ElementAt(m0: Bytes, k: nat)
    requires |m0| >= 48 && k < COUNT
    ensures Isa.Scaled(ARRAY, k) == ARRAY + 4 * k && Accessible(m0, ARRAY + 4 * k)
    ensures ReadWord(m0, ARRAY + 4 * k) == Elements(m0)[k]
  {
    hide ReadWord;
    ScaledExact(ARRAY, k);
  }

  lemma LoadC(c0: SmJt.Sm, c: SmJt.Sm, a: int32, i: Instr) returns (d: SmJt.Sm)
    requires Reaches(SmJt.Step, c0, c) && Loaded(c.core.mem, Source()) && c.core.pc == a && Listing(a) == Some(i)
    requires (i.LdBase? || i.LdIdx?) && Accessible(c.core.mem, Target(i, c.core))
    ensures d.core == Write(Past(c.core, i), i.d, ReadWord(c.core.mem, Target(i, c.core)))
    ensures Reaches(SmJt.Step, c0, d)
  {
    hide Wrap, Loaded, Reaches, ReadWord, Effect, Accessible, Isa.Scaled;
    LoadEffect(i, Past(c.core, i));
    d := NextC(c0, c, Source(), a, i);
  }

  /** The exit test: r5 is zero, and control leaves the loop, when all elements are seen. */
  lemma ExitTest(c0: SmJt.Sm, m0: Bytes, k: nat) returns (c: SmJt.Sm)
    requires Loaded(m0, Source()) && k <= COUNT
    requires c0.core.mem == m0 && c0.core.pc == LOOP && c0.core.reg.r0 == k && c0.core.reg.r1 == -10
    ensures Reaches(SmJt.Step, c0, c)
    ensures c.core == c0.core.(pc := if k == COUNT then OUT else 0x70, reg := c0.core.reg.(r5 := k - 10))
  {
    hide Wrap, Loaded, Reaches, EntryCode, ExitCode;
    ReachesSelf(SmJt.Step, c0);
    c := NextC(c0, c0, Source(), 0x6a, Mov(0, 5));
    c := NextC(c0, c, Source(), 0x6c, Add(1, 5));
    c := NextC(c0, c, Source(), 0x6e, Beq(5, 9));
  }

  /** The exit test and the load of the next element. */
  lemma NextElement(c0: SmJt.Sm, m0: Bytes, k: nat) returns (c: SmJt.Sm)
    requires |m0| >= 48 && Loaded(m0, Source()) && k < COUNT && AtLoop(c0, m0, k)
    ensures Reaches(SmJt.Step, c0, c)
    ensures c.core == c0.core.(pc := 0x72, reg := c0.core.reg.(r5 := Elements(m0)[k]))
  {
    ElementAt(m0, k);
    hide Wrap, Isa.Scaled, Loaded, Reaches, ReadWord, Fold, Elements, Accessible, EntryCode, ExitCode;
    c := ExitTest(c0, m0, k);
    c := LoadC(c0, c, 0x70, LdIdx(4, 0, 5));
  }

  /** r7 becomes the wrapped difference of the running maximum and the element. */
  lemma Subtract(c0: SmJt.Sm, m0: Bytes) returns (c: SmJt.Sm)
    requires Loaded(m0, Source()) && c0.core.mem == m0 && c0.core.pc == 0x72
    ensures Reaches(SmJt.Step, c0, c)
    ensures c.core == c0.core.(pc := 0x7a,
      reg := c0.core.reg.(r7 := Wrap(c0.core.reg.r3 as int - c0.core.reg.r5)))
  {
    Difference(c0.core.reg.r3, c0.core.reg.r5);
    hide Wrap, Not, Loaded, Reaches;
    ReachesSelf(SmJt.Step, c0);
    c := NextC(c0, c0, Source(), 0x72, Mov(5, 7));
    c := NextC(c0, c, Source(), 0x74, NotI(7));
    c := NextC(c0, c, Source(), 0x76, Inc(7));
    c := NextC(c0, c, Source(), 0x78, Add(3, 7));
  }

  lemma Compare(c0: SmJt.Sm, m0: Bytes, k: nat) returns (c: SmJt.Sm)
    requires Loaded(m0, Source()) && c0.core.mem == m0 && c0.core.pc == 0x72 && c0.core.reg.r0 == k < COUNT
    ensures Reaches(SmJt.Step, c0, c)
    ensures c.core.mem == m0 && c.core.pc == LOOP && c.core.reg.r0 == k + 1
    ensures c.core.reg.r1 == c0.core.reg.r1 && c.core.reg.r2 == c0.core.reg.r2 && c.core.reg.r4 == c0.core.reg.r4
    ensures c.core.reg.r3 == Keep(c0.core.reg.r3, c0.core.reg.r5)
  {
    hide Wrap, Loaded, Reaches;
    var d := Subtract(c0, m0);
    c := Update(d, m0, k);
    ReachesTrans(SmJt.Step, c0, d, c);
  }

  /** The running maximum is replaced unless r7 is positive, and the loop goes on. */
  lemma Update(c0: SmJt.Sm, m0: Bytes, k: nat) returns (c: SmJt.Sm)
    requires Loaded(m0, Source()) && c0.core.mem == m0 && c0.core.pc == 0x7a && c0.core.reg.r0 == k < COUNT
    ensures Reaches(SmJt.Step, c0, c)
    ensures c.core == c0.core.(pc := LOOP, reg := c0.core.reg.(r0 := k + 1,
      r3 := if c0.core.reg.r7 > 0 then c0.core.reg.r3 else c0.core.reg.r5))
  {
    hide Wrap, Loaded, Reaches;
    ReachesSelf(SmJt.Step, c0);
    c := NextC(c0, c0, Source(), 0x7a, Bgt(7, 1));
    if c.core.pc == 0x7c {
      c := NextC(c0, c, Source(), 0x7c, Mov(5, 3));
    }
    c := NextC(c0, c, Source(), 0x7e, Inc(0));
    c := NextC(c0, c, Source(), 0x80, Br(-12));
  }

  lemma {:induction false} Loop(c0: SmJt.Sm, m0: Bytes, k: nat) returns (c: SmJt.Sm)
    requires |m0| >= 48 && Loaded(m0, Source()) && k <= COUNT && AtLoop(c0, m0, k)
    ensures Reaches(SmJt.Step, c0, c) && AtLoop(c, m0, COUNT)
    decreases COUNT - k
  {
    hide Loaded, Reaches, Elements, ReadWord, Keep;
    if k == COUNT {
      ReachesSelf(SmJt.Step, c0);
      c := c0;
    } else {
      var c1 := NextElement(c0, m0, k);
      var c2 := Compare(c1, m0, k);
      ReachesTrans(SmJt.Step, c0, c1, c2);
      c := Loop(c2, m0, k + 1);
      ReachesTrans(SmJt.Step, c0, c2, c);
    }
  }

  ghost predicate Computed(m0: Bytes, m: Bytes)
    requires |m0| >= 48
  {
    && |m| == |m0|
    && ReadWord(m, 0) == Fold(ReadWord(m0, 0), Elements(m0), COUNT)
    && ReadWord(m, 4) == COUNT
    && forall a :: 8 <= a < |m0| ==> m[a] == m0[a]
  }

  /** Storing the result, past the loop. */
  lemma Leave(c0: SmJt.Sm, m0: Bytes) returns (c: SmJt.Sm)
    requires |m0| >= 48 && Loaded(m0, Source()) && AtLoop(c0, m0, COUNT)
    ensures HaltsIn(SmJt.Step, c0, c) && Computed(m0, c.core.mem)
  {
    hide Wrap, Loaded, Reaches, HaltsIn, ReadWord, WriteWord, Fold, Elements;
    c := ExitTest(c0, m0, COUNT);
    c := PutWord(c0, c, 0x82, StBase(3, 0, 2), 0);
    var m1 := c.core.mem;
    c := NextC(c0, c, Source(), 0x84, LdImm(4, 1));
    c := PutWord(c0, c, 0x8a, StBase(0, 0, 1), 4);
    ReadFrame(m1, c.core.mem, 0);
    c := StopC(c0, c, Source());
  }

  /** A store to one of the two result words leaves the code loaded. */
  lemma PutWord(c0: SmJt.Sm, c: SmJt.Sm, a: int32, i: Instr, x: int32) returns (d: SmJt.Sm)
    requires Reaches(SmJt.Step, c0, c) && Loaded(c.core.mem, Source()) && c.core.pc == a && Listing(a) == Some(i)
    requires i.StBase? && Target(i, c.core) == x && (x == 0 || x == 4) && |c.core.mem| >= 48
    ensures d.core == Past(c.core, i).(mem := WriteWord(c.core.mem, x, c.core.reg.Get(i.s)))
    ensures Loaded(d.core.mem, Source()) && SameOutside(c.core.mem, d.core.mem, x, x + 4)
    ensures ReadWord(d.core.mem, x) == c.core.reg.Get(i.s)
    ensures Reaches(SmJt.Step, c0, d)
  {
    hide Wrap, Loaded, Reaches, ReadWord, WriteWord;
    StoreEffect(i, Past(c.core, i));
    d := NextC(c0, c, Source(), a, i);
    ReadAfterWrite(c.core.mem, x, c.core.reg.Get(i.s));
    forall b: int32 | Source()(b).Some? ensures b >= 0x50 {
    }
    LoadedFrame(c.core.mem, d.core.mem, Source());
  }

  /** The run halts with the folded maximum at 0 and the count at 4; array and code are as they were. */
  lemma MaxHalts(c0: SmJt.Sm) returns (c: SmJt.Sm)
    requires c0.core.pc == 0x50 && Loaded(c0.core.mem, Source()) && |c0.core.mem| >= 48
    ensures HaltsIn(SmJt.Step, c0, c) && Computed(c0.core.mem, c.core.mem)
    ensures Survives(ReadWord(c0.core.mem, 0), Elements(c0.core.mem), COUNT) <==>
      ReadWord(c.core.mem, 0) == MaxOf(ReadWord(c0.core.mem, 0), Elements(c0.core.mem), COUNT)
  {
    var m0 := c0.core.mem;
    hide Loaded, Reaches, HaltsIn, ReadWord, Elements;
    var c1 := Enter(c0);
    var c2 := Loop(c1, m0, 0);
    c := Leave(c2, m0);
    ReachesTrans(SmJt.Step, c0, c1, c2);
    ReachesThenHalts(SmJt.Step, c0, c2, c);
    FinalIsMax(ReadWord(m0, 0), Elements(m0), COUNT);
  }

  // ---------------------------------------------------------------- the hand-assembled words

  /** The program as loadMax stores it, 16 bits at a time. */
  function Word0(k: nat): Unsigned16
  {
    match k
    case 0 => 0x0000
    case 1 => 0x0000
    case 2 => 0x0000
    case 3 => 0x0100
    case 4 => 0xffff
    case 5 => 0xfff6
    case 6 => 0x0200
    case 7 => 0x0000
    case _ => 0
  }

  function Word8(k: nat): Unsigned16
  {
    match k
    case 8 => 0x0000
    case 9 => 0x1023
    case 10 => 0x0400
    case 11 => 0x0000
    case 12 => 0x0008
    case 13 => 0x6005
    case 14 => 0x6115
    case 15 => 0x9509
    case _ => 0
  }

  function Word16(k: nat): Unsigned16
  {
    match k
    case 16 => 0x2405
    case 17 => 0x6057
    case 18 => 0x6707
    case 19 => 0x6307
    case 20 => 0x6137
    case 21 => 0xa701
    case 22 => 0x6053
    case 23 => 0x6300
    case _ => 0
  }

  function Word24(k: nat): Unsigned16
  {
    match k
    case 24 => 0x80f4
    case 25 => 0x3302
    case 26 => 0x0100
    case 27 => 0x0000
    case 28 => 0x0004
    case 29 => 0x3001
    case 30 => 0xf000
    case _ => 0
  }

  function Image(k: nat): Unsigned16
  {
    if k < 8 then Word0(k) else if k < 16 then Word8(k) else if k < 24 then Word16(k) else Word24(k)
  }

  const IMAGE_SIZE := 31

  ghost predicate ImageAt(m: Bytes, a: nat)
  {
    a + 2 * IMAGE_SIZE <= |m| &&
    forall k: nat :: k < IMAGE_SIZE ==> m[a + 2 * k] == Image(k) / 0x100 && m[a + 2 * k + 1] == Image(k) % 0x100
  }

  lemma ShortAt(m: Bytes, k: nat, i: Instr)
    requires ImageAt(m, 0x50) && k < IMAGE_SIZE && Length(i) == 2
    requires Format(i, Isa.Decode(Image(k) / 0x100, Image(k) % 0x100, 0))
    ensures At(m, 0x50 + 2 * k, i)
  {
    hide Format, Image;
  }

  lemma LongAt(m: Bytes, k: nat, i: Instr)
    requires ImageAt(m, 0x50) && k + 2 < IMAGE_SIZE && Length(i) == 6
    requires Format(i, Isa.Decode(Image(k) / 0x100, Image(k) % 0x100, Wrap(Image(k + 1) * 0x1_0000 + Image(k + 2))))
    ensures At(m, 0x50 + 2 * k, i)
  {
    hide Format, Image, Wrap, Isa.SignedByte;
    var a := 0x50 + 2 * k;
    assert m[a + 2] == Image(k + 1) / 0x100 && m[a + 3] == Image(k + 1) % 0x100;
    assert m[a + 4] == Image(k + 2) / 0x100 && m[a + 5] == Image(k + 2) % 0x100;
    var b0: int, b1: int, b2: int := m[a + 2], m[a + 3], m[a + 4];
    assert b0 * 0x100_0000 + b1 * 0x1_0000 + b2 * 0x100 + m[a + 5] == Image(k + 1) * 0x1_0000 + Image(k + 2);
    assert ReadWord(m, a + 2) == Wrap(Image(k + 1) * 0x1_0000 + Image(k + 2));
  }

  lemma EntryAt(m: Bytes)
    requires ImageAt(m, 0x50)
    ensures forall a: int32 :: EntryCode(a).Some? ==> At(m, a, EntryCode(a).value)
  {
    hide ImageAt, At;
    LongAt(m, 0, EntryCode(0x50).value);
    LongAt(m, 3, EntryCode(0x56).value);
    LongAt(m, 6, EntryCode(0x5c).value);
    ShortAt(m, 9, EntryCode(0x62).value);
    LongAt(m, 10, EntryCode(0x64).value);
  }

  lemma TestAt(m: Bytes)
    requires ImageAt(m, 0x50)
    ensures forall a: int32 :: 0x6a <= a < 0x72 && LoopCode(a).Some? ==> At(m, a, LoopCode(a).value)
  {
    hide ImageAt, At;
    ShortAt(m, 13, LoopCode(0x6a).value);
    ShortAt(m, 14, LoopCode(0x6c).value);
    ShortAt(m, 15, LoopCode(0x6e).value);
    ShortAt(m, 16, LoopCode(0x70).value);
  }

  lemma SubtractAt(m: Bytes)
    requires ImageAt(m, 0x50)
    ensures forall a: int32 :: 0x72 <= a < 0x7a && LoopCode(a).Some? ==> At(m, a, LoopCode(a).value)
  {
    hide ImageAt, At;
    ShortAt(m, 17, LoopCode(0x72).value);
    ShortAt(m, 18, LoopCode(0x74).value);
    ShortAt(m, 19, LoopCode(0x76).value);
    ShortAt(m, 20, LoopCode(0x78).value);
  }

  lemma UpdateAt(m: Bytes)
    requires ImageAt(m, 0x50)
    ensures forall a: int32 :: 0x7a <= a < 0x7e && LoopCode(a).Some? ==> At(m, a, LoopCode(a).value)
  {
    hide ImageAt, At;
    ShortAt(m, 21, LoopCode(0x7a).value);
    ShortAt(m, 22, LoopCode(0x7c).value);
  }

  lemma RepeatAt(m: Bytes)
    requires ImageAt(m, 0x50)
    ensures forall a: int32 :: 0x7e <= a < 0x82 && LoopCode(a).Some? ==> At(m, a, LoopCode(a).value)
  {
    hide ImageAt, At;
    ShortAt(m, 23, LoopCode(0x7e).value);
    ShortAt(m, 24, LoopCode(0x80).value);
  }

  lemma ExitAt(m: Bytes)
    requires ImageAt(m, 0x50)
    ensures forall a: int32 :: ExitCode(a).Some? ==> At(m, a, ExitCode(a).value)
  {
    hide ImageAt, At;
    ShortAt(m, 25, ExitCode(0x82).value);
    LongAt(m, 26, ExitCode(0x84).value);
    ShortAt(m, 29, ExitCode(0x8a).value);
    ShortAt(m, 30, ExitCode(0x8c).value);
  }

  /** The words in loadMax assemble to the program. */
  lemma ImageIsProgram(m: Bytes)
    requires ImageAt(m, 0x50)
    ensures Loaded(m, Source())
  {
    hide ImageAt, At;
    EntryAt(m);
    TestAt(m);
    SubtractAt(m);
    UpdateAt(m);
    RepeatAt(m);
    ExitAt(m);
    forall a: int32 | Source()(a).Some? ensures At(m, a, Source()(a).value) {
      assert Listing(a).Some?;
    }
  }
}
