/**
 * The bit-counting program in machine code (a6/A6-3b.s).
 * The array length, the addresses of the two arrays and the stack bottom are parameters of the listing.
 */
module BitCountCode {
  import opened Word
  import opened MainMemory
  import opened Runs
  import opened Isa
  import opened Assembly
  import opened Programs
  import opened BitCount

  /** Array length, addresses of the two arrays, address of the last word of stack. */
  datatype Program = Program(n: int32, x: int32, y: int32, sb: int32)

  /** a6/A6-3b.s as shipped: eight elements, x at 0x2000 with y after it, 24 words of stack from 0x8000. */
  const SHIPPED := Program(8, 0x2000, 0x2020, 0x805c)

  const START := 0x100
  const RETURN := 0x110
  const MAIN := 0x134
  const CALLEE := 0x112
  const F_LOOP := 0x122
  const F_END := 0x130
  const AFTER_CALL := 0x158
  const MAIN_LOOP := 0x140
  const MAIN_END := 0x164
  const CODE_END := 0x16c

  /** The listing, section by section. */
  function Listing(a: int, p: Program): Option<Instr>
  {
    if a < CALLEE then StartCode(a, p)
    else if a < MAIN then CalleeCode(a)
    else if a < MAIN_LOOP then PrologCode(a, p)
    else if a < MAIN_END then LoopCode(a, p)
    else EpilogCode(a)
  }

  /** start */
  function StartCode(a: int, p: Program): Option<Instr>
  {
    match a
    case 0x100 => Some(LdImm(p.sb, 5))
    case 0x106 => Some(Inca(5))
    case 0x108 => Some(Gpc(3, 6))
    case 0x10a => Some(Jmp(MAIN))
    case 0x110 => Some(Halt)
    case _ => None
  }

  /** f */
  function CalleeCode(a: int): Option<Instr>
  {
    match a
    case 0x112 => Some(Deca(5))
    case 0x114 => Some(LdImm(0, 0))
    case 0x11a => Some(LdBase(1, 5, 1))
    case 0x11c => Some(LdImm(MIN, 2))
    case 0x122 => Some(Beq(1, 6))
    case 0x124 => Some(Mov(1, 3))
    case 0x126 => Some(AndI(2, 3))
    case 0x128 => Some(Beq(3, 1))
    case 0x12a => Some(Inc(0))
    case 0x12c => Some(Sh(1, 1))
    case 0x12e => Some(Br(-7))
    case 0x130 => Some(Inca(5))
    case 0x132 => Some(JmpBase(6, 0))
    case _ => None
  }

  /** main */
  function PrologCode(a: int, p: Program): Option<Instr>
  {
    match a
    case 0x134 => Some(Deca(5))
    case 0x136 => Some(Deca(5))
    case 0x138 => Some(StBase(6, 1, 5))
    case 0x13a => Some(LdImm(p.n, 4))
    case _ => None
  }

  /** main_loop */
  function LoopCode(a: int, p: Program): Option<Instr>
  {
    match a
    case 0x140 => Some(Beq(4, 17))
    case 0x142 => Some(Dec(4))
    case 0x144 => Some(LdImm(p.x, 0))
    case 0x14a => Some(LdIdx(0, 4, 0))
    case 0x14c => Some(Deca(5))
    case 0x14e => Some(StBase(0, 0, 5))
    case 0x150 => Some(Gpc(3, 6))
    case 0x152 => Some(Jmp(CALLEE))
    case 0x158 => Some(Inca(5))
    case 0x15a => Some(LdImm(p.y, 1))
    case 0x160 => Some(StIdx(0, 1, 4))
    case 0x162 => Some(Br(-18))
    case _ => None
  }

  /** main_end */
  function EpilogCode(a: int): Option<Instr>
  {
    match a
    case 0x164 => Some(LdBase(1, 5, 6))
    case 0x166 => Some(Inca(5))
    case 0x168 => Some(Inca(5))
    case 0x16a => Some(JmpBase(6, 0))
    case _ => None
  }

  function Source(p: Program): Code { a => Listing(a, p) }

  predicate Apart(a: int, la: int, b: int, lb: int) { a + la <= b || b + lb <= a }

  /** Aligned, in range and mutually disjoint: the code, both arrays and the 16 bytes of stack the calls use. */
  predicate Layout(m: Bytes, p: Program)
  {
    && p.n >= 0 && p.x % 4 == 0 && p.y % 4 == 0 && p.sb % 4 == 0
    && InRange(m, p.x, 4 * p.n) && InRange(m, p.y, 4 * p.n) && InRange(m, p.sb - 12, 16)
    && Apart(p.x, 4 * p.n, p.y, 4 * p.n)
    && Apart(p.x, 4 * p.n, p.sb - 12, 16)
    && Apart(p.y, 4 * p.n, p.sb - 12, 16)
    && Apart(p.y, 4 * p.n, START, CODE_END - START)
    && Apart(p.sb - 12, 16, START, CODE_END - START)
  }

  function Word4(m: Bytes, base: int, k: int): int32
    requires 0 <= k && 0 <= base && base + 4 * k + 4 <= |m|
  {
    ReadWord(m, base + 4 * k)
  }

  /** The bytes the program may have changed once it has filled y[k..]. */
  predicate Touched(a: int, p: Program, k: int)
  {
    p.y + 4 * k <= a < p.y + 4 * p.n || p.sb - 8 <= a < p.sb - 4 || p.sb <= a < p.sb + 4
  }

  ghost predicate Untouched(m: Bytes, m': Bytes, p: Program, k: int)
  {
    |m'| == |m| && forall a :: 0 <= a < |m| && !Touched(a, p, k) ==> m'[a] == m[a]
  }

  /** y[k..] holds the bit counts of x[k..], and nothing else but two stack words has changed since m0. */
  ghost predicate Filled(m0: Bytes, m: Bytes, p: Program, k: int)
    requires Layout(m0, p) && 0 <= k
  {
    && Untouched(m0, m, p, k)
    && forall j {:trigger Word4(m, p.y, j)} :: k <= j < p.n ==> Word4(m, p.y, j) == PopCount(Word4(m0, p.x, j))
  }

  /** Control is at main_loop with elements k.. done. */
  ghost predicate AtLoop(m0: Bytes, s: State, p: Program, k: int)
    requires Layout(m0, p)
  {
    && 0 <= k <= p.n
    && s.pc == MAIN_LOOP && s.reg.r4 == k && s.reg.r5 == p.sb - 4
    && Filled(m0, s.mem, p, k)
    && ReadWord(s.mem, p.sb) == RETURN
  }

  lemma CodeFrame(m: Bytes, m': Bytes, p: Program, k: int)
    requires Layout(m, p) && Loaded(m, Source(p)) && 0 <= k && Untouched(m, m', p, k)
    ensures Loaded(m', Source(p)) && Layout(m', p)
  {
    forall a: int32 | Source(p)(a).Some? ensures START <= a && a + Length(Source(p)(a).value) <= CODE_END {
    }
    LoadedFrame(m, m', Source(p));
  }

  /** The words the program stores to: two stack slots, and y[k] for the element in hand. */
  predicate Writable(p: Program, k: int, a: int)
  {
    0 <= k <= p.n && (a == p.sb || a == p.sb - 8 || (k < p.n && a == p.y + 4 * k))
  }

  /** Storing a word into the stack or into y leaves the program loaded and the rest of memory as it was. */
  lemma StoreFrame(m: Bytes, p: Program, k: int, a: int, v: int32)
    requires Layout(m, p) && Loaded(m, Source(p)) && Writable(p, k, a)
    ensures InRange(m, a, 4) && a % 4 == 0
    ensures ReadWord(WriteWord(m, a, v), a) == v
    ensures SameOutside(m, WriteWord(m, a, v), a, a + 4) && Untouched(m, WriteWord(m, a, v), p, k)
    ensures Layout(WriteWord(m, a, v), p) && Loaded(WriteWord(m, a, v), Source(p))
  {
    hide ReadWord, WriteWord, Loaded;
    ReadAfterWrite(m, a, v);
    CodeFrame(m, WriteWord(m, a, v), p, k);
  }

  lemma Push(s0: State, s: State, p: Program, k: int, a: int32, i: Instr) returns (t: State)
    requires Reaches(Step, s0, s)
    requires Loaded(s.mem, Source(p)) && s.pc == a && Listing(a, p) == Some(i)
    requires (i.StBase? || i.StIdx?) && Layout(s.mem, p) && Writable(p, k, Target(i, s))
    ensures Accessible(s.mem, Target(i, s))
    ensures t == Past(s, i).(mem := WriteWord(s.mem, Target(i, s), s.reg.Get(i.s)))
    ensures Layout(t.mem, p) && Loaded(t.mem, Source(p)) && Untouched(s.mem, t.mem, p, k)
    ensures SameOutside(s.mem, t.mem, Target(i, s), Target(i, s) + 4)
    ensures ReadWord(t.mem, Target(i, s)) == s.reg.Get(i.s)
    ensures Reaches(Step, s0, t)
  {
    StoreFrame(s.mem, p, k, Target(i, s), s.reg.Get(i.s));
    hide Listing, ReadWord, WriteWord, Wrap, Reaches, Loaded, Layout, Writable, SameOutside, Untouched;
    t := NextStore(s0, s, Source(p), a, i);
  }

  lemma Start(s0: State, p: Program) returns (s: State)
    requires Layout(s0.mem, p) && Loaded(s0.mem, Source(p)) && s0.pc == START
    ensures Reaches(Step, s0, s)
    ensures s.mem == s0.mem && s.pc == MAIN && s.reg.r5 == p.sb + 4 && s.reg.r6 == RETURN
  {
    hide Wrap, Loaded, Reaches;
    ReachesSelf(Step, s0);
    s := Next(s0, s0, Source(p), 0x100, LdImm(p.sb, 5));
    s := Next(s0, s, Source(p), 0x106, Inca(5));
    s := Next(s0, s, Source(p), 0x108, Gpc(3, 6));
    s := Next(s0, s, Source(p), 0x10a, Jmp(MAIN));
  }

  lemma MainProlog(s0: State, p: Program) returns (s: State)
    requires Layout(s0.mem, p) && Loaded(s0.mem, Source(p))
    requires s0.pc == MAIN && s0.reg.r5 == p.sb + 4 && s0.reg.r6 == RETURN
    ensures Reaches(Step, s0, s)
    ensures s.mem == WriteWord(s0.mem, p.sb, RETURN)
    ensures Untouched(s0.mem, s.mem, p, p.n) && ReadWord(s.mem, p.sb) == RETURN
    ensures s.pc == MAIN_LOOP && s.reg.r4 == p.n && s.reg.r5 == p.sb - 4
  {
    hide Wrap, Loaded, ReadWord, WriteWord, Reaches, SameOutside, Untouched;
    ReachesSelf(Step, s0);
    s := Next(s0, s0, Source(p), 0x134, Deca(5));
    s := Next(s0, s, Source(p), 0x136, Deca(5));
    s := Push(s0, s, p, p.n, 0x138, StBase(6, 1, 5));
    s := Next(s0, s, Source(p), 0x13a, LdImm(p.n, 4));
  }

  /** main_loop up to the call, with element k next: its word is pushed on the stack. */
  lemma Call(s0: State, p: Program, k: nat) returns (s: State)
    requires Layout(s0.mem, p) && Loaded(s0.mem, Source(p)) && k < p.n
    requires s0.pc == MAIN_LOOP && s0.reg.r4 == k + 1 && s0.reg.r5 == p.sb - 4
    ensures Reaches(Step, s0, s)
    ensures s.mem == WriteWord(s0.mem, p.sb - 8, Word4(s0.mem, p.x, k))
    ensures Layout(s.mem, p) && Loaded(s.mem, Source(p)) && Untouched(s0.mem, s.mem, p, k + 1)
    ensures SameOutside(s0.mem, s.mem, p.sb - 8, p.sb - 4)
    ensures ReadWord(s.mem, p.sb - 8) == Word4(s0.mem, p.x, k)
    ensures s.pc == CALLEE && s.reg.r4 == k && s.reg.r5 == p.sb - 8 && s.reg.r6 == AFTER_CALL
  {
    hide Wrap, Scaled, Loaded, ReadWord, WriteWord, Reaches, SameOutside, Untouched;
    ReachesSelf(Step, s0);
    s := Next(s0, s0, Source(p), 0x140, Beq(4, 17));
    s := Next(s0, s, Source(p), 0x142, Dec(4));
    s := Next(s0, s, Source(p), 0x144, LdImm(p.x, 0));
    ScaledExact(p.x, k);
    s := NextLoad(s0, s, Source(p), 0x14a, LdIdx(0, 4, 0));
    s := Next(s0, s, Source(p), 0x14c, Deca(5));
    s := Push(s0, s, p, k + 1, 0x14e, StBase(0, 0, 5));
    s := Next(s0, s, Source(p), 0x150, Gpc(3, 6));
    s := Next(s0, s, Source(p), 0x152, Jmp(CALLEE));
  }

  lemma FProlog(s0: State, p: Program, v: int32) returns (s: State)
    requires Layout(s0.mem, p) && Loaded(s0.mem, Source(p))
    requires s0.pc == CALLEE && s0.reg.r5 == p.sb - 8 && ReadWord(s0.mem, p.sb - 8) == v
    ensures Reaches(Step, s0, s)
    ensures s.mem == s0.mem && s.pc == F_LOOP && s.reg.r0 == 0 && s.reg.r1 == v && s.reg.r2 == MIN
    ensures s.reg.r4 == s0.reg.r4 && s.reg.r5 == p.sb - 12 && s.reg.r6 == s0.reg.r6
  {
    hide Wrap, Loaded, ReadWord, Reaches;
    ReachesSelf(Step, s0);
    s := Next(s0, s0, Source(p), 0x112, Deca(5));
    s := Next(s0, s, Source(p), 0x114, LdImm(0, 0));
    s := NextLoad(s0, s, Source(p), 0x11a, LdBase(1, 5, 1));
    s := Next(s0, s, Source(p), 0x11c, LdImm(MIN, 2));
  }

  /** Registers 4 to 6, which f leaves to its caller. */
  predicate SameFrame(s: State, t: State)
  {
    s.reg.r4 == t.reg.r4 && s.reg.r5 == t.reg.r5 && s.reg.r6 == t.reg.r6
  }

  /** One iteration of f_loop tests and drops the top one of the w + 1 bits left. */
  lemma FIteration(s0: State, p: Program, w: nat, v: nat) returns (s: State)
    requires Loaded(s0.mem, Source(p)) && s0.pc == F_LOOP && s0.reg.r2 == MIN
    requires w < 32 && v < Pow2(w + 1) && s0.reg.r1 == Shifted(w + 1, v) && s0.reg.r1 != 0
    requires 0 <= s0.reg.r0 <= 32
    ensures Reaches(Step, s0, s)
    ensures s.mem == s0.mem && s.pc == F_LOOP && s.reg.r2 == MIN && SameFrame(s, s0)
    ensures s.reg.r1 == Shifted(w, Rest(w, v))
    ensures s.reg.r0 == s0.reg.r0 + if v >= Pow2(w) then 1 else 0
  {
    hide Wrap, And, Shl, Shifted, Loaded, Reaches;
    ReachesSelf(Step, s0);
    ShiftedTop(w, v);
    AndSign(s0.reg.r1);
    s := Next(s0, s0, Source(p), 0x122, Beq(1, 6));
    s := Next(s0, s, Source(p), 0x124, Mov(1, 3));
    s := Next(s0, s, Source(p), 0x126, AndI(2, 3));
    s := Next(s0, s, Source(p), 0x128, Beq(3, 1));
    if v >= Pow2(w) {
      s := Next(s0, s, Source(p), 0x12a, Inc(0));
    }
    s := Next(s0, s, Source(p), 0x12c, Sh(1, 1));
    s := Next(s0, s, Source(p), 0x12e, Br(-7));
  }

  /** f_loop counts the ones among the w bits left. */
  lemma {:induction false} FLoop(s0: State, p: Program, w: nat, v: nat) returns (s: State)
    requires Loaded(s0.mem, Source(p)) && s0.pc == F_LOOP && s0.reg.r2 == MIN
    requires w <= 32 && v < Pow2(w) && s0.reg.r1 == Shifted(w, v)
    requires 0 <= s0.reg.r0 <= 32 - w
    ensures Reaches(Step, s0, s)
    ensures s.mem == s0.mem && s.pc == F_END && SameFrame(s, s0)
    ensures s.reg.r0 == s0.reg.r0 + Ones(w, v)
    decreases w
  {
    hide Wrap, Shifted, Loaded, Reaches;
    ShiftedZero(w, v);
    ReachesSelf(Step, s0);
    if v == 0 {
      OnesZero(w);
      s := Next(s0, s0, Source(p), 0x122, Beq(1, 6));
    } else {
      var t := FIteration(s0, p, w - 1, v);
      OnesFromTop(w - 1, v);
      s := FLoop(t, p, w - 1, Rest(w - 1, v));
      ReachesTrans(Step, s0, t, s);
    }
  }

  /** The body of f: r0 is the number of one bits in the pushed word. */
  lemma Callee(s0: State, p: Program) returns (s: State)
    requires Layout(s0.mem, p) && Loaded(s0.mem, Source(p)) && s0.pc == CALLEE && s0.reg.r5 == p.sb - 8
    ensures Reaches(Step, s0, s)
    ensures s.mem == s0.mem && s.pc == F_END && s.reg.r0 == PopCount(ReadWord(s0.mem, p.sb - 8))
    ensures s.reg.r4 == s0.reg.r4 && s.reg.r5 == p.sb - 12 && s.reg.r6 == s0.reg.r6
  {
    var v := ReadWord(s0.mem, p.sb - 8);
    hide Loaded, ReadWord, Reaches, Shifted;
    var s1 := FProlog(s0, p, v);
    ShiftedWhole(v);
    s := FLoop(s1, p, 32, Unsigned(v));
    ReachesTrans(Step, s0, s1, s);
  }

  /** f returns, and main stores its result in y[k] and goes round. */
  lemma Return(s0: State, p: Program, k: nat) returns (s: State)
    requires Layout(s0.mem, p) && Loaded(s0.mem, Source(p)) && k < p.n
    requires s0.pc == F_END && s0.reg.r4 == k && s0.reg.r5 == p.sb - 12 && s0.reg.r6 == AFTER_CALL
    ensures Reaches(Step, s0, s)
    ensures s.mem == WriteWord(s0.mem, p.y + 4 * k, s0.reg.r0)
    ensures Layout(s.mem, p) && Loaded(s.mem, Source(p))
    ensures SameOutside(s0.mem, s.mem, p.y + 4 * k, p.y + 4 * k + 4) && Word4(s.mem, p.y, k) == s0.reg.r0
    ensures s.pc == MAIN_LOOP && s.reg.r4 == k && s.reg.r5 == p.sb - 4
  {
    hide Wrap, Scaled, Loaded, ReadWord, WriteWord, Reaches, SameOutside, Untouched;
    ReachesSelf(Step, s0);
    s := Next(s0, s0, Source(p), 0x130, Inca(5));
    s := Next(s0, s, Source(p), 0x132, JmpBase(6, 0));
    s := Next(s0, s, Source(p), 0x158, Inca(5));
    s := Next(s0, s, Source(p), 0x15a, LdImm(p.y, 1));
    ScaledExact(p.y, k);
    s := Push(s0, s, p, k, 0x160, StIdx(0, 1, 4));
    s := Next(s0, s, Source(p), 0x162, Br(-18));
  }

  /** What the two stores of one iteration do to the invariant: m1 has the argument pushed, m2 the result stored. */
  lemma FillOne(m0: Bytes, m: Bytes, m1: Bytes, m2: Bytes, p: Program, k: nat)
    requires Layout(m0, p) && k < p.n && Filled(m0, m, p, k + 1) && ReadWord(m, p.sb) == RETURN
    requires |m1| == |m| && SameOutside(m, m1, p.sb - 8, p.sb - 4)
    requires SameOutside(m1, m2, p.y + 4 * k, p.y + 4 * k + 4)
    requires Word4(m2, p.y, k) == PopCount(Word4(m, p.x, k))
    ensures Filled(m0, m2, p, k) && ReadWord(m2, p.sb) == RETURN
  {
    hide ReadWord, PopCount;
    ReadFrame(m, m2, p.sb);
    ReadFrame(m0, m, p.x + 4 * k);
    forall j | k + 1 <= j < p.n ensures Word4(m2, p.y, j) == Word4(m, p.y, j) {
      ReadFrame(m, m2, p.y + 4 * j);
    }
  }

  lemma Iteration(m0: Bytes, s0: State, p: Program, k: nat) returns (s: State)
    requires Layout(m0, p) && Loaded(m0, Source(p)) && k < p.n && AtLoop(m0, s0, p, k + 1)
    ensures Reaches(Step, s0, s) && AtLoop(m0, s, p, k)
  {
    CodeFrame(m0, s0.mem, p, k + 1);
    hide Loaded, ReadWord, WriteWord, Reaches, SameOutside, Untouched, PopCount;
    var s1 := Call(s0, p, k);
    var s2 := Callee(s1, p);
    s := Return(s2, p, k);
    FillOne(m0, s0.mem, s1.mem, s.mem, p, k);
    ReachesTrans(Step, s0, s1, s2);
    ReachesTrans(Step, s0, s2, s);
  }

  lemma {:induction false} MainLoop(m0: Bytes, s0: State, p: Program, k: nat) returns (s: State)
    requires Layout(m0, p) && Loaded(m0, Source(p)) && k <= p.n && AtLoop(m0, s0, p, k)
    ensures Reaches(Step, s0, s) && AtLoop(m0, s, p, 0)
    decreases k
  {
    hide Layout, Loaded, AtLoop, Reaches;
    if k == 0 {
      ReachesSelf(Step, s0);
      s := s0;
    } else {
      var t := Iteration(m0, s0, p, k - 1);
      s := MainLoop(m0, t, p, k - 1);
      ReachesTrans(Step, s0, t, s);
    }
  }

  /** main returns through the saved address, with the stack pointer where start set it. */
  lemma Epilog(s0: State, p: Program) returns (s: State)
    requires Layout(s0.mem, p) && Loaded(s0.mem, Source(p))
    requires s0.pc == MAIN_LOOP && s0.reg.r4 == 0 && s0.reg.r5 == p.sb - 4 && ReadWord(s0.mem, p.sb) == RETURN
    ensures Reaches(Step, s0, s)
    ensures s.mem == s0.mem && s.reg.r5 == p.sb + 4 && s.pc == RETURN
  {
    hide Wrap, Loaded, ReadWord, Reaches;
    ReachesSelf(Step, s0);
    s := Next(s0, s0, Source(p), 0x140, Beq(4, 17));
    s := NextLoad(s0, s, Source(p), 0x164, LdBase(1, 5, 6));
    s := Next(s0, s, Source(p), 0x166, Inca(5));
    s := Next(s0, s, Source(p), 0x168, Inca(5));
    s := Next(s0, s, Source(p), 0x16a, JmpBase(6, 0));
  }

  /** The whole run from the state m0 to the state m: y holds the bit counts of x; all else but two stack words is kept. */
  ghost predicate Counted(m0: Bytes, m: Bytes, p: Program)
    requires Layout(m0, p)
  {
    && |m| == |m0|
    && (forall k {:trigger Word4(m, p.y, k)} :: 0 <= k < p.n ==> Word4(m, p.y, k) == PopCount(Word4(m0, p.x, k)))
    && (forall k {:trigger Word4(m, p.x, k)} :: 0 <= k < p.n ==> Word4(m, p.x, k) == Word4(m0, p.x, k))
    && Loaded(m, Source(p))
    && Untouched(m0, m, p, 0)
  }

  lemma BitCountHalts(s0: State, p: Program) returns (s: State)
    requires Layout(s0.mem, p) && Loaded(s0.mem, Source(p)) && s0.pc == START
    ensures HaltsIn(Step, s0, s)
    ensures Counted(s0.mem, s.mem, p)
    ensures s.reg.r5 == p.sb + 4
  {
    hide Reaches, HaltsIn, ReadWord, WriteWord, Loaded;
    var s1 := Start(s0, p);
    var s2 := MainProlog(s1, p);
    var s3 := MainLoop(s0.mem, s2, p, p.n);
    CodeFrame(s0.mem, s3.mem, p, 0);
    var s4 := Epilog(s3, p);
    ReachesTrans(Step, s0, s1, s2);
    ReachesTrans(Step, s0, s2, s3);
    ReachesTrans(Step, s0, s3, s4);
    Stop(s0, s4, Source(p));
    s := Past(s4, Halt);
    forall k | 0 <= k < p.n ensures Word4(s.mem, p.x, k) == Word4(s0.mem, p.x, k) {
      ReadFrame(s0.mem, s.mem, p.x + 4 * k);
    }
  }
}
