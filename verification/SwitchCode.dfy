/** The jump-table program in machine code (a7/A7_4.s). */
module SwitchCode {
  import opened Word
  import opened MainMemory
  import opened Runs
  import opened Isa
  import opened Assembly
  import opened Programs
  import opened Switch

  const I_ADDRESS := 0x200
  const J_ADDRESS := 0x204
  const M_ADDRESS := 0x208
  const N_ADDRESS := 0x20c
  const FRAME := 0x101c
  const CALLEE := 0x300
  const DISPATCH := 0x328
  const DEFAULT := 0x384
  const JOIN := 0x38c
  const RETURN := 0x34
  const TABLE := 0x400

  /** The listing, section by section. */
  function Listing(a: int): Option<Instr>
  {
    if a < 0x20 then StartCode(a)
    else if a < CALLEE then CallCode(a)
    else if a < 0x314 then ArgumentCode(a)
    else if a < 0x330 then RangeCode(a)
    else if a < 0x33c then Case10And12Code(a)
    else if a < 0x354 then Case14Code(a)
    else if a < 0x36c then Case16Code(a)
    else if a < DEFAULT then Case18Code(a)
    else EndCode(a)
  }

  function StartCode(a: int): Option<Instr>
  {
    match a
    case 0x00 => Some(LdImm(0x1028, 5))
    case 0x06 => Some(LdImm(-12, 0))
    case 0x0c => Some(Add(0, 5))
    case 0x0e => Some(LdImm(0x200, 0))
    case 0x14 => Some(LdBase(0, 0, 0))
    case 0x16 => Some(StBase(0, 0, 5))
    case 0x18 => Some(LdImm(0x204, 0))
    case 0x1e => Some(LdBase(0, 0, 0))
    case _ => None
  }

  function CallCode(a: int): Option<Instr>
  {
    match a
    case 0x20 => Some(StBase(0, 1, 5))
    case 0x22 => Some(LdImm(0x208, 0))
    case 0x28 => Some(LdBase(0, 0, 0))
    case 0x2a => Some(StBase(0, 2, 5))
    case 0x2c => Some(Gpc(3, 6))
    case 0x2e => Some(Jmp(0x300))
    case 0x34 => Some(LdImm(0x20c, 1))
    case 0x3a => Some(StBase(0, 0, 1))
    case 0x3c => Some(Halt)
    case _ => None
  }

  function ArgumentCode(a: int): Option<Instr>
  {
    match a
    case 0x300 => Some(LdBase(0, 5, 0))
    case 0x302 => Some(LdBase(1, 5, 1))
    case 0x304 => Some(LdBase(2, 5, 2))
    case 0x306 => Some(LdImm(-10, 3))
    case 0x30c => Some(Add(3, 0))
    case 0x30e => Some(Mov(0, 3))
    case 0x310 => Some(NotI(3))
    case 0x312 => Some(Inc(3))
    case _ => None
  }

  function RangeCode(a: int): Option<Instr>
  {
    match a
    case 0x314 => Some(Bgt(3, 55))
    case 0x316 => Some(Mov(0, 3))
    case 0x318 => Some(LdImm(-8, 4))
    case 0x31e => Some(Add(4, 3))
    case 0x320 => Some(Bgt(3, 49))
    case 0x322 => Some(LdImm(0x400, 3))
    case 0x328 => Some(JmpIdx(3, 0))
    case _ => None
  }

  function Case10And12Code(a: int): Option<Instr>
  {
    match a
    case 0x330 => Some(Add(1, 2))
    case 0x332 => Some(Br(44))
    case 0x334 => Some(NotI(2))
    case 0x336 => Some(Inc(2))
    case 0x338 => Some(Add(1, 2))
    case 0x33a => Some(Br(40))
    case _ => None
  }

  function Case14Code(a: int): Option<Instr>
  {
    match a
    case 0x33c => Some(NotI(2))
    case 0x33e => Some(Inc(2))
    case 0x340 => Some(Add(1, 2))
    case 0x342 => Some(Bgt(2, 4))
    case 0x344 => Some(LdImm(0, 2))
    case 0x34a => Some(Br(3))
    case 0x34c => Some(LdImm(1, 2))
    case 0x352 => Some(Br(28))
    case _ => None
  }

  function Case16Code(a: int): Option<Instr>
  {
    match a
    case 0x354 => Some(NotI(1))
    case 0x356 => Some(Inc(1))
    case 0x358 => Some(Add(2, 1))
    case 0x35a => Some(Bgt(1, 4))
    case 0x35c => Some(LdImm(0, 2))
    case 0x362 => Some(Br(3))
    case 0x364 => Some(LdImm(1, 2))
    case 0x36a => Some(Br(16))
    case _ => None
  }

  function Case18Code(a: int): Option<Instr>
  {
    match a
    case 0x36c => Some(NotI(2))
    case 0x36e => Some(Inc(2))
    case 0x370 => Some(Add(1, 2))
    case 0x372 => Some(Beq(2, 4))
    case 0x374 => Some(LdImm(0, 2))
    case 0x37a => Some(Br(3))
    case 0x37c => Some(LdImm(1, 2))
    case 0x382 => Some(Br(4))
    case _ => None
  }

  function EndCode(a: int): Option<Instr>
  {
    match a
    case 0x384 => Some(LdImm(0, 2))
    case 0x38a => Some(Br(0))
    case 0x38c => Some(Mov(2, 0))
    case 0x38e => Some(JmpBase(6, 0))
    case _ => None
  }

  function Source(): Code { a => Listing(a) }

  /** The address of the case for i = 10 + k. */
  function Case(k: int): int32
  {
    match k
    case 0 => 0x330
    case 2 => 0x334
    case 4 => 0x33c
    case 6 => 0x354
    case 8 => 0x36c
    case _ => DEFAULT
  }

  /** Code and jump table are in memory, which reaches at least to the end of the stack. */
  ghost predicate Image(m: Bytes)
  {
    && |m| >= 0x1028
    && Loaded(m, Source())
    && forall k :: 0 <= k < 9 ==> ReadWord(m, TABLE + 4 * k) == Case(k)
  }

  /** The bytes a run may change: n and the three stack words. */
  predicate Scratch(a: int)
  {
    N_ADDRESS <= a < N_ADDRESS + 4 || FRAME <= a < FRAME + 12
  }

  ghost predicate Untouched(m: Bytes, m': Bytes)
  {
    |m'| == |m| && forall a :: 0 <= a < |m| && !Scratch(a) ==> m'[a] == m[a]
  }

  lemma ImageFrame(m: Bytes, m': Bytes)
    requires Image(m) && Untouched(m, m')
    ensures Image(m')
  {
    forall a: int32, k: nat | Source()(a).Some? && a <= k < a + Length(Source()(a).value) ensures !Scratch(k) {
      assert a <= 0x3c || 0x300 <= a <= 0x38e;
    }
    LoadedFrame(m, m', Source());
    forall k | 0 <= k < 9 ensures ReadWord(m', TABLE + 4 * k) == Case(k) {
      ReadFrame(m, m', TABLE + 4 * k);
    }
  }

  /** A store to a scratch word. */
  lemma Put(s0: State, s: State, a: int32, i: Instr) returns (t: State)
    requires Reaches(Step, s0, s)
    requires Image(s.mem) && s.pc == a && Listing(a) == Some(i)
    requires (i.StBase? || i.StIdx?) && Target(i, s) % 4 == 0 && Scratch(Target(i, s))
    ensures Accessible(s.mem, Target(i, s))
    ensures t == Past(s, i).(mem := WriteWord(s.mem, Target(i, s), s.reg.Get(i.s)))
    ensures Image(t.mem) && Untouched(s.mem, t.mem)
    ensures SameOutside(s.mem, t.mem, Target(i, s), Target(i, s) + 4)
    ensures ReadWord(t.mem, Target(i, s)) == s.reg.Get(i.s)
    ensures Reaches(Step, s0, t)
  {
    hide Listing, ReadWord, WriteWord, Wrap, Reaches, Loaded;
    var x := Target(i, s);
    t := NextStore(s0, s, Source(), a, i);
    ReadAfterWrite(s.mem, x, s.reg.Get(i.s));
    ImageFrame(s.mem, t.mem);
  }

  /** Copying one global into the frame of the call. */
  lemma Argument(s0: State, s: State, a: int32, q: nibble, r: int32) returns (t: State)
    requires Reaches(Step, s0, s) && Image(s.mem) && s.pc == a && s.reg.r5 == FRAME
    requires Listing(a) == Some(LdImm(r, 0)) && Listing(a + 6) == Some(LdBase(0, 0, 0))
    requires Listing(a + 8) == Some(StBase(0, q, 5))
    requires q < 3 && r % 4 == 0 && 0 <= r < 0x1000 && 0 <= a < 0x1000
    ensures t.pc == a + 10 && t.reg.r5 == FRAME && Image(t.mem) && Untouched(s.mem, t.mem)
    ensures SameOutside(s.mem, t.mem, FRAME + 4 * q, FRAME + 4 * q + 4)
    ensures ReadWord(t.mem, FRAME + 4 * q) == ReadWord(s.mem, r)
    ensures Reaches(Step, s0, t)
  {
    hide Listing, ReadWord, WriteWord, Wrap, Reaches, Loaded, At;
    t := Next(s0, s, Source(), a, LdImm(r, 0));
    t := NextLoad(s0, t, Source(), a + 6, LdBase(0, 0, 0));
    t := Put(s0, t, a + 8, StBase(0, q, 5));
  }

  lemma ImageSize(m: Bytes)
    requires Image(m)
    ensures |m| >= 0x1028 && Loaded(m, Source())
  {
  }

  /** The frame holds the words i, j and m. */
  ghost predicate FrameHolds(s: State, i: int32, j: int32, m: int32)
  {
    && Image(s.mem) && s.reg.r5 == FRAME
    && ReadWord(s.mem, FRAME) == i && ReadWord(s.mem, FRAME + 4) == j && ReadWord(s.mem, FRAME + 8) == m
  }

  lemma Enter(s0: State) returns (s: State)
    requires Image(s0.mem) && s0.pc == 0
    ensures Reaches(Step, s0, s)
    ensures s.mem == s0.mem && s.pc == 0x0e && s.reg.r5 == FRAME
  {
    hide Wrap, Reaches, Loaded, ReadWord;
    ReachesSelf(Step, s0);
    s := Next(s0, s0, Source(), 0x00, LdImm(0x1028, 5));
    s := Next(s0, s, Source(), 0x06, LdImm(-12, 0));
    s := Next(s0, s, Source(), 0x0c, Add(0, 5));
  }

  lemma PassArguments(s0: State) returns (s: State)
    requires Image(s0.mem) && s0.pc == 0
    ensures Reaches(Step, s0, s)
    ensures s.pc == 0x2c && Untouched(s0.mem, s.mem)
    ensures FrameHolds(s, ReadWord(s0.mem, I_ADDRESS), ReadWord(s0.mem, J_ADDRESS), ReadWord(s0.mem, M_ADDRESS))
  {
    hide Wrap, Reaches, Image, ReadWord;
    ImageSize(s0.mem);
    s := Enter(s0);
    var m1 := s.mem;
    s := Argument(s0, s, 0x0e, 0, I_ADDRESS);
    var m2 := s.mem;
    s := Argument(s0, s, 0x18, 1, J_ADDRESS);
    ReadFrame(m1, m2, J_ADDRESS);
    ReadFrame(m2, s.mem, FRAME);
    var m3 := s.mem;
    s := Argument(s0, s, 0x22, 2, M_ADDRESS);
    ReadFrame(m1, m3, M_ADDRESS);
    ReadFrame(m3, s.mem, FRAME);
    ReadFrame(m3, s.mem, FRAME + 4);
  }

  lemma CallFoo(s0: State) returns (s: State)
    requires Image(s0.mem) && s0.pc == 0x2c
    ensures Reaches(Step, s0, s)
    ensures s == s0.(pc := CALLEE, reg := s0.reg.(r6 := RETURN))
  {
    ImageSize(s0.mem);
    hide Wrap, Reaches, Loaded, Image;
    ReachesSelf(Step, s0);
    s := Next(s0, s0, Source(), 0x2c, Gpc(3, 6));
    s := Next(s0, s, Source(), 0x2e, Jmp(CALLEE));
  }

  /** The arguments back in registers. */
  lemma TakeArguments(s0: State) returns (s: State)
    requires Image(s0.mem) && s0.reg.r5 == FRAME && s0.pc == CALLEE
    ensures Reaches(Step, s0, s)
    ensures s.mem == s0.mem && s.pc == 0x306 && s.reg.r6 == s0.reg.r6 && s.reg.r0 == ReadWord(s0.mem, FRAME)
    ensures s.reg.r1 == ReadWord(s0.mem, FRAME + 4) && s.reg.r2 == ReadWord(s0.mem, FRAME + 8)
  {
    ImageSize(s0.mem);
    hide Wrap, Reaches, Loaded, Image, ReadWord;
    ReachesSelf(Step, s0);
    s := NextLoad(s0, s0, Source(), 0x300, LdBase(0, 5, 0));
    s := NextLoad(s0, s, Source(), 0x302, LdBase(1, 5, 1));
    s := NextLoad(s0, s, Source(), 0x304, LdBase(2, 5, 2));
  }

  /** The call, and the arguments back in registers. */
  lemma LoadArguments(s0: State, i: int32, j: int32, m: int32) returns (s: State)
    requires FrameHolds(s0, i, j, m) && s0.pc == 0x2c
    ensures Reaches(Step, s0, s)
    ensures s.mem == s0.mem && s.pc == 0x306 && s.reg.r6 == RETURN
    ensures s.reg.r0 == i && s.reg.r1 == j && s.reg.r2 == m
  {
    hide Reaches, Image, ReadWord;
    var t := CallFoo(s0);
    s := TakeArguments(t);
    ReachesTrans(Step, s0, t, s);
  }

  /** Two wrapped comparisons with zero are the range test of the C source, even where i - 10 or i - 18 wraps. */
  lemma RangeTest(i: int32)
    ensures var r := Wrap(i as int - 10);
      !(Wrap(Not(r) as int + 1) > 0) && !(Wrap(-8 + r as int) > 0) <==> 10 <= i <= 18
    ensures 10 <= i <= 18 ==> Wrap(i as int - 10) == i as int - 10
  {
  }

  lemma RangeCheck(s0: State, i: int32) returns (s: State)
    requires Loaded(s0.mem, Source()) && s0.pc == 0x306 && s0.reg.r0 == i
    ensures Reaches(Step, s0, s)
    ensures s.mem == s0.mem && s.reg.r1 == s0.reg.r1 && s.reg.r2 == s0.reg.r2 && s.reg.r6 == s0.reg.r6
    ensures if 10 <= i <= 18 then s.pc == DISPATCH && s.reg.r0 == i as int - 10 && s.reg.r3 == TABLE else s.pc == DEFAULT
  {
    RangeTest(i);
    hide Wrap, Not, Reaches, Loaded;
    s := NotBelow(s0);
    if s.pc == 0x316 {
      var t := NotAbove(s);
      ReachesTrans(Step, s0, s, t);
      s := t;
    }
  }

  /** The second half. */
  lemma NotAbove(s0: State) returns (s: State)
    requires Loaded(s0.mem, Source()) && s0.pc == 0x316
    ensures Reaches(Step, s0, s)
    ensures s.mem == s0.mem && s.reg.r0 == s0.reg.r0
    ensures s.reg.r1 == s0.reg.r1 && s.reg.r2 == s0.reg.r2 && s.reg.r6 == s0.reg.r6
    ensures if Wrap(-8 + s0.reg.r0 as int) > 0 then s.pc == DEFAULT else s.pc == DISPATCH && s.reg.r3 == TABLE
  {
    hide Wrap, Not, Reaches, Loaded;
    ReachesSelf(Step, s0);
    s := Next(s0, s0, Source(), 0x316, Mov(0, 3));
    s := Next(s0, s, Source(), 0x318, LdImm(-8, 4));
    s := Next(s0, s, Source(), 0x31e, Add(4, 3));
    s := Next(s0, s, Source(), 0x320, Bgt(3, 49));
    if s.pc == 0x322 {
      s := Next(s0, s, Source(), 0x322, LdImm(0x400, 3));
    }
  }

  /** The first half of the range check leaves i - 10 in r0. */
  lemma NotBelow(s0: State) returns (s: State)
    requires Loaded(s0.mem, Source()) && s0.pc == 0x306
    ensures Reaches(Step, s0, s)
    ensures s.mem == s0.mem && s.reg.r1 == s0.reg.r1 && s.reg.r2 == s0.reg.r2 && s.reg.r6 == s0.reg.r6
    ensures s.reg.r0 == Wrap(s0.reg.r0 as int - 10)
    ensures s.pc == if Wrap(Not(s.reg.r0) as int + 1) > 0 then DEFAULT else 0x316
  {
    hide Wrap, Not, Reaches, Loaded;
    ReachesSelf(Step, s0);
    s := Next(s0, s0, Source(), 0x306, LdImm(-10, 3));
    s := Next(s0, s, Source(), 0x30c, Add(3, 0));
    s := Next(s0, s, Source(), 0x30e, Mov(0, 3));
    s := Next(s0, s, Source(), 0x310, NotI(3));
    s := Next(s0, s, Source(), 0x312, Inc(3));
    s := Next(s0, s, Source(), 0x314, Bgt(3, 55));
  }

  lemma TableEntry(m: Bytes, k: int)
    requires Image(m) && 0 <= k < 9
    ensures Scaled(TABLE, k) == TABLE + 4 * k
    ensures ReadAligned(m, TABLE + 4 * k) == Ok(Case(k))
  {
    hide ReadWord, Loaded;
    ScaledExact(TABLE, k);
  }

  /** The indirect jump goes through the table to the case of i. */
  lemma Dispatch(s0: State, k: int) returns (s: State)
    requires Image(s0.mem) && s0.pc == DISPATCH && 0 <= k < 9 && s0.reg.r0 == k && s0.reg.r3 == TABLE
    ensures Reaches(Step, s0, s)
    ensures s == s0.(pc := Case(k))
  {
    ImageSize(s0.mem);
    TableEntry(s0.mem, k);
    hide Wrap, Scaled, Reaches, Loaded, Image, ReadAligned;
    ReachesSelf(Step, s0);
    s := Next(s0, s0, Source(), 0x328, JmpIdx(3, 0));
  }

  /** Each case computes its value from j in r1 and m in r2 and joins the others with it in r2. */
  lemma Cases(s0: State, i: int32, j: int32, m: int32) returns (s: State)
    requires Loaded(s0.mem, Source()) && s0.reg.r1 == j && s0.reg.r2 == m
    requires s0.pc == if 10 <= i <= 18 then Case(i as int - 10) else DEFAULT
    ensures Reaches(Step, s0, s)
    ensures s.mem == s0.mem && s.pc == JOIN && s.reg.r2 == Selected(i, j, m) && s.reg.r6 == s0.reg.r6
  {
    if i == 10 {
      s := Case10(s0, j, m);
    } else if i == 12 {
      s := Case12(s0, j, m);
    } else if i == 14 {
      s := Case14(s0, j, m);
    } else if i == 16 {
      s := Case16(s0, j, m);
    } else if i == 18 {
      s := Case18(s0, j, m);
    } else {
      s := CaseDefault(s0);
    }
  }

  lemma Case10(s0: State, j: int32, m: int32) returns (s: State)
    requires Loaded(s0.mem, Source()) && s0.pc == 0x330 && s0.reg.r1 == j && s0.reg.r2 == m
    ensures Reaches(Step, s0, s)
    ensures s.mem == s0.mem && s.pc == JOIN && s.reg.r2 == Selected(10, j, m) && s.reg.r6 == s0.reg.r6
  {
    hide Wrap, Not, Reaches, Loaded;
    ReachesSelf(Step, s0);
    s := Next(s0, s0, Source(), 0x330, Add(1, 2));
    s := Next(s0, s, Source(), 0x332, Br(44));
  }

  lemma Case12(s0: State, j: int32, m: int32) returns (s: State)
    requires Loaded(s0.mem, Source()) && s0.pc == 0x334 && s0.reg.r1 == j && s0.reg.r2 == m
    ensures Reaches(Step, s0, s)
    ensures s.mem == s0.mem && s.pc == JOIN && s.reg.r2 == Selected(12, j, m) && s.reg.r6 == s0.reg.r6
  {
    NotInc(m);
    NegateAdd(m, j);
    hide Wrap, Not, Reaches, Loaded;
    ReachesSelf(Step, s0);
    s := Next(s0, s0, Source(), 0x334, NotI(2));
    s := Next(s0, s, Source(), 0x336, Inc(2));
    s := Next(s0, s, Source(), 0x338, Add(1, 2));
    s := Next(s0, s, Source(), 0x33a, Br(40));
  }

  lemma Case14(s0: State, j: int32, m: int32) returns (s: State)
    requires Loaded(s0.mem, Source()) && s0.pc == 0x33c && s0.reg.r1 == j && s0.reg.r2 == m
    ensures Reaches(Step, s0, s)
    ensures s.mem == s0.mem && s.pc == JOIN && s.reg.r2 == Selected(14, j, m) && s.reg.r6 == s0.reg.r6
  {
    NotInc(m);
    NegateAdd(m, j);
    hide Wrap, Not, Reaches, Loaded;
    ReachesSelf(Step, s0);
    s := Next(s0, s0, Source(), 0x33c, NotI(2));
    s := Next(s0, s, Source(), 0x33e, Inc(2));
    s := Next(s0, s, Source(), 0x340, Add(1, 2));
    s := Next(s0, s, Source(), 0x342, Bgt(2, 4));
    if s.pc == 0x34c {
      s := Next(s0, s, Source(), 0x34c, LdImm(1, 2));
    } else {
      s := Next(s0, s, Source(), 0x344, LdImm(0, 2));
      s := Next(s0, s, Source(), 0x34a, Br(3));
    }
    s := Next(s0, s, Source(), 0x352, Br(28));
  }

  lemma Case16(s0: State, j: int32, m: int32) returns (s: State)
    requires Loaded(s0.mem, Source()) && s0.pc == 0x354 && s0.reg.r1 == j && s0.reg.r2 == m
    ensures Reaches(Step, s0, s)
    ensures s.mem == s0.mem && s.pc == JOIN && s.reg.r2 == Selected(16, j, m) && s.reg.r6 == s0.reg.r6
  {
    NotInc(j);
    NegateAdd(j, m);
    hide Wrap, Not, Reaches, Loaded;
    ReachesSelf(Step, s0);
    s := Next(s0, s0, Source(), 0x354, NotI(1));
    s := Next(s0, s, Source(), 0x356, Inc(1));
    s := Next(s0, s, Source(), 0x358, Add(2, 1));
    s := Next(s0, s, Source(), 0x35a, Bgt(1, 4));
    if s.pc == 0x364 {
      s := Next(s0, s, Source(), 0x364, LdImm(1, 2));
    } else {
      s := Next(s0, s, Source(), 0x35c, LdImm(0, 2));
      s := Next(s0, s, Source(), 0x362, Br(3));
    }
    s := Next(s0, s, Source(), 0x36a, Br(16));
  }

  lemma Case18(s0: State, j: int32, m: int32) returns (s: State)
    requires Loaded(s0.mem, Source()) && s0.pc == 0x36c && s0.reg.r1 == j && s0.reg.r2 == m
    ensures Reaches(Step, s0, s)
    ensures s.mem == s0.mem && s.pc == JOIN && s.reg.r2 == Selected(18, j, m) && s.reg.r6 == s0.reg.r6
  {
    NotInc(m);
    NegateAdd(m, j);
    hide Wrap, Not, Reaches, Loaded;
    ReachesSelf(Step, s0);
    s := Next(s0, s0, Source(), 0x36c, NotI(2));
    s := Next(s0, s, Source(), 0x36e, Inc(2));
    s := Next(s0, s, Source(), 0x370, Add(1, 2));
    s := Next(s0, s, Source(), 0x372, Beq(2, 4));
    if s.pc == 0x37c {
      s := Next(s0, s, Source(), 0x37c, LdImm(1, 2));
    } else {
      s := Next(s0, s, Source(), 0x374, LdImm(0, 2));
      s := Next(s0, s, Source(), 0x37a, Br(3));
    }
    s := Next(s0, s, Source(), 0x382, Br(4));
  }

  lemma CaseDefault(s0: State) returns (s: State)
    requires Loaded(s0.mem, Source()) && s0.pc == DEFAULT
    ensures Reaches(Step, s0, s)
    ensures s.mem == s0.mem && s.pc == JOIN && s.reg.r2 == 0 && s.reg.r6 == s0.reg.r6
  {
    hide Wrap, Reaches, Loaded;
    ReachesSelf(Step, s0);
    s := Next(s0, s0, Source(), 0x384, LdImm(0, 2));
    s := Next(s0, s, Source(), 0x38a, Br(0));
  }

  /** Complement and increment is negation. */
  lemma NotInc(x: int32)
    ensures Wrap(Not(x) as int + 1) == Wrap(-(x as int))
  {
  }

  /** The common end returns the value in r0. */
  lemma GiveBack(s0: State) returns (s: State)
    requires Image(s0.mem) && s0.pc == JOIN && s0.reg.r6 == RETURN
    ensures Reaches(Step, s0, s)
    ensures s == s0.(pc := 0x3a, reg := s0.reg.(r0 := s0.reg.r2, r1 := N_ADDRESS))
  {
    ImageSize(s0.mem);
    hide Wrap, Reaches, Loaded, Image;
    ReachesSelf(Step, s0);
    s := Next(s0, s0, Source(), 0x38c, Mov(2, 0));
    s := Next(s0, s, Source(), 0x38e, JmpBase(6, 0));
    s := Next(s0, s, Source(), 0x34, LdImm(0x20c, 1));
  }

  /** The caller stores the value in n and halts. */
  lemma Finish(s0: State) returns (s: State)
    requires Image(s0.mem) && s0.pc == JOIN && s0.reg.r6 == RETURN
    ensures HaltsIn(Step, s0, s)
    ensures Untouched(s0.mem, s.mem) && ReadWord(s.mem, N_ADDRESS) == s0.reg.r2
  {
    hide Wrap, Reaches, HaltsIn, Loaded, Image, ReadWord, WriteWord;
    s := GiveBack(s0);
    s := Put(s0, s, 0x3a, StBase(0, 0, 1));
    ImageSize(s.mem);
    Stop(s0, s, Source());
    s := Past(s, Halt);
  }

  /** Up to the range check. */
  lemma Arrive(s0: State, i: int32, j: int32, m: int32) returns (s: State)
    requires Image(s0.mem) && s0.pc == 0
    requires i == ReadWord(s0.mem, I_ADDRESS) && j == ReadWord(s0.mem, J_ADDRESS) && m == ReadWord(s0.mem, M_ADDRESS)
    ensures Reaches(Step, s0, s)
    ensures Image(s.mem) && Untouched(s0.mem, s.mem) && s.reg.r1 == j && s.reg.r2 == m && s.reg.r6 == RETURN
    ensures if 10 <= i <= 18 then s.pc == DISPATCH && s.reg.r0 == i as int - 10 && s.reg.r3 == TABLE else s.pc == DEFAULT
  {
    hide Wrap, Reaches, Loaded, ReadWord, Untouched;
    var s1 := PassArguments(s0);
    var s2 := LoadArguments(s1, i, j, m);
    ImageSize(s1.mem);
    s := RangeCheck(s2, i);
    ReachesTrans(Step, s0, s1, s2);
    ReachesTrans(Step, s0, s2, s);
  }

  /** From the range check to the common end. */
  lemma Select(s0: State, i: int32, j: int32, m: int32) returns (s: State)
    requires Image(s0.mem) && s0.reg.r1 == j && s0.reg.r2 == m
    requires if 10 <= i <= 18 then s0.pc == DISPATCH && s0.reg.r0 == i as int - 10 && s0.reg.r3 == TABLE else s0.pc == DEFAULT
    ensures Reaches(Step, s0, s)
    ensures s.mem == s0.mem && s.pc == JOIN && s.reg.r2 == Selected(i, j, m) && s.reg.r6 == s0.reg.r6
  {
    hide Reaches, Image, Selected, Case, Loaded;
    ImageSize(s0.mem);
    var t := s0;
    ReachesSelf(Step, s0);
    if 10 <= i <= 18 {
      t := Dispatch(s0, i as int - 10);
    }
    s := Cases(t, i, j, m);
    ReachesTrans(Step, s0, t, s);
  }

  /** From any memory holding the program, the run halts with n as the C source computes it from i, j and m. */
  lemma SwitchHalts(s0: State) returns (s: State)
    requires Image(s0.mem) && s0.pc == 0
    ensures HaltsIn(Step, s0, s)
    ensures |s.mem| == |s0.mem| && ReadWord(s.mem, N_ADDRESS) ==
      Selected(ReadWord(s0.mem, I_ADDRESS), ReadWord(s0.mem, J_ADDRESS), ReadWord(s0.mem, M_ADDRESS))
    ensures Untouched(s0.mem, s.mem)
  {
    var i, j, m := ReadWord(s0.mem, I_ADDRESS), ReadWord(s0.mem, J_ADDRESS), ReadWord(s0.mem, M_ADDRESS);
    hide Wrap, Reaches, HaltsIn, Image, Loaded, ReadWord, Selected, Case, Scratch;
    var s1 := Arrive(s0, i, j, m);
    var s2 := Select(s1, i, j, m);
    s := Finish(s2);
    ReachesTrans(Step, s0, s1, s2);
    ReachesThenHalts(Step, s0, s2, s);
  }
}
