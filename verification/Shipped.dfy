/** The two assembly programs put into memory as their files lay them out, and run. */
module Shipped {
  import opened Word
  import opened MainMemory
  import opened Runs
  import opened Isa
  import opened Assembly
  import opened Programs
  import opened Assembler
  import opened Cpu
  import opened Switch
  import B = BitCountCode
  import S = SwitchCode

  // The code of each program lies in certain addresses, and no instruction starts inside another.

  lemma BitCountStartSeparate(p: B.Program, a: int)
    requires a < B.F_LOOP
    ensures Separate(B.Source(p), a)
    ensures B.Source(p)(a).Some? ==> B.START <= a && a + Length(B.Source(p)(a).value) <= B.CODE_END
  {
  }

  lemma BitCountEndSeparate(p: B.Program, a: int)
    requires B.F_LOOP <= a
    ensures Separate(B.Source(p), a)
    ensures B.Source(p)(a).Some? ==> B.START <= a && a + Length(B.Source(p)(a).value) <= B.CODE_END
  {
  }

  lemma BitCountSeparate(p: B.Program, a: int)
    ensures Separate(B.Source(p), a)
    ensures B.Source(p)(a).Some? ==> B.START <= a && a + Length(B.Source(p)(a).value) <= B.CODE_END
  {
    hide B.Listing, Separate;
    if a < B.F_LOOP {
      BitCountStartSeparate(p, a);
    } else {
      BitCountEndSeparate(p, a);
    }
  }

  lemma SwitchStartSeparate(a: int)
    requires a < 0x300
    ensures Separate(S.Source(), a)
    ensures S.Source()(a).Some? ==> 0 <= a && a + Length(S.Source()(a).value) <= 0x40
  {
  }

  lemma SwitchRangeSeparate(a: int)
    requires 0x300 <= a < 0x33c
    ensures Separate(S.Source(), a)
    ensures S.Source()(a).Some? ==> a + Length(S.Source()(a).value) <= 0x390
  {
  }

  lemma SwitchMiddleSeparate(a: int)
    requires 0x33c <= a < 0x36c
    ensures Separate(S.Source(), a)
    ensures S.Source()(a).Some? ==> a + Length(S.Source()(a).value) <= 0x390
  {
  }

  lemma SwitchEndSeparate(a: int)
    requires 0x36c <= a
    ensures Separate(S.Source(), a)
    ensures S.Source()(a).Some? ==> a + Length(S.Source()(a).value) <= 0x390
  {
  }

  /** The bit-counting program leaves all but the code region as it was. */
  lemma BitCountLoads(m: Bytes, p: B.Program)
    requires |m| >= B.CODE_END
    ensures Loaded(Assembled(m, B.Source(p)), B.Source(p))
    ensures SameOutside(m, Assembled(m, B.Source(p)), B.START, B.CODE_END)
  {
    hide B.Listing, Assembled, Separate;
    forall a: int ensures B.Source(p)(a).Some? ==> InRange(m, a, Length(B.Source(p)(a).value)) && Separate(B.Source(p), a) {
      BitCountSeparate(p, a);
    }
    AssembledLoads(m, B.Source(p));
    forall k | 0 <= k < |m| && !(B.START <= k < B.CODE_END) ensures Assembled(m, B.Source(p))[k] == m[k] {
      forall a: int ensures B.Source(p)(a).Some? ==> !(a <= k < a + Length(B.Source(p)(a).value)) {
        BitCountSeparate(p, a);
      }
      AssembledElsewhere(m, B.Source(p), k);
    }
  }

  /** In any memory of at least the program's size, with any words at 0x2000: the eight words are counted. */
  lemma ShippedBitCount(m: Bytes, reg: Registers) returns (s: State)
    requires |m| >= 0x8060
    ensures HaltsIn(Step, State(reg, B.START, Assembled(m, B.Source(B.SHIPPED))), s) && |s.mem| == |m| && s.reg.r5 == 0x8060
    ensures forall k :: 0 <= k < 8 ==> ReadWord(s.mem, 0x2020 + 4 * k) == PopCount(ReadWord(m, 0x2000 + 4 * k))
    ensures forall a :: 0 <= a < |m| && !(B.START <= a < B.CODE_END) && !B.Touched(a, B.SHIPPED, 0) ==> s.mem[a] == m[a]
  {
    hide Loaded, ReadWord, HaltsIn, PopCount, Assembled;
    var m0 := Assembled(m, B.Source(B.SHIPPED));
    BitCountLoads(m, B.SHIPPED);
    s := B.BitCountHalts(State(reg, B.START, m0), B.SHIPPED);
    forall k | 0 <= k < 8 ensures ReadWord(s.mem, 0x2020 + 4 * k) == PopCount(ReadWord(m, 0x2000 + 4 * k)) {
      assert B.Word4(s.mem, B.SHIPPED.y, k) == PopCount(B.Word4(m0, B.SHIPPED.x, k));
      ReadFrame(m, m0, 0x2000 + 4 * k);
    }
  }

  lemma SwitchSeparate(a: int)
    ensures Separate(S.Source(), a)
    ensures S.Source()(a).Some? ==> 0 <= a && a + Length(S.Source()(a).value) <= 0x390
    ensures S.Source()(a).Some? ==> a + Length(S.Source()(a).value) <= 0x40 || 0x300 <= a
  {
    hide S.Listing, Separate;
    if a < 0x300 {
      SwitchStartSeparate(a);
    } else if a < 0x33c {
      SwitchRangeSeparate(a);
    } else if a < 0x36c {
      SwitchMiddleSeparate(a);
    } else {
      SwitchEndSeparate(a);
    }
  }

  lemma SwitchLoads(m: Bytes)
    requires |m| >= 0x390
    ensures Loaded(Assembled(m, S.Source()), S.Source())
    ensures forall k :: 0x40 <= k < 0x300 || 0x390 <= k < |m| ==> Assembled(m, S.Source())[k] == m[k]
  {
    hide S.Listing, Assembled, Separate;
    forall a: int ensures S.Source()(a).Some? ==> InRange(m, a, Length(S.Source()(a).value)) && Separate(S.Source(), a) {
      SwitchSeparate(a);
    }
    AssembledLoads(m, S.Source());
    forall k | 0x40 <= k < 0x300 || 0x390 <= k < |m| ensures Assembled(m, S.Source())[k] == m[k] {
      forall a: int ensures S.Source()(a).Some? ==> !(a <= k < a + Length(S.Source()(a).value)) {
        SwitchSeparate(a);
      }
      AssembledElsewhere(m, S.Source(), k);
    }
  }

  /** The words of the jump table, as the file lists them. */
  const TABLE_WORDS: seq<int32> := [0x330, 0x384, 0x334, 0x384, 0x33c, 0x384, 0x354, 0x384, 0x36c]

  /** Every word of the table names the case of its value. */
  lemma TableNamesCases(k: nat)
    requires k < 9
    ensures TABLE_WORDS[k] == S.Case(k)
  {
  }

  /** Memory with the first k words of the table written at its address. */
  function WithTable(m: Bytes, k: nat): (r: Bytes)
    requires |m| >= 0x1028 && k <= 9
    ensures |r| == |m|
  {
    if k == 0 then m else WriteWord(WithTable(m, k - 1), S.TABLE + 4 * (k - 1), TABLE_WORDS[k - 1])
  }

  lemma {:induction false} TableWritten(m: Bytes, k: nat)
    requires |m| >= 0x1028 && k <= 9
    ensures forall j :: 0 <= j < k ==> ReadWord(WithTable(m, k), S.TABLE + 4 * j) == TABLE_WORDS[j]
    ensures SameOutside(m, WithTable(m, k), S.TABLE, S.TABLE + 36)
  {
    hide ReadWord, WriteWord;
    if k > 0 {
      TableWritten(m, k - 1);
      var m1, a := WithTable(m, k - 1), S.TABLE + 4 * (k - 1);
      ReadAfterWrite(m1, a, TABLE_WORDS[k - 1]);
      forall j | 0 <= j < k - 1 ensures ReadWord(WithTable(m, k), S.TABLE + 4 * j) == TABLE_WORDS[j] {
        ReadFrame(m1, WithTable(m, k), S.TABLE + 4 * j);
      }
    }
  }

  /** Memory with the whole program of a7/A7_4.s in it, and everything else as in m. */
  function SwitchImage(m: Bytes): Bytes
    requires |m| >= 0x1028
  {
    Assembled(WithTable(m, 9), S.Source())
  }

  /** The addresses of its code and its table. */
  predicate InSwitch(a: int)
  {
    0 <= a < 0x40 || 0x300 <= a < 0x390 || S.TABLE <= a < S.TABLE + 36
  }

  lemma SwitchImageHolds(m: Bytes)
    requires |m| >= 0x1028
    ensures S.Image(SwitchImage(m)) && |SwitchImage(m)| == |m|
    ensures forall a :: 0 <= a < |m| && !InSwitch(a) ==> SwitchImage(m)[a] == m[a]
  {
    hide S.Listing, Assembled, ReadWord, S.Case, Loaded, WithTable;
    var m1 := WithTable(m, 9);
    TableWritten(m, 9);
    SwitchLoads(m1);
    forall k | 0 <= k < 9 ensures ReadWord(SwitchImage(m), S.TABLE + 4 * k) == S.Case(k) {
      TableNamesCases(k);
      ReadFrame(m1, SwitchImage(m), S.TABLE + 4 * k);
    }
  }

  /**
   * The program put into any memory with room for it, with any words i, j and m: n is selected, code and table are
   * still there, and nothing else but the stack frame has changed.
   */
  lemma ShippedSwitch(m: Bytes, reg: Registers) returns (s: State)
    requires |m| >= 0x1028
    ensures HaltsIn(Step, State(reg, 0, SwitchImage(m)), s)
    ensures |s.mem| == |m| && S.Image(s.mem)
    ensures ReadWord(s.mem, S.N_ADDRESS) ==
      Selected(ReadWord(m, S.I_ADDRESS), ReadWord(m, S.J_ADDRESS), ReadWord(m, S.M_ADDRESS))
    ensures forall a :: 0 <= a < |m| && !InSwitch(a) && !S.Scratch(a) ==> s.mem[a] == m[a]
  {
    hide S.Listing, SwitchImage, ReadWord, HaltsIn, Selected, S.Image;
    SwitchImageHolds(m);
    ReadFrame(m, SwitchImage(m), S.I_ADDRESS);
    ReadFrame(m, SwitchImage(m), S.J_ADDRESS);
    ReadFrame(m, SwitchImage(m), S.M_ADDRESS);
    s := S.SwitchHalts(State(reg, 0, SwitchImage(m)));
    S.ImageFrame(SwitchImage(m), s.mem);
  }

  // ---------------------------------------------------------------- on the processor class

  /** The processor of a7/CPU.java, run until it halts, counts the bits of x into y. */
  method RunBitCount(cpu: CPU, ghost p: B.Program) returns (e: Exception)
    requires cpu.Valid() && cpu.pc == B.START
    requires B.Layout(cpu.mem.data[..], p) && Loaded(cpu.mem.data[..], B.Source(p))
    modifies cpu, cpu.reg, cpu.mem.data
    ensures e == MachineHalt
    ensures B.Counted(old(cpu.mem.data[..]), cpu.mem.data[..], p)
    ensures cpu.reg[5] == p.sb + 4
  {
    hide Loaded, B.Layout, B.Counted, Step;
    ghost var s := B.BitCountHalts(cpu.View(), p);
    ghost var n: nat :| Run(Step, cpu.View(), n) == Halted(s);
    e := cpu.RunCycles(n);
  }

  /** There is no other way for the program to halt. */
  lemma EveryHaltCounts(s0: State, p: B.Program, t: State)
    requires B.Layout(s0.mem, p) && Loaded(s0.mem, B.Source(p)) && s0.pc == B.START && HaltsIn(Step, s0, t)
    ensures B.Counted(s0.mem, t.mem, p) && t.reg.r5 == p.sb + 4
  {
    hide Loaded, B.Layout, B.Counted, Step, HaltsIn;
    var s := B.BitCountHalts(s0, p);
    HaltUnique(Step, s0, s, t);
  }

  /** The processor run on the jump-table program selects n from i, j and m. */
  method RunSwitch(cpu: CPU) returns (e: Exception)
    requires cpu.Valid() && cpu.pc == 0 && S.Image(cpu.mem.data[..])
    modifies cpu, cpu.reg, cpu.mem.data
    ensures e == MachineHalt && S.Untouched(old(cpu.mem.data[..]), cpu.mem.data[..])
    ensures ReadWord(cpu.mem.data[..], S.N_ADDRESS) == old(
      Selected(ReadWord(cpu.mem.data[..], S.I_ADDRESS), ReadWord(cpu.mem.data[..], S.J_ADDRESS),
        ReadWord(cpu.mem.data[..], S.M_ADDRESS)))
  {
    hide Selected, ReadWord, Step, S.Untouched;
    ghost var s := S.SwitchHalts(cpu.View());
    ghost var n: nat :| Run(Step, cpu.View(), n) == Halted(s);
    e := cpu.RunCycles(n);
  }
}
