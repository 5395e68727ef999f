/** Loading and running the program for the maximum on the C simulator (a7/sm_jt.c, loadMax and compute). */
module MaxLoader {
  import opened Word
  import opened MainMemory
  import opened Runs
  import S = SmJt
  import opened SmJtMachine
  import opened MaxProgram

  const CODE := 0x50

  /** The first k sixteen-bit words of the program are in memory. */
  ghost predicate Stored(m: Bytes, k: nat)
  {
    k <= IMAGE_SIZE && |m| == MEMORY_SIZE &&
    forall j: nat :: j < k ==> m[CODE + 2 * j] == Image(j) / 0x100 && m[CODE + 2 * j + 1] == Image(j) % 0x100
  }

  /** The words max and i and the array, below the code. */
  ghost predicate Data(m: Bytes, a: seq<int32>)
    requires |a| == COUNT
  {
    && |m| == MEMORY_SIZE
    && ReadWord(m, 0) == -1 && ReadWord(m, 4) == 0
    && forall j :: 0 <= j < COUNT ==> ReadWord(m, ARRAY + 4 * j) == a[j]
  }

  lemma DataFrame(m: Bytes, m': Bytes, a: seq<int32>)
    requires |a| == COUNT && Data(m, a) && SameOutside(m, m', CODE, MEMORY_SIZE)
    ensures Data(m', a)
  {
    ReadFrame(m, m', 0);
    ReadFrame(m, m', 4);
    forall j | 0 <= j < COUNT ensures ReadWord(m', ARRAY + 4 * j) == a[j] {
      ReadFrame(m, m', ARRAY + 4 * j);
    }
  }

  lemma StoredTwo(m: Bytes, k: nat)
    requires Stored(m, k) && k < IMAGE_SIZE
    ensures Stored(Loaded2(m, CODE + 2 * k, Image(k)), k + 1)
    ensures SameOutside(m, Loaded2(m, CODE + 2 * k, Image(k)), CODE, MEMORY_SIZE)
  {
    hide Image;
  }

  lemma HalvesBytes(high: Unsigned16, low: Unsigned16)
    ensures IntegerToBytes(Wrap(high * 0x1_0000 + low)) == [high / 0x100, high % 0x100, low / 0x100, low % 0x100]
  {
    hide Wrap, IntegerToBytes;
    var v := high * 0x1_0000 + low;
    WrapUnsigned(v);
    UnsignedBytes(Wrap(v));
    DigitsUnique(high / 0x100, high % 0x100, low / 0x100, low % 0x100);
  }

  lemma StoredFour(m: Bytes, k: nat, v: Unsigned32)
    requires Stored(m, k) && k + 1 < IMAGE_SIZE && v == Image(k) * 0x1_0000 + Image(k + 1)
    ensures Stored(WriteWord(m, CODE + 2 * k, Wrap(v)), k + 2)
    ensures SameOutside(m, WriteWord(m, CODE + 2 * k, Wrap(v)), CODE, MEMORY_SIZE)
  {
    hide Image, Wrap, IntegerToBytes;
    HalvesBytes(Image(k), Image(k + 1));
    var a := CODE + 2 * k;
    var r, b := WriteWord(m, a, Wrap(v)), IntegerToBytes(Wrap(v));
    assert r[a] == b[0] && r[a + 1] == b[1] && r[a + 2] == b[2] && r[a + 3] == b[3];
    forall j: nat | j < k + 2 ensures r[CODE + 2 * j] == Image(j) / 0x100 && r[CODE + 2 * j + 1] == Image(j) % 0x100 {
      if j < k {
        assert r[CODE + 2 * j] == m[CODE + 2 * j] && r[CODE + 2 * j + 1] == m[CODE + 2 * j + 1];
      }
    }
  }

  /** A sixteen-bit instruction word of the program, the k-th of its words. */
  method Short(c: Machine, v: Unsigned16, ghost k: nat)
    requires c.Valid() && c.pc == CODE + 2 * k && k < IMAGE_SIZE && v == Image(k) && Stored(c.mem[..], k)
    modifies c`pc, c.mem
    ensures c.pc == CODE + 2 * (k + 1) && Stored(c.mem[..], k + 1)
    ensures SameOutside(old(c.mem[..]), c.mem[..], CODE, MEMORY_SIZE)
  {
    hide Image, Stored, SameOutside;
    StoredTwo(c.mem[..], k);
    c.Load2(v);
  }

  /** An instruction word with its 32-bit extension. */
  method Long(c: Machine, v: Unsigned16, ext: Unsigned32, ghost k: nat)
    requires c.Valid() && c.pc == CODE + 2 * k && k + 2 < IMAGE_SIZE && v == Image(k) && Stored(c.mem[..], k)
    requires ext == Image(k + 1) * 0x1_0000 + Image(k + 2)
    modifies c`pc, c.mem
    ensures c.pc == CODE + 2 * (k + 3) && Stored(c.mem[..], k + 3)
    ensures SameOutside(old(c.mem[..]), c.mem[..], CODE, MEMORY_SIZE)
  {
    Short(c, v, k);
    ghost var m := c.mem[..];
    StoredFour(m, k + 1, ext);
    hide Image, Stored, WriteWord;
    c.Load4(ext);
  }

  method LoadData(c: Machine, a: seq<int32>)
    requires c.Valid() && |a| == COUNT
    modifies c`pc, c.mem
    ensures Data(c.mem[..], a)
  {
    hide WriteWord, ReadWord, Wrap;
    c.pc := 0;
    LoadWord(c, -1);
    LoadWord(c, 0);
    ReadFrame(c.mem[..], c.mem[..], 0);
    for j := 0 to COUNT
      invariant c.pc == ARRAY + 4 * j
      invariant ReadWord(c.mem[..], 0) == -1 && ReadWord(c.mem[..], 4) == 0
      invariant forall i :: 0 <= i < j ==> ReadWord(c.mem[..], ARRAY + 4 * i) == a[i]
    {
      LoadWord(c, a[j]);
    }
  }

  /** load4 of a signed constant: the words below the one stored are kept. */
  method LoadWord(c: Machine, v: int32)
    requires c.Valid() && c.InMemory(c.pc, 4)
    modifies c`pc, c.mem
    ensures c.pc == old(c.pc) + 4 && ReadWord(c.mem[..], old(c.pc)) == v
    ensures forall x :: 0 <= x && x + 4 <= old(c.pc) ==> ReadWord(c.mem[..], x) == ReadWord(old(c.mem[..]), x)
  {
    hide WriteWord, ReadWord, Wrap;
    ghost var m := c.mem[..];
    ghost var at: int := c.pc;
    c.Load4(Unsigned(v));
    ReadAfterWrite(m, at, v);
    forall x | 0 <= x && x + 4 <= at ensures ReadWord(c.mem[..], x) == ReadWord(m, x) {
      ReadFrame(m, c.mem[..], x);
    }
  }

  method LoadEntry(c: Machine)
    requires c.Valid() && c.pc == CODE && Stored(c.mem[..], 0)
    modifies c`pc, c.mem
    ensures c.pc == CODE + 2 * 13 && Stored(c.mem[..], 13)
    ensures SameOutside(old(c.mem[..]), c.mem[..], CODE, MEMORY_SIZE)
  {
    hide Stored;
    Long(c, 0x0000, 0x00000000, 0);
    Long(c, 0x0100, 0xfffffff6, 3);
    Long(c, 0x0200, 0x00000000, 6);
    Short(c, 0x1023, 9);
    Long(c, 0x0400, 0x00000008, 10);
  }

  method LoadLoop(c: Machine)
    requires c.Valid() && c.pc == CODE + 2 * 13 && Stored(c.mem[..], 13)
    modifies c`pc, c.mem
    ensures c.pc == CODE + 2 * 25 && Stored(c.mem[..], 25)
    ensures SameOutside(old(c.mem[..]), c.mem[..], CODE, MEMORY_SIZE)
  {
    hide Stored;
    Short(c, 0x6005, 13);
    Short(c, 0x6115, 14);
    Short(c, 0x9509, 15);
    Short(c, 0x2405, 16);
    Short(c, 0x6057, 17);
    Short(c, 0x6707, 18);
    Short(c, 0x6307, 19);
    Short(c, 0x6137, 20);
    Short(c, 0xa701, 21);
    Short(c, 0x6053, 22);
    Short(c, 0x6300, 23);
    Short(c, 0x80f4, 24);
  }

  method LoadExit(c: Machine)
    requires c.Valid() && c.pc == CODE + 2 * 25 && Stored(c.mem[..], 25)
    modifies c`pc, c.mem
    ensures Stored(c.mem[..], IMAGE_SIZE)
    ensures SameOutside(old(c.mem[..]), c.mem[..], CODE, MEMORY_SIZE)
  {
    hide Stored;
    Short(c, 0x3302, 25);
    Long(c, 0x0100, 0x00000004, 26);
    Short(c, 0x3001, 29);
    Short(c, 0xf000, 30);
  }

  /** loadMax, for any ten array elements. */
  method LoadMax(c: Machine, a: seq<int32>)
    requires c.Valid() && |a| == COUNT
    modifies c`pc, c.mem
    ensures c.pc == CODE && Data(c.mem[..], a) && Stored(c.mem[..], IMAGE_SIZE)
  {
    hide Data;
    LoadData(c, a);
    ghost var m := c.mem[..];
    c.pc := CODE;
    LoadEntry(c);
    LoadLoop(c);
    LoadExit(c);
    DataFrame(m, c.mem[..], a);
    c.pc := CODE;
  }

  /** compute with loadMax: whatever the simulator held before, the loop stops with the folded maximum at 0. */
  method ComputeMax(c: Machine, a: seq<int32>) returns (r: Status)
    requires c.Valid() && |a| == COUNT
    modifies c, c.reg, c.mem
    ensures r == Stop && ReadWord(c.mem[..], 0) == Fold(-1, a, COUNT) && ReadWord(c.mem[..], 4) == COUNT
    ensures ReadWord(c.mem[..], 0) == MaxOf(-1, a, COUNT) <==> Survives(-1, a, COUNT)
    ensures NoOverflow(-1, a, COUNT) ==> Survives(-1, a, COUNT)
    ensures forall j :: 0 <= j < COUNT ==> ReadWord(c.mem[..], ARRAY + 4 * j) == a[j]
    ensures Stored(c.mem[..], IMAGE_SIZE)
  {
    hide Fold, MaxOf, Survives, NoOverflow, ReadWord, Stored, Data, Computed, Elements;
    LoadMax(c, a);
    ghost var m := c.mem[..];
    ghost var n := Cycles(c.View(), a);
    r := c.Compute(n);
    AfterRun(m, c.mem[..], a);
    NoOverflowSurvives(a);
    FinalIsMax(-1, a, COUNT);
  }

  lemma NoOverflowSurvives(a: seq<int32>)
    requires |a| == COUNT
    ensures NoOverflow(-1, a, COUNT) ==> Survives(-1, a, COUNT)
  {
    hide NoOverflow, Survives, Fold, MaxOf;
    FoldIsMax(-1, a, COUNT);
    FinalIsMax(-1, a, COUNT);
  }

  lemma AfterRun(m: Bytes, m': Bytes, a: seq<int32>)
    requires |a| == COUNT && Data(m, a) && Stored(m, IMAGE_SIZE) && Computed(m, m') && Elements(m) == a
    ensures ReadWord(m', 0) == Fold(-1, a, COUNT) && ReadWord(m', 4) == COUNT
    ensures forall j :: 0 <= j < COUNT ==> ReadWord(m', ARRAY + 4 * j) == a[j]
    ensures Stored(m', IMAGE_SIZE)
  {
    hide Fold, ReadWord, Image, Elements;
    forall j | 0 <= j < COUNT ensures ReadWord(m', ARRAY + 4 * j) == a[j] {
      ReadFrame(m, m', ARRAY + 4 * j);
    }
  }

  lemma LoadedProgram(m: Bytes, a: seq<int32>)
    requires |a| == COUNT && Data(m, a) && Stored(m, IMAGE_SIZE)
    ensures ImageAt(m, CODE) && Elements(m) == a
  {
    hide Image, ReadWord;
  }

  /** The number of cycles the loaded program takes. */
  lemma Cycles(c0: S.Sm, a: seq<int32>) returns (n: nat)
    requires |a| == COUNT && c0.core.pc == CODE && Data(c0.core.mem, a) && Stored(c0.core.mem, IMAGE_SIZE)
    ensures var o := Run(S.Step, c0, n);
      o.Halted? && Computed(c0.core.mem, o.s.core.mem) && Elements(c0.core.mem) == a
  {
    var m := c0.core.mem;
    LoadedProgram(m, a);
    ImageIsProgram(m);
    hide S.Step, ImageAt, Elements, ReadWord, NoOverflow, Computed;
    var c := MaxHalts(c0);
    n :| Run(S.Step, c0, n) == Halted(c);
  }
}
