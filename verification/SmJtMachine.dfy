/** The C simulator's globals and functions (a7/sm_jt.c). */
module SmJtMachine {
  import opened Word
  import opened MainMemory
  import opened Runs
  import Isa
  import S = SmJt

  const MEMORY_SIZE := 160

  /** Whether the loop goes on, stops, or has left what C defines. */
  datatype Status = Continue | Stop | Undefined

  class Machine {
    const reg: array<int32>
    const mem: array<byte>
    var pc: int32
    var insOpCode: nibble
    var insOp0: nibble
    var insOp1: nibble
    var insOp2: nibble
    var insOpImm: sbyte
    var insOpExt: int32

    constructor ()
      ensures Valid() && fresh(reg) && fresh(mem)
    {
      reg := new int32[8](_ => 0);
      mem := new byte[MEMORY_SIZE](_ => 0);
      pc, insOpCode, insOp0, insOp1, insOp2, insOpImm, insOpExt := 0, 0, 0, 0, 0, 0, 0;
    }

    predicate Valid()
    {
      reg.Length == 8 && mem.Length == MEMORY_SIZE
    }

    function View(): S.Sm
      requires Valid()
      reads this, reg, mem
    {
      S.Sm(Isa.State(Isa.Registers(reg[0], reg[1], reg[2], reg[3], reg[4], reg[5], reg[6], reg[7]), pc, mem[..]), insOpExt)
    }

    function Decoded(): Isa.Fields
      reads this
    {
      Isa.Fields(insOpCode, insOp0, insOp1, insOp2, insOpImm, insOpExt)
    }

    predicate InMemory(a: int, n: nat) { 0 <= a && a + n <= MEMORY_SIZE }

    function WordAt(a: int): int32
      requires Valid() && InMemory(a, 4)
      reads mem
    {
      BytesToInteger(mem[a], mem[a + 1], mem[a + 2], mem[a + 3])
    }

    method Fetch() returns (defined: bool)
      requires Valid()
      modifies this
      ensures match S.Fetch(old(View()))
        case Decoded(f, t) => defined && Decoded() == f && View() == t
        case Bad => !defined
    {
      hide Wrap;
      if !InMemory(pc, 2) {
        return false;
      }
      insOpCode := mem[pc] / 16;
      insOp0 := mem[pc] % 16;
      insOp1 := mem[pc + 1] / 16;
      insOp2 := mem[pc + 1] % 16;
      insOpImm := Isa.SignedByte(mem[pc + 1]);
      pc := pc + 2;
      if insOpCode == 0x0 || insOpCode == 0xb {
        if !InMemory(pc, 4) {
          return false;
        }
        insOpExt := WordAt(pc);
        pc := pc + 4;
      }
      defined := true;
    }

    /** What exec must do, as the outcome of the function model. */
    predicate Does(r: Status, o: S.Next)
      requires Valid()
      reads this, reg, mem
    {
      match o
      case Running(s) => r == Continue && View().core == s
      case Halted(s) => r == Stop && View().core == s
      case Failed(_) => r == Undefined
    }

    method PutReg(d: nibble, v: int32)
      requires Valid() && d < 8
      modifies reg
      ensures View() == old(View()).(core := S.Put(old(View()).core, d, v))
    {
      reg[d] := v;
    }

    /** mem[addr..] = val, byte by byte. */
    method StoreBytes(addr: int32, val: int32)
      requires Valid() && InMemory(addr, 4)
      modifies mem
      ensures mem[..] == WriteWord(old(mem[..]), addr, val)
    {
      mem[addr] := (val / 0x100_0000) % 0x100;
      mem[addr + 1] := (val / 0x1_0000) % 0x100;
      mem[addr + 2] := (val / 0x100) % 0x100;
      mem[addr + 3] := val % 0x100;
    }

    /** reg[d] = the big-endian word at mem[addr]. */
    method LoadFrom(addr: int32, d: nibble) returns (r: Status)
      requires Valid()
      modifies reg
      ensures Does(r, S.Load(old(View()).core, addr, d))
    {
      hide BytesToInteger;
      if d >= 8 || !InMemory(addr, 4) { return Undefined; }
      PutReg(d, WordAt(addr));
      r := Continue;
    }

    method StoreTo(addr: int32, s: nibble) returns (r: Status)
      requires Valid()
      modifies mem
      ensures Does(r, S.Store(old(View()).core, addr, s))
    {
      hide WriteWord;
      if s >= 8 || !InMemory(addr, 4) { return Undefined; }
      StoreBytes(addr, reg[s]);
      r := Continue;
    }

    method ExecMemory() returns (r: Status)
      requires Valid() && 1 <= insOpCode <= 4
      modifies reg, mem
      ensures Does(r, S.Exec(Decoded(), old(View()).core))
    {
      hide Wrap, Shl, S.Load, S.Store;
      r := Undefined;
      if insOpCode == 1 {
        if insOp1 < 8 {
          r := LoadFrom(Wrap(insOp0 * 4 + reg[insOp1]), insOp2);
        }
      } else if insOpCode == 2 {
        if insOp0 < 8 && insOp1 < 8 {
          r := LoadFrom(Wrap(reg[insOp0] as int + Shl(reg[insOp1], 2)), insOp2);
        }
      } else if insOpCode == 3 {
        if insOp2 < 8 {
          r := StoreTo(Wrap(insOp1 * 4 + reg[insOp2]), insOp0);
        }
      } else {
        if insOp1 < 8 && insOp2 < 8 {
          r := StoreTo(Wrap(reg[insOp1] as int + Shl(reg[insOp2], 2)), insOp0);
        }
      }
    }

    /** The value an instruction of the register-to-register group computes. */
    method AluValue() returns (v: int32)
      requires Valid() && (insOp0 < 8 || insOp0 == 15) && insOp2 < 8 && (insOp0 < 3 ==> insOp1 < 8)
      ensures S.Alu(insOp0, insOp1, insOp2, View().core) == Running(S.Put(View().core, insOp2, v))
    {
      hide Wrap, And, Not, S.Put;
      var b: int := reg[insOp2];
      if insOp0 == 0 {
        v := reg[insOp1];
      } else if insOp0 == 1 {
        v := Wrap(reg[insOp1] as int + b);
      } else if insOp0 == 2 {
        v := And(reg[insOp1], b);
      } else if insOp0 == 3 {
        v := Wrap(b + 1);
      } else if insOp0 == 4 {
        v := Wrap(b + 4);
      } else if insOp0 == 5 {
        v := Wrap(b - 1);
      } else if insOp0 == 6 {
        v := Wrap(b - 4);
      } else if insOp0 == 7 {
        v := Not(b);
      } else {
        v := Wrap(pc as int + insOp1 * 2);
      }
    }

    method ExecAlu() returns (r: Status)
      requires Valid() && insOpCode == 6
      modifies reg
      ensures Does(r, S.Exec(Decoded(), old(View()).core))
    {
      hide Wrap, And, Not, S.Put;
      r := Continue;
      if 8 <= insOp0 < 15 {
        return;
      }
      if insOp2 >= 8 || (insOp0 < 3 && insOp1 >= 8) { return Undefined; }
      var v := AluValue();
      PutReg(insOp2, v);
    }

    method ExecControl() returns (r: Status)
      requires Valid() && insOpCode >= 8
      modifies this`pc
      ensures Does(r, S.Exec(Decoded(), old(View()).core))
    {
      hide Wrap;
      r := Continue;
      if insOpCode == 8 {
        pc := Wrap(pc as int + insOpImm * 2);
      } else if insOpCode == 9 {
        if insOp0 >= 8 { return Undefined; }
        if reg[insOp0] == 0 {
          pc := Wrap(pc as int + insOpImm * 2);
        }
      } else if insOpCode == 10 {
        if insOp0 >= 8 { return Undefined; }
        if reg[insOp0] > 0 {
          pc := Wrap(pc as int + insOpImm * 2);
        }
      } else if insOpCode == 11 {
        pc := insOpExt;
      } else if insOpCode == 12 {
        if insOp0 >= 8 { return Undefined; }
        var offset: int := insOpImm;
        if offset < 0 {
          offset := offset + 0x1_0000;
        }
        pc := Wrap(offset * 2 + reg[insOp0]);
      } else if insOpCode == 15 {
        if insOp0 == 0 {
          r := Stop;
        }
      }
    }

    method Exec() returns (r: Status)
      requires Valid()
      modifies this`pc, reg, mem
      ensures Does(r, S.Exec(Decoded(), old(View()).core))
    {
      r := Continue;
      if insOpCode == 0 {
        if insOp0 >= 8 { return Undefined; }
        reg[insOp0] := insOpExt;
      } else if insOpCode <= 4 {
        r := ExecMemory();
      } else if insOpCode == 6 {
        r := ExecAlu();
      } else if insOpCode == 7 {
        var amount: int := insOpImm;
        if insOp0 >= 8 || amount >= 32 || amount <= -32 { return Undefined; }
        if amount > 0 {
          reg[insOp0] := Shl(reg[insOp0], amount);
        } else {
          reg[insOp0] := Sar(reg[insOp0], 0 - amount);
        }
      } else if insOpCode >= 8 {
        r := ExecControl();
      }
    }

    /** The loop of compute, for a loaded program whose run ends within n cycles. */
    method Compute(ghost n: nat) returns (r: Status)
      requires Valid() && !Run(S.Step, View(), n).Running?
      modifies this, reg, mem
      ensures match Run(S.Step, old(View()), n)
        case Halted(c) => r == Stop && View() == c
        case _ => r == Undefined
    {
      hide S.Fetch, S.Exec;
      ghost var left := n;
      ghost var outcome := Run(S.Step, View(), n);
      r := Continue;
      while r == Continue
        invariant r == Continue ==> Run(S.Step, View(), left) == outcome
        invariant r == Stop ==> outcome == Halted(View())
        invariant r == Undefined ==> outcome.Failed?
        decreases left, r == Continue
      {
        left := left - 1;
        var defined := Fetch();
        if !defined {
          return Undefined;
        }
        r := Exec();
      }
    }

    // ---------------------------------------------------------------- loading a program

    method Load2(v: Unsigned16)
      requires Valid() && InMemory(pc, 2)
      modifies this`pc, mem
      ensures pc == old(pc) + 2
      ensures mem[..] == Loaded2(old(mem[..]), old(pc), v)
    {
      mem[pc] := v / 0x100;
      mem[pc + 1] := v % 0x100;
      pc := pc + 2;
    }

    method Load4(v: Unsigned32)
      requires Valid() && InMemory(pc, 4)
      modifies this`pc, mem
      ensures pc == old(pc) + 4
      ensures mem[..] == WriteWord(old(mem[..]), old(pc), Wrap(v))
    {
      hide Wrap, IntegerToBytes;
      UnsignedBytes(Wrap(v));
      WrapUnsigned(v);
      mem[pc] := (v / 0x100_0000) % 0x100;
      mem[pc + 1] := (v / 0x1_0000) % 0x100;
      mem[pc + 2] := (v / 0x100) % 0x100;
      mem[pc + 3] := v % 0x100;
      pc := pc + 4;
    }
  }

  lemma WrapUnsigned(v: Unsigned32)
    ensures Unsigned(Wrap(v)) == v
  {
  }

  /** Memory with the two bytes of v at address a. */
  function Loaded2(m: Bytes, a: int, v: Unsigned16): Bytes
    requires InRange(m, a, 2)
  {
    m[..a] + [v / 0x100, v % 0x100] + m[a + 2..]
  }

  /** The four nibbles of an instruction word, and its low byte read as signed. */
  predicate Encodes(v: Unsigned16, f: Isa.Fields)
  {
    && v == ((f.op * 16 + f.op0) * 16 + f.op1) * 16 + f.op2
    && (f.imm - v) % 0x100 == 0
  }

  /** What load2, and load4 for the extension of an instruction that has one, leave in memory. */
  function Stored(m: Bytes, a: int, v: Unsigned16, e: Unsigned32): Bytes
    requires InRange(m, a, Size(v))
  {
    var m1 := Loaded2(m, a, v);
    if Size(v) == 6 then WriteWord(m1, a + 2, Wrap(e)) else m1
  }

  /** The bytes of an instruction with instruction word v. */
  function Size(v: Unsigned16): nat { if v / 0x1000 == 0x0 || v / 0x1000 == 0xb then 6 else 2 }

  /** Loading an instruction and fetching it again gives back exactly what was encoded. */
  lemma LoadThenFetch(s: Isa.State, stale: int32, v: Unsigned16, e: Unsigned32)
    requires InRange(s.mem, s.pc, Size(v))
    ensures var m := Stored(s.mem, s.pc, v, e);
      match S.Fetch(S.Sm(s.(mem := m), stale))
      case Decoded(f, t) =>
        && Encodes(v, f)
        && f.ext == (if Size(v) == 6 then Wrap(e) else stale)
        && t == S.Sm(s.(mem := m, pc := Wrap(s.pc + Size(v))), f.ext)
      case Bad => false
  {
    hide Wrap, WriteWord, ReadWord;
    var m1, m := Loaded2(s.mem, s.pc, v), Stored(s.mem, s.pc, v, e);
    if Size(v) == 6 {
      ReadAfterWrite(m1, s.pc + 2, Wrap(e));
    }
    assert m[s.pc] == m1[s.pc] == v / 0x100 && m[s.pc + 1] == m1[s.pc + 1] == v % 0x100;
    assert v / 0x100 / 16 == v / 0x1000;
    Nibbles(v, Isa.Decode(v / 0x100, v % 0x100, if Size(v) == 6 then Wrap(e) else stale));
  }

  lemma Nibbles(v: Unsigned16, f: Isa.Fields)
    requires f == Isa.Decode(v / 0x100, v % 0x100, f.ext)
    ensures Encodes(v, f)
  {
  }
}
