/** The simulator's processor (a7/CPU.java). */
module Cpu {
  import opened Word
  import opened MainMemory
  import opened Runs
  import opened Isa

  class CPU {
    const mem: MainMemory
    const reg: array<int32>
    var pc: int32
    var insOpCode: nibble
    var insOp0: nibble
    var insOp1: nibble
    var insOp2: nibble
    var insOpImm: sbyte
    var insOpExt: int32

    constructor (mem: MainMemory)
      requires mem.Valid()
      ensures Valid() && this.mem == mem && fresh(reg)
    {
      this.mem := mem;
      reg := new int32[8](_ => 0);
      pc, insOpCode, insOp0, insOp1, insOp2, insOpImm, insOpExt := 0, 0, 0, 0, 0, 0, 0;
    }

    predicate Valid()
    {
      reg.Length == 8 && mem.Valid()
    }

    function View(): State
      requires Valid()
      reads this`pc, reg, mem.data
    {
      State(Registers(reg[0], reg[1], reg[2], reg[3], reg[4], reg[5], reg[6], reg[7]), pc, mem.data[..])
    }

    function Decoded(): Fields
      reads this
    {
      Fields(insOpCode, insOp0, insOp1, insOp2, insOpImm, insOpExt)
    }

    method RegGet(r: nibble) returns (v: Result<int32>)
      requires Valid()
      ensures v == GetReg(View(), r)
    {
      v := if r < 8 then Ok(reg[r]) else Throw(InvalidRegisterNumber);
    }

    method RegSet(r: nibble, v: int32) returns (ok: Result<()>)
      requires Valid()
      modifies reg
      ensures match SetReg(old(View()), r, v)
        case Ok(s) => ok == Ok(()) && View() == s
        case Throw(e) => ok == Throw(e) && View() == old(View())
    {
      if r >= 8 {
        return Throw(InvalidRegisterNumber);
      }
      reg[r] := v;
      ok := Ok(());
    }

    method FetchStage() returns (r: Result<()>)
      requires Valid()
      modifies this
      ensures match Fetch(old(View()))
        case Ok((f, s)) => r == Ok(()) && Decoded() == f && View() == s
        case Throw(e) => r == Throw(e) && View() == old(View())
    {
      hide Wrap, BytesToInteger;
      var pcVal := pc;
      var ins :- mem.Get(pcVal, 2);
      insOpCode := ins[0] / 16;
      insOp0 := ins[0] % 16;
      insOp1 := ins[1] / 16;
      insOp2 := ins[1] % 16;
      insOpImm := SignedByte(ins[1]);
      pcVal := Wrap(pcVal + 2);
      if insOpCode == 0 || insOpCode == 0xb {
        insOpExt :- mem.ReadIntegerUnaligned(pcVal);
        pcVal := Wrap(pcVal + 4);
      } else {
        insOpExt := 0;
      }
      pc := pcVal;
      r := Ok(());
    }

    /** The register-to-register group. */
    method ExecuteAlu() returns (r: Result<()>)
      requires Valid() && insOpCode == 6
      modifies reg
      ensures match Exec(Decoded(), old(View()))
        case Ok(s) => r == Ok(()) && View() == s
        case Throw(e) => r == Throw(e) && View() == old(View())
    {
      hide Wrap, And, Not;
      if insOp0 == 0x0 {
        var a :- RegGet(insOp1);
        r := RegSet(insOp2, a);
      } else if insOp0 == 0x1 {
        var a :- RegGet(insOp1);
        var b :- RegGet(insOp2);
        r := RegSet(insOp2, Wrap(a as int + b));
      } else if insOp0 == 0x2 {
        var a :- RegGet(insOp1);
        var b :- RegGet(insOp2);
        r := RegSet(insOp2, And(a, b));
      } else if insOp0 == 0x3 {
        var b :- RegGet(insOp2);
        r := RegSet(insOp2, Wrap(b as int + 1));
      } else if insOp0 == 0x4 {
        var b :- RegGet(insOp2);
        r := RegSet(insOp2, Wrap(b as int + 4));
      } else if insOp0 == 0x5 {
        var b :- RegGet(insOp2);
        r := RegSet(insOp2, Wrap(b as int - 1));
      } else if insOp0 == 0x6 {
        var b :- RegGet(insOp2);
        r := RegSet(insOp2, Wrap(b as int - 4));
      } else if insOp0 == 0x7 {
        var b :- RegGet(insOp2);
        r := RegSet(insOp2, Not(b));
      } else if insOp0 == 0xf {
        r := RegSet(insOp2, Wrap(pc as int + insOp1 * 2));
      } else {
        r := Throw(InvalidInstruction);
      }
    }

    /** Loads and stores. */
    method ExecuteMemory() returns (r: Result<()>)
      requires Valid() && 1 <= insOpCode <= 4
      modifies reg, mem.data
      ensures match Exec(Decoded(), old(View()))
        case Ok(s) => r == Ok(()) && View() == s
        case Throw(e) => r == Throw(e) && View() == old(View())
    {
      hide Wrap, Shl, BytesToInteger, WriteWord;
      if insOpCode == 0x1 {
        var b :- RegGet(insOp1);
        var v :- mem.ReadInteger(Wrap(insOp0 * 4 + b));
        r := RegSet(insOp2, v);
      } else if insOpCode == 0x2 {
        var b :- RegGet(insOp0);
        var i :- RegGet(insOp1);
        var v :- mem.ReadInteger(Wrap(b as int + Shl(i, 2)));
        r := RegSet(insOp2, v);
      } else if insOpCode == 0x3 {
        var b :- RegGet(insOp2);
        var v :- RegGet(insOp0);
        r := mem.WriteInteger(Wrap(insOp1 * 4 + b), v);
      } else {
        var b :- RegGet(insOp1);
        var i :- RegGet(insOp2);
        var v :- RegGet(insOp0);
        r := mem.WriteInteger(Wrap(b as int + Shl(i, 2)), v);
      }
    }

    /** Branches, jumps, halt and nop. */
    method ExecuteControl() returns (r: Result<()>)
      requires Valid() && insOpCode >= 8
      modifies this`pc
      ensures match Exec(Decoded(), old(View()))
        case Ok(s) => r == Ok(()) && View() == s
        case Throw(e) => r == Throw(e) && View() == old(View())
    {
      hide Wrap, Shl, BytesToInteger;
      r := Ok(());
      if insOpCode == 0x8 {
        pc := Wrap(pc as int + insOpImm * 2);
      } else if insOpCode == 0x9 {
        var c :- RegGet(insOp0);
        if c == 0 {
          pc := Wrap(pc as int + insOpImm * 2);
        }
      } else if insOpCode == 0xa {
        var c :- RegGet(insOp0);
        if c > 0 {
          pc := Wrap(pc as int + insOpImm * 2);
        }
      } else if insOpCode == 0xb {
        pc := insOpExt;
      } else if insOpCode == 0xc {
        var t :- RegGet(insOp0);
        pc := Wrap(t as int + insOpImm * 2);
      } else if insOpCode == 0xd {
        var t :- RegGet(insOp0);
        pc :- mem.ReadInteger(Wrap(t as int + insOpImm * 4));
      } else if insOpCode == 0xe {
        var b :- RegGet(insOp0);
        var i :- RegGet(insOp1);
        pc :- mem.ReadInteger(Wrap(b as int + Shl(i, 2)));
      } else if insOp0 == 0 {
        r := Throw(MachineHalt);
      }
    }

    method ExecuteStage() returns (r: Result<()>)
      requires Valid()
      modifies this`pc, reg, mem.data
      ensures match Exec(Decoded(), old(View()))
        case Ok(s) => r == Ok(()) && View() == s
        case Throw(e) => r == Throw(e) && View() == old(View())
    {
      if insOpCode == 0x0 {
        r := RegSet(insOp0, insOpExt);
      } else if insOpCode <= 0x4 {
        r := ExecuteMemory();
      } else if insOpCode == 0x6 {
        r := ExecuteAlu();
      } else if insOpCode == 0x7 {
        var v :- RegGet(insOp0);
        var amount: int := insOpImm;
        if amount > 0 {
          r := RegSet(insOp0, Shl(v, amount % 32));
        } else {
          r := RegSet(insOp0, Sar(v, (0 - amount) % 32));
        }
      } else if insOpCode >= 0x8 {
        r := ExecuteControl();
      } else {
        r := Throw(InvalidInstruction);
      }
    }

    /** One cycle: an exception leaves the machine as it was before the stage that threw it. */
    method Cycle() returns (r: Result<()>)
      requires Valid()
      modifies this, reg, mem.data
      ensures match Step(old(View()))
        case Running(s) => r == Ok(()) && View() == s
        case Halted(s) => r == Throw(MachineHalt) && View() == s
        case Failed(e) => r == Throw(e) && View() == match Fetch(old(View()))
          case Ok((_, s)) => s
          case Throw(_) => old(View())
    {
      hide Exec, Fetch;
      var _ :- FetchStage();
      r := ExecuteStage();
    }

    /** Cycles until one throws, for a run that ends within n of them. */
    method RunCycles(ghost n: nat) returns (e: Exception)
      requires Valid() && !Run(Step, View(), n).Running?
      modifies this, reg, mem.data
      ensures match Run(Step, old(View()), n)
        case Halted(s) => e == MachineHalt && View() == s
        case Failed(f) => e == f
    {
      hide Step;
      ghost var left := n;
      ghost var outcome := Run(Step, View(), n);
      var r: Result<()> := Ok(());
      while r.Ok?
        invariant r.Ok? ==> Run(Step, View(), left) == outcome
        invariant r.Throw? ==> outcome == Failed(r.e) || (r.e == MachineHalt && outcome == Halted(View()))
        decreases left, r.Ok?
      {
        left := left - 1;
        r := Cycle();
      }
      e := r.e;
    }
  }
}
