/** Where the two simulators (a7/CPU.java and a7/sm_jt.c) agree. */
module Portability {
  import opened Word
  import opened MainMemory
  import opened Runs
  import Isa
  import opened Assembly
  import opened Programs
  import SmJt

  type State = Isa.State

  function Reg(s: State, r: nibble): int32 { if r < 8 then s.reg.Get(r) else 0 }

  /** The data address of a load, a store or an indirect jump. */
  function Address(f: Isa.Fields, s: State): int32
  {
    match f.op
    case 1 => Wrap(f.op0 * 4 + Reg(s, f.op1))
    case 2 => Isa.Scaled(Reg(s, f.op0), Reg(s, f.op1))
    case 3 => Wrap(f.op1 * 4 + Reg(s, f.op2))
    case 4 => Isa.Scaled(Reg(s, f.op1), Reg(s, f.op2))
    case 13 => Wrap(Reg(s, f.op0) + f.imm * 4)
    case _ => Isa.Scaled(Reg(s, f.op0), Reg(s, f.op1))
  }

  /** The instructions on which both machines do the same: a test of the decoded fields and the current state. */
  predicate Supported(f: Isa.Fields, s: State)
  {
    match f.op
    case 0 => f.op0 < 8
    case 1 => f.op1 < 8 && f.op2 < 8 && Accessible(s.mem, Address(f, s))
    case 2 => f.op0 < 8 && f.op1 < 8 && f.op2 < 8 && Accessible(s.mem, Address(f, s))
    case 3 => f.op0 < 8 && f.op2 < 8 && Accessible(s.mem, Address(f, s))
    case 4 => f.op0 < 8 && f.op1 < 8 && f.op2 < 8 && Accessible(s.mem, Address(f, s))
    case 6 => f.op2 < 8 && ((f.op0 < 3 && f.op1 < 8) || 3 <= f.op0 < 8 || f.op0 == 15)
    case 7 => f.op0 < 8 && -32 < f.imm < 32
    case 8 => true
    case 9 => f.op0 < 8
    case 10 => f.op0 < 8
    case 11 => true
    case 12 => f.op0 < 8 && f.imm >= 0
    // the C machine skips indirect jumps, which is right only when they lead to the next instruction
    case 13 => f.op0 < 8 && Accessible(s.mem, Address(f, s)) && ReadWord(s.mem, Address(f, s)) == s.pc
    case 14 =>
      f.op0 < 8 && f.op1 < 8 && Accessible(s.mem, Address(f, s)) && ReadWord(s.mem, Address(f, s)) == s.pc
    case 15 => true
    case _ => false
  }

  /** Both executions succeed or halt, in the same state. */
  predicate Same(j: Result<State>, c: SmJt.Next, s: State)
  {
    (j.Ok? && c == Running(j.value)) || (j == Throw(MachineHalt) && c == Halted(s))
  }

  lemma DoubledShort(v: int32, imm: sbyte)
    requires imm < 0
    ensures Wrap(v as int + (0x1_0000 + imm) * 2) != Wrap(v as int + imm * 2)
  {
  }

  lemma ExecMemory(f: Isa.Fields, s: State)
    requires 1 <= f.op <= 4
    ensures Same(Isa.Exec(f, s), SmJt.Exec(f, s), s) <== Supported(f, s)
    ensures !Isa.Exec(f, s).Ok? && Isa.Exec(f, s) != Throw(MachineHalt) <== !Supported(f, s)
  {
    hide Wrap, Isa.Scaled, WriteWord, ReadWord;
  }

  lemma ExecAlu(f: Isa.Fields, s: State)
    requires f.op == 6
    ensures Same(Isa.Exec(f, s), SmJt.Exec(f, s), s) <== Supported(f, s)
    ensures !Isa.Exec(f, s).Ok? && Isa.Exec(f, s) != Throw(MachineHalt) <== !Supported(f, s)
  {
    hide Wrap, And, Not;
  }

  lemma ExecShift(f: Isa.Fields, ext: int32, s: State)
    requires f.op == 7
    requires Isa.HasExtension(f.op) ==> ext == f.ext
    ensures Same(Isa.Exec(f, s), SmJt.Exec(f.(ext := ext), s), s) <==> Supported(f, s)
  {
    hide Shl, Sar;
  }

  lemma ExecJumpBase(f: Isa.Fields, ext: int32, s: State)
    requires f.op == 12
    requires Isa.HasExtension(f.op) ==> ext == f.ext
    ensures Same(Isa.Exec(f, s), SmJt.Exec(f.(ext := ext), s), s) <==> Supported(f, s)
  {
    if f.imm < 0 {
      DoubledShort(Reg(s, f.op0), f.imm);
    }
    hide Wrap;
  }

  lemma ExecIndirect(f: Isa.Fields, ext: int32, s: State)
    requires f.op == 13 || f.op == 14
    requires Isa.HasExtension(f.op) ==> ext == f.ext
    ensures Same(Isa.Exec(f, s), SmJt.Exec(f.(ext := ext), s), s) <==> Supported(f, s)
  {
    hide Wrap, Isa.Scaled, ReadWord;
    assert SmJt.Exec(f.(ext := ext), s) == Running(s);
    if Supported(f, s) {
      assert s.(pc := s.pc) == s;
    }
  }

  lemma ExecOther(f: Isa.Fields, ext: int32, s: State)
    requires f.op == 0 || f.op == 5 || 8 <= f.op <= 11 || f.op == 15
    requires Isa.HasExtension(f.op) ==> ext == f.ext
    ensures Same(Isa.Exec(f, s), SmJt.Exec(f.(ext := ext), s), s) <==> Supported(f, s)
  {
    hide Wrap;
  }

  lemma StaleExtension(f: Isa.Fields, ext: int32, s: State)
    requires !Isa.HasExtension(f.op)
    ensures SmJt.Exec(f.(ext := ext), s) == SmJt.Exec(f, s)
  {
    hide Wrap, Isa.Scaled, ReadWord, WriteWord, Shl, Sar, And, Not, SmJt.Alu, SmJt.Load, SmJt.Store;
  }

  lemma ExecAgree(f: Isa.Fields, ext: int32, s: State)
    requires Isa.HasExtension(f.op) ==> ext == f.ext
    ensures Same(Isa.Exec(f, s), SmJt.Exec(f.(ext := ext), s), s) <==> Supported(f, s)
  {
    hide Isa.Exec, SmJt.Exec, Supported;
    if 1 <= f.op <= 4 {
      StaleExtension(f, ext, s);
      ExecMemory(f, s);
    } else if f.op == 6 {
      StaleExtension(f, ext, s);
      ExecAlu(f, s);
    } else if f.op == 7 {
      ExecShift(f, ext, s);
    } else if f.op == 12 {
      ExecJumpBase(f, ext, s);
    } else if f.op == 13 || f.op == 14 {
      ExecIndirect(f, ext, s);
    } else {
      ExecOther(f, ext, s);
    }
  }

  lemma FetchAgree(s: State, ext: int32)
    ensures match Isa.Fetch(s)
      case Throw(_) => SmJt.Fetch(SmJt.Sm(s, ext)) == SmJt.Bad
      case Ok((f, t)) =>
        var e := if Isa.HasExtension(f.op) then f.ext else ext;
        SmJt.Fetch(SmJt.Sm(s, ext)) == SmJt.Decoded(f.(ext := e), SmJt.Sm(t, e))
  {
    hide Isa.SignedByte, BytesToInteger;
    if InRange(s.mem, s.pc, 2) {
      assert s.mem[s.pc..s.pc + 2] == [s.mem[s.pc], s.mem[s.pc + 1]];
    }
  }

  /** Whether the instruction at the pc is one the machines agree on. */
  predicate StepSupported(s: State)
  {
    match Isa.Fetch(s)
    case Ok((f, t)) => Supported(f, t)
    case Throw(_) => false
  }

  /** Both machines run on, or both halt, with the same registers, pc and memory. */
  predicate Agree(j: Outcome<State, Exception>, c: Outcome<SmJt.Sm, SmJt.Undefined>)
  {
    || (j.Running? && c.Running? && c.s.core == j.s)
    || (j.Halted? && c.Halted? && c.s.core == j.s)
  }

  /** One cycle of the two machines agrees exactly on the supported instructions, whatever extension is stale. */
  lemma StepAgree(s: State, ext: int32)
    ensures Agree(Isa.Step(s), SmJt.Step(SmJt.Sm(s, ext))) <==> StepSupported(s)
  {
    FetchAgree(s, ext);
    hide Isa.Fetch, SmJt.Fetch, Isa.Exec, SmJt.Exec, Supported;
    match Isa.Fetch(s)
    case Throw(_) =>
    case Ok((f, t)) =>
      ExecAgree(f, if Isa.HasExtension(f.op) then f.ext else ext, t);
  }

  /** Every instruction of the first n cycles, or up to the halt, is supported. */
  predicate RunSupported(s: State, n: nat)
    decreases n
  {
    n > 0 ==> StepSupported(s) && (Isa.Step(s).Running? ==> RunSupported(Isa.Step(s).s, n - 1))
  }

  ghost predicate AgreeUpTo(s: State, ext: int32, n: nat)
  {
    forall k: nat :: k <= n ==> Agree(Run(Isa.Step, s, k), Run(SmJt.Step, SmJt.Sm(s, ext), k))
  }

  /** After a step on which the machines agree, agreement up to n is agreement of the rest up to n - 1. */
  lemma AgreeAfter(s: State, ext: int32, n: nat)
    requires n > 0 && StepSupported(s) && Isa.Step(s).Running?
    requires Agree(Isa.Step(s), SmJt.Step(SmJt.Sm(s, ext)))
    ensures AgreeUpTo(s, ext, n) <==> AgreeUpTo(Isa.Step(s).s, SmJt.Step(SmJt.Sm(s, ext)).s.ext, n - 1)
  {
    hide StepSupported, Isa.Step, SmJt.Step;
    var c := SmJt.Sm(s, ext);
    var s', e' := Isa.Step(s).s, SmJt.Step(c).s.ext;
    if AgreeUpTo(s, ext, n) {
      forall k: nat | k <= n - 1 ensures Agree(Run(Isa.Step, s', k), Run(SmJt.Step, SmJt.Sm(s', e'), k)) {
        assert Agree(Run(Isa.Step, s, k + 1), Run(SmJt.Step, c, k + 1));
      }
    }
    if AgreeUpTo(s', e', n - 1) {
      forall k: nat | k <= n ensures Agree(Run(Isa.Step, s, k), Run(SmJt.Step, c, k)) {
        assert k > 0 ==> Agree(Run(Isa.Step, s', k - 1), Run(SmJt.Step, SmJt.Sm(s', e'), k - 1));
      }
    }
  }

  /** Two runs agree at every point up to n exactly when all their instructions are supported. */
  lemma {:induction false} RunAgree(s: State, ext: int32, n: nat)
    ensures AgreeUpTo(s, ext, n) <==> RunSupported(s, n)
    decreases n
  {
    hide StepSupported, Isa.Step, SmJt.Step;
    var c := SmJt.Sm(s, ext);
    StepAgree(s, ext);
    if n > 0 {
      assert Run(Isa.Step, s, 1) == Isa.Step(s);
      assert Run(SmJt.Step, c, 1) == SmJt.Step(c);
      if StepSupported(s) && Isa.Step(s).Running? {
        AgreeAfter(s, ext, n);
        RunAgree(Isa.Step(s).s, SmJt.Step(c).s.ext, n - 1);
      } else if AgreeUpTo(s, ext, n) {
        assert Agree(Run(Isa.Step, s, 1), Run(SmJt.Step, c, 1));
      }
    }
  }

  // ---------------------------------------------------------------- assembly programs on the C machine

  /** Instructions both machines carry out alike whenever the first one does not fault. */
  predicate Portable(i: Instr)
  {
    !i.JmpInd? && !i.JmpIdx? && (i.JmpBase? ==> i.o >= 0) && (i.Sh? ==> -32 < i.k < 32)
  }

  lemma PortableSupported(i: Instr, f: Isa.Fields, s: State)
    requires Format(i, f) && Portable(i) && (Effect(i, s).Ok? || i.Halt?)
    ensures Supported(f, s)
  {
    hide Wrap, Isa.Scaled, ReadWord, And, Not, Isa.Shift, WriteWord;
  }

  /** One step of a loaded, portable program on the C machine is the instruction's effect. */
  lemma NextC(c0: SmJt.Sm, c: SmJt.Sm, code: Code, a: int32, i: Instr) returns (d: SmJt.Sm)
    requires Reaches(SmJt.Step, c0, c)
    requires Loaded(c.core.mem, code) && c.core.pc == a && code(a) == Some(i) && Portable(i)
    requires Effect(i, Past(c.core, i)).Ok?
    ensures Effect(i, Past(c.core, i)) == Ok(d.core)
    ensures Reaches(SmJt.Step, c0, d)
  {
    hide Effect, Format, Isa.Exec, Isa.Step, SmJt.Step, Supported, Portable;
    var s := c.core;
    FetchAt(s, i);
    PortableSupported(i, FieldsAt(s.mem, s.pc, Length(i)), Past(s, i));
    StepAt(s, i);
    StepAgree(s, c.ext);
    d := SmJt.Step(c).s;
    ReachesOne(SmJt.Step, c, d);
    ReachesTrans(SmJt.Step, c0, c, d);
  }

  lemma StopC(c0: SmJt.Sm, c: SmJt.Sm, code: Code) returns (d: SmJt.Sm)
    requires Reaches(SmJt.Step, c0, c) && Loaded(c.core.mem, code) && code(c.core.pc) == Some(Halt)
    ensures d.core == Past(c.core, Halt) && HaltsIn(SmJt.Step, c0, d)
  {
    hide Isa.Exec, SmJt.Step, Supported, Isa.Step, Format;
    var s := c.core;
    FetchAt(s, Halt);
    PortableSupported(Halt, FieldsAt(s.mem, s.pc, 2), Past(s, Halt));
    StepAt(s, Halt);
    StepAgree(s, c.ext);
    d := SmJt.Step(c).s;
    ReachesHalt(SmJt.Step, c0, c, d);
  }
}
