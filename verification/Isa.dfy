/** The SM213 instruction set as functions on machine states (a7/CPU.java). */
module Isa {
  import opened Word
  import opened MainMemory
  import opened Runs

  /** The eight general registers. */
  datatype Registers = Registers(r0: int32, r1: int32, r2: int32, r3: int32, r4: int32, r5: int32, r6: int32, r7: int32) {
    function Get(k: int): int32
      requires 0 <= k < 8
    {
      match k
      case 0 => r0
      case 1 => r1
      case 2 => r2
      case 3 => r3
      case 4 => r4
      case 5 => r5
      case 6 => r6
      case _ => r7
    }

    function Set(k: int, v: int32): Registers
      requires 0 <= k < 8
    {
      match k
      case 0 => this.(r0 := v)
      case 1 => this.(r1 := v)
      case 2 => this.(r2 := v)
      case 3 => this.(r3 := v)
      case 4 => this.(r4 := v)
      case 5 => this.(r5 := v)
      case 6 => this.(r6 := v)
      case _ => this.(r7 := v)
    }
  }

  datatype State = State(reg: Registers, pc: int32, mem: Bytes)

  /** The decode registers that fetch leaves for execute. */
  datatype Fields = Fields(op: nibble, op0: nibble, op1: nibble, op2: nibble, imm: sbyte, ext: int32)

  function GetReg(s: State, r: nibble): Result<int32>
  {
    if r < 8 then Ok(s.reg.Get(r)) else Throw(InvalidRegisterNumber)
  }

  function SetReg(s: State, r: nibble, v: int32): Result<State>
  {
    if r < 8 then Ok(s.(reg := s.reg.Set(r, v))) else Throw(InvalidRegisterNumber)
  }

  // ---------------------------------------------------------------- fetch

  function SignedByte(b: byte): sbyte { if b < 128 then b else b - 256 }

  /** The fields of the two-byte instruction word b0 b1. */
  function Decode(b0: byte, b1: byte, ext: int32): Fields
  {
    Fields(b0 / 16, b0 % 16, b1 / 16, b1 % 16, SignedByte(b1), ext)
  }

  /** Only ld $v, d and j A carry a 32-bit extension. */
  predicate HasExtension(op: nibble) { op == 0 || op == 0xb }

  function Fetch(s: State): Result<(Fields, State)>
  {
    var ins :- GetBytes(s.mem, s.pc, 2);
    var pc := Wrap(s.pc + 2);
    if HasExtension(ins[0] / 16) then
      var ext :- ReadWordUnaligned(s.mem, pc);
      Ok((Decode(ins[0], ins[1], ext), s.(pc := Wrap(pc + 4))))
    else
      Ok((Decode(ins[0], ins[1], 0), s.(pc := pc)))
  }

  // ---------------------------------------------------------------- execute

  function Load(s: State, a: int32, d: nibble): Result<State>
  {
    var v :- ReadAligned(s.mem, a);
    SetReg(s, d, v)
  }

  function Store(s: State, a: int32, r: nibble): Result<State>
  {
    var v :- GetReg(s, r);
    var m :- WriteAligned(s.mem, a, v);
    Ok(s.(mem := m))
  }

  function Scaled(base: int32, index: int32): int32 { Wrap(base + Shl(index, 2)) }

  function Branch(s: State, imm: sbyte): State { s.(pc := Wrap(s.pc + imm * 2)) }

  /** The register-to-register group; fun is the low nibble of the first byte. */
  function Alu(fun: nibble, a: nibble, d: nibble, s: State): Result<State>
  {
    match fun
    case 0 => var v :- GetReg(s, a); SetReg(s, d, v)
    case 1 => var v :- GetReg(s, a); var w :- GetReg(s, d); SetReg(s, d, Wrap(v + w))
    case 2 => var v :- GetReg(s, a); var w :- GetReg(s, d); SetReg(s, d, And(v, w))
    case 3 => var w :- GetReg(s, d); SetReg(s, d, Wrap(w + 1))
    case 4 => var w :- GetReg(s, d); SetReg(s, d, Wrap(w + 4))
    case 5 => var w :- GetReg(s, d); SetReg(s, d, Wrap(w - 1))
    case 6 => var w :- GetReg(s, d); SetReg(s, d, Wrap(w - 4))
    case 7 => var w :- GetReg(s, d); SetReg(s, d, Not(w))
    case 15 => SetReg(s, d, Wrap(s.pc + a * 2))
    case _ => Throw(InvalidInstruction)
  }

  /** A Java shift uses the low five bits of its amount. */
  function Shift(v: int32, imm: sbyte): int32
  {
    if imm > 0 then Shl(v, imm % 32) else Sar(v, (0 - imm) % 32)
  }

  function Exec(f: Fields, s: State): Result<State>
  {
    match f.op
    case 0 => SetReg(s, f.op0, f.ext)
    case 1 => var b :- GetReg(s, f.op1); Load(s, Wrap(f.op0 * 4 + b), f.op2)
    case 2 => var b :- GetReg(s, f.op0); var i :- GetReg(s, f.op1); Load(s, Scaled(b, i), f.op2)
    case 3 => var b :- GetReg(s, f.op2); Store(s, Wrap(f.op1 * 4 + b), f.op0)
    case 4 => var b :- GetReg(s, f.op1); var i :- GetReg(s, f.op2); Store(s, Scaled(b, i), f.op0)
    case 6 => Alu(f.op0, f.op1, f.op2, s)
    case 7 => var v :- GetReg(s, f.op0); SetReg(s, f.op0, Shift(v, f.imm))
    case 8 => Ok(Branch(s, f.imm))
    case 9 => var v :- GetReg(s, f.op0); Ok(if v == 0 then Branch(s, f.imm) else s)
    case 10 => var v :- GetReg(s, f.op0); Ok(if v > 0 then Branch(s, f.imm) else s)
    case 11 => Ok(s.(pc := f.ext))
    case 12 => var v :- GetReg(s, f.op0); Ok(s.(pc := Wrap(v + f.imm * 2)))
    case 13 => var v :- GetReg(s, f.op0); var t :- ReadAligned(s.mem, Wrap(v + f.imm * 4)); Ok(s.(pc := t))
    case 14 =>
      var b :- GetReg(s, f.op0);
      var i :- GetReg(s, f.op1);
      var t :- ReadAligned(s.mem, Scaled(b, i));
      Ok(s.(pc := t))
    case 15 => if f.op0 == 0 then Throw(MachineHalt) else Ok(s)
    case _ => Throw(InvalidInstruction)
  }

  // ---------------------------------------------------------------- one cycle

  /** One fetch and execute. A halt leaves the state that fetch left. */
  function Step(s: State): Outcome<State, Exception>
  {
    match Fetch(s)
    case Throw(e) => Failed(e)
    case Ok((f, t)) =>
      match Exec(f, t)
      case Ok(u) => Running(u)
      case Throw(MachineHalt) => Halted(t)
      case Throw(e) => Failed(e)
  }
}
