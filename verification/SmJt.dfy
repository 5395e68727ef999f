/** The second simulator, written in C with jump tables (a7/sm_jt.c). */
module SmJt {
  import opened Word
  import opened MainMemory
  import opened Runs
  import opened Isa

  /** The C globals: registers, pc and memory, and the extension that an instruction without one leaves stale. */
  datatype Sm = Sm(core: State, ext: int32)

  /** Behaviour the C standard leaves undefined: an array index out of bounds, or a shift by 32 or more. */
  datatype Undefined = Undefined

  datatype Decoded = Decoded(f: Fields, sm: Sm) | Bad

  function Fetch(sm: Sm): Decoded
  {
    var s := sm.core;
    if !InRange(s.mem, s.pc, 2) then Bad else
      var b0, b1 := s.mem[s.pc], s.mem[s.pc + 1];
      if !HasExtension(b0 / 16) then Decoded(Decode(b0, b1, sm.ext), Sm(s.(pc := Wrap(s.pc + 2)), sm.ext))
      else if !InRange(s.mem, s.pc + 2, 4) then Bad
      else
        var ext := ReadWord(s.mem, s.pc + 2);
        Decoded(Decode(b0, b1, ext), Sm(s.(pc := Wrap(s.pc + 6)), ext))
  }

  /** Registers are an array of eight: any other index is out of bounds. */
  predicate Regs(i: nibble, j: nibble) { i < 8 && j < 8 }

  function Put(s: State, d: int, v: int32): State
    requires 0 <= d < 8
  {
    s.(reg := s.reg.Set(d, v))
  }

  type Next = Outcome<State, Undefined>

  function Load(s: State, a: int32, d: nibble): Next
  {
    if d < 8 && InRange(s.mem, a, 4) then Running(Put(s, d, ReadWord(s.mem, a))) else Failed(Undefined)
  }

  function Store(s: State, a: int32, r: nibble): Next
  {
    if r < 8 && InRange(s.mem, a, 4) then Running(s.(mem := WriteWord(s.mem, a, s.reg.Get(r)))) else Failed(Undefined)
  }

  function Jump(s: State, a: int): Next { Running(s.(pc := Wrap(a))) }

  function Alu(fun: nibble, a: nibble, d: nibble, s: State): Next
  {
    if 8 <= fun < 15 then Running(s)
    else if d >= 8 || (fun < 3 && a >= 8) then Failed(Undefined)
    else
      var w := s.reg.Get(d);
      match fun
      case 0 => Running(Put(s, d, s.reg.Get(a)))
      case 1 => Running(Put(s, d, Wrap(s.reg.Get(a) as int + w)))
      case 2 => Running(Put(s, d, And(s.reg.Get(a), w)))
      case 3 => Running(Put(s, d, Wrap(w + 1)))
      case 4 => Running(Put(s, d, Wrap(w + 4)))
      case 5 => Running(Put(s, d, Wrap(w - 1)))
      case 6 => Running(Put(s, d, Wrap(w - 4)))
      case 7 => Running(Put(s, d, Not(w)))
      case _ => Running(Put(s, d, Wrap(s.pc + a * 2)))
  }

  /** An unimplemented or illegal instruction is skipped; only opcode f with a zero first operand stops the machine. */
  function Exec(f: Fields, s: State): Next
  {
    match f.op
    case 0 => if f.op0 < 8 then Running(Put(s, f.op0, f.ext)) else Failed(Undefined)
    case 1 => if f.op1 < 8 then Load(s, Wrap(f.op0 * 4 + s.reg.Get(f.op1)), f.op2) else Failed(Undefined)
    case 2 =>
      if Regs(f.op0, f.op1) then Load(s, Scaled(s.reg.Get(f.op0), s.reg.Get(f.op1)), f.op2) else Failed(Undefined)
    case 3 => if f.op2 < 8 then Store(s, Wrap(f.op1 * 4 + s.reg.Get(f.op2)), f.op0) else Failed(Undefined)
    case 4 =>
      if Regs(f.op1, f.op2) then Store(s, Scaled(s.reg.Get(f.op1), s.reg.Get(f.op2)), f.op0) else Failed(Undefined)
    case 6 => Alu(f.op0, f.op1, f.op2, s)
    case 7 =>
      if f.op0 >= 8 || f.imm >= 32 || f.imm <= -32 then Failed(Undefined)
      else if f.imm > 0 then Running(Put(s, f.op0, Shl(s.reg.Get(f.op0), f.imm)))
      else Running(Put(s, f.op0, Sar(s.reg.Get(f.op0), 0 - f.imm)))
    case 8 => Jump(s, s.pc + f.imm * 2)
    case 9 =>
      if f.op0 >= 8 then Failed(Undefined)
      else if s.reg.Get(f.op0) == 0 then Jump(s, s.pc + f.imm * 2) else Running(s)
    case 10 =>
      if f.op0 >= 8 then Failed(Undefined)
      else if s.reg.Get(f.op0) > 0 then Jump(s, s.pc + f.imm * 2) else Running(s)
    case 11 => Running(s.(pc := f.ext))
    case 12 =>
      // the immediate is converted to an unsigned short before it is doubled
      if f.op0 >= 8 then Failed(Undefined)
      else Jump(s, s.reg.Get(f.op0) + (if f.imm < 0 then 0x1_0000 + f.imm else f.imm) * 2)
    case 15 => if f.op0 == 0 then Halted(s) else Running(s)
    case _ => Running(s)
  }

  /** One turn of the loop in compute. */
  function Step(sm: Sm): Outcome<Sm, Undefined>
  {
    match Fetch(sm)
    case Bad => Failed(Undefined)
    case Decoded(f, t) =>
      match Exec(f, t.core)
      case Running(s) => Running(Sm(s, t.ext))
      case Halted(s) => Halted(Sm(s, t.ext))
      case Failed(e) => Failed(e)
  }
}
