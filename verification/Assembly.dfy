/** SM213 assembly: what each instruction does, and how it lies in memory. */
module Assembly {
  import opened Word
  import opened MainMemory
  import opened Runs
  import opened Isa

  type Register = r: int | 0 <= r < 8

  datatype Instr =
    | LdImm(v: int32, d: Register)
    | LdBase(p: nibble, s: Register, d: Register)
    | LdIdx(s: Register, i: Register, d: Register)
    | StBase(s: Register, p: nibble, d: Register)
    | StIdx(s: Register, d: Register, i: Register)
    | Mov(s: Register, d: Register)
    | Add(s: Register, d: Register)
    | AndI(s: Register, d: Register)
    | Inc(d: Register)
    | Inca(d: Register)
    | Dec(d: Register)
    | Deca(d: Register)
    | NotI(d: Register)
    | Gpc(p: nibble, d: Register)
    | Sh(d: Register, k: sbyte)
    | Br(o: sbyte)
    | Beq(c: Register, o: sbyte)
    | Bgt(c: Register, o: sbyte)
    | Jmp(a: int32)
    | JmpBase(t: Register, o: sbyte)
    | JmpInd(t: Register, o: sbyte)
    | JmpIdx(b: Register, i: Register)
    | Halt

  function Length(i: Instr): nat
  {
    if i.LdImm? || i.Jmp? then 6 else 2
  }

  /** The nibbles of each format, as a7/CPU.java lists them; operands marked - there may hold anything. */
  predicate Format(i: Instr, f: Fields)
  {
    match i
    case LdImm(v, d) => f.op == 0 && f.op0 == d && f.ext == v
    case LdBase(p, s, d) => f.op == 1 && f.op0 == p && f.op1 == s && f.op2 == d
    case LdIdx(s, x, d) => f.op == 2 && f.op0 == s && f.op1 == x && f.op2 == d
    case StBase(s, p, d) => f.op == 3 && f.op0 == s && f.op1 == p && f.op2 == d
    case StIdx(s, d, x) => f.op == 4 && f.op0 == s && f.op1 == d && f.op2 == x
    case Mov(s, d) => f.op == 6 && f.op0 == 0 && f.op1 == s && f.op2 == d
    case Add(s, d) => f.op == 6 && f.op0 == 1 && f.op1 == s && f.op2 == d
    case AndI(s, d) => f.op == 6 && f.op0 == 2 && f.op1 == s && f.op2 == d
    case Inc(d) => f.op == 6 && f.op0 == 3 && f.op2 == d
    case Inca(d) => f.op == 6 && f.op0 == 4 && f.op2 == d
    case Dec(d) => f.op == 6 && f.op0 == 5 && f.op2 == d
    case Deca(d) => f.op == 6 && f.op0 == 6 && f.op2 == d
    case NotI(d) => f.op == 6 && f.op0 == 7 && f.op2 == d
    case Gpc(p, d) => f.op == 6 && f.op0 == 15 && f.op1 == p && f.op2 == d
    case Sh(d, k) => f.op == 7 && f.op0 == d && f.imm == k
    case Br(o) => f.op == 8 && f.imm == o
    case Beq(c, o) => f.op == 9 && f.op0 == c && f.imm == o
    case Bgt(c, o) => f.op == 10 && f.op0 == c && f.imm == o
    case Jmp(a) => f.op == 11 && f.ext == a
    case JmpBase(t, o) => f.op == 12 && f.op0 == t && f.imm == o
    case JmpInd(t, o) => f.op == 13 && f.op0 == t && f.imm == o
    case JmpIdx(b, x) => f.op == 14 && f.op0 == b && f.op1 == x
    case Halt => f.op == 15 && f.op0 == 0
  }

  /** Instruction i lies in memory at address a. */
  predicate At(m: Bytes, a: int32, i: Instr)
  {
    && InRange(m, a, Length(i))
    && Format(i, FieldsAt(m, a, Length(i)))
  }

  function Goto(s: State, a: int): State { s.(pc := Wrap(a)) }

  function Write(s: State, d: Register, v: int32): State { s.(reg := s.reg.Set(d, v)) }

  /** The state whose pc has moved past instruction i. */
  function Past(s: State, i: Instr): State { Goto(s, s.pc + Length(i)) }

  function R(s: State, r: Register): int { s.reg.Get(r) }

  /** The effect of an instruction on a state whose pc is already past it. */
  function Effect(i: Instr, s: State): Result<State>
  {
    match i
    case LdImm(v, d) => Ok(Write(s, d, v))
    case LdBase(p, b, d) => Load(s, Wrap(R(s, b) + 4 * p), d)
    case LdIdx(b, x, d) => Load(s, Scaled(s.reg.Get(b), s.reg.Get(x)), d)
    case StBase(r, p, b) => Store(s, Wrap(R(s, b) + 4 * p), r)
    case StIdx(r, b, x) => Store(s, Scaled(s.reg.Get(b), s.reg.Get(x)), r)
    case Mov(r, d) => Ok(Write(s, d, s.reg.Get(r)))
    case Add(r, d) => Ok(Write(s, d, Wrap(R(s, r) + R(s, d))))
    case AndI(r, d) => Ok(Write(s, d, And(s.reg.Get(r), s.reg.Get(d))))
    case Inc(d) => Ok(Write(s, d, Wrap(R(s, d) + 1)))
    case Inca(d) => Ok(Write(s, d, Wrap(R(s, d) + 4)))
    case Dec(d) => Ok(Write(s, d, Wrap(R(s, d) - 1)))
    case Deca(d) => Ok(Write(s, d, Wrap(R(s, d) - 4)))
    case NotI(d) => Ok(Write(s, d, Not(s.reg.Get(d))))
    case Gpc(p, d) => Ok(Write(s, d, Wrap(s.pc + 2 * p)))
    case Sh(d, k) => Ok(Write(s, d, Shift(s.reg.Get(d), k)))
    case Br(o) => Ok(Goto(s, s.pc + 2 * o))
    case Beq(c, o) => Ok(if s.reg.Get(c) == 0 then Goto(s, s.pc + 2 * o) else s)
    case Bgt(c, o) => Ok(if s.reg.Get(c) > 0 then Goto(s, s.pc + 2 * o) else s)
    case Jmp(a) => Ok(Goto(s, a))
    case JmpBase(t, o) => Ok(Goto(s, R(s, t) + 2 * o))
    case JmpInd(t, o) => var a :- ReadAligned(s.mem, Wrap(R(s, t) + 4 * o)); Ok(Goto(s, a))
    case JmpIdx(b, x) => var a :- ReadAligned(s.mem, Scaled(s.reg.Get(b), s.reg.Get(x))); Ok(Goto(s, a))
    case Halt => Throw(MachineHalt)
  }

  lemma UnalignedWord(m: Bytes, a: int32)
    requires InRange(m, a, 4)
    ensures ReadWordUnaligned(m, a) == Ok(ReadWord(m, a))
  {
  }

  lemma InstructionBytes(m: Bytes, a: int32)
    requires InRange(m, a, 2)
    ensures GetBytes(m, a, 2) == Ok([m[a], m[a + 1]])
  {
    assert m[a..a + 2] == [m[a], m[a + 1]];
  }

  lemma ExtensionLength(i: Instr, f: Fields)
    requires Format(i, f)
    ensures HasExtension(f.op) <==> Length(i) == 6
  {
  }

  /** Fetch returns the encoded fields, the sign-extended immediate and the 32-bit extension, and moves past them. */
  lemma FetchShort(s: State)
    requires InRange(s.mem, s.pc, 2) && !HasExtension(s.mem[s.pc] / 16)
    ensures Fetch(s) == Ok((Decode(s.mem[s.pc], s.mem[s.pc + 1], 0), s.(pc := s.pc + 2)))
  {
    InstructionBytes(s.mem, s.pc);
  }

  lemma FetchLong(s: State)
    requires InRange(s.mem, s.pc, 6) && HasExtension(s.mem[s.pc] / 16)
    ensures Fetch(s) == Ok((Decode(s.mem[s.pc], s.mem[s.pc + 1], ReadWord(s.mem, s.pc + 2)), s.(pc := s.pc + 6)))
  {
    hide BytesToInteger, SignedByte;
    InstructionBytes(s.mem, s.pc);
    UnalignedWord(s.mem, s.pc + 2);
  }

  function FieldsAt(m: Bytes, a: int32, length: nat): Fields
    requires 2 <= length && InRange(m, a, length)
  {
    Decode(m[a], m[a + 1], if length >= 6 then ReadWord(m, a + 2) else 0)
  }

  lemma FetchAt(s: State, i: Instr)
    requires At(s.mem, s.pc, i)
    ensures Fetch(s) == Ok((FieldsAt(s.mem, s.pc, Length(i)), Past(s, i)))
  {
    hide Format, ReadWord, SignedByte, Fetch;
    ExtensionLength(i, FieldsAt(s.mem, s.pc, Length(i)));
    if Length(i) == 6 {
      FetchLong(s);
    } else {
      FetchShort(s);
    }
  }

  lemma ExecAluAt(f: Fields, s: State, i: Instr)
    requires Format(i, f) && f.op == 6
    ensures Exec(f, s) == Effect(i, s)
  {
    hide Wrap, And, Not, Shift, Scaled, Load, Store, ReadAligned;
    assert Exec(f, s) == Alu(f.op0, f.op1, f.op2, s);
  }

  lemma ExecMemoryAt(f: Fields, s: State, i: Instr)
    requires Format(i, f) && 1 <= f.op <= 4
    ensures Exec(f, s) == Effect(i, s)
  {
    hide Wrap, And, Not, Shift, Scaled, Load, Store, ReadAligned;
  }

  lemma ExecControlAt(f: Fields, s: State, i: Instr)
    requires Format(i, f) && f.op > 7
    ensures Exec(f, s) == Effect(i, s)
  {
    hide Wrap, And, Not, Shift, Scaled, Load, Store, ReadAligned;
  }

  lemma ExecAt(f: Fields, s: State, i: Instr)
    requires Format(i, f)
    ensures Exec(f, s) == Effect(i, s)
  {
    if f.op == 6 {
      ExecAluAt(f, s, i);
    } else if 1 <= f.op <= 4 {
      ExecMemoryAt(f, s, i);
    } else if f.op > 7 {
      ExecControlAt(f, s, i);
    }
  }

  /** Byte-level fetch, decode and execute carries out the assembly instruction at the pc. */
  lemma StepAt(s: State, i: Instr)
    requires At(s.mem, s.pc, i)
    ensures match Effect(i, Past(s, i))
      case Ok(t) => Step(s) == Running(t)
      case Throw(MachineHalt) => Step(s) == Halted(Past(s, i))
      case Throw(e) => Step(s) == Failed(e)
  {
    FetchAt(s, i);
    ExecAt(FieldsAt(s.mem, s.pc, Length(i)), Past(s, i), i);
  }

  /** The address a load or store uses. */
  function Target(i: Instr, s: State): int32
    requires i.LdBase? || i.LdIdx? || i.StBase? || i.StIdx?
  {
    match i
    case LdBase(p, b, _) => Wrap(R(s, b) + 4 * p)
    case LdIdx(b, x, _) => Scaled(s.reg.Get(b), s.reg.Get(x))
    case StBase(_, p, b) => Wrap(R(s, b) + 4 * p)
    case StIdx(_, b, x) => Scaled(s.reg.Get(b), s.reg.Get(x))
  }

  lemma LoadEffect(i: Instr, s: State)
    requires (i.LdBase? || i.LdIdx?) && Accessible(s.mem, Target(i, s))
    ensures Effect(i, s) == Ok(Write(s, i.d, ReadWord(s.mem, Target(i, s))))
  {
    hide ReadWord, Wrap, Scaled;
  }

  lemma StoreEffect(i: Instr, s: State)
    requires (i.StBase? || i.StIdx?) && Accessible(s.mem, Target(i, s))
    ensures Effect(i, s) == Ok(s.(mem := WriteWord(s.mem, Target(i, s), s.reg.Get(i.s))))
  {
    hide WriteWord, Wrap, Scaled;
  }

  lemma ScaledExact(base: int32, index: int32)
    requires 0 <= base && 0 <= index && base + 4 * index < TWO31
    ensures Scaled(base, index) == base + 4 * index
  {
    assert Pow2(2) == 2 * Pow2(1) == 4;
    assert Shl(index, 2) == Wrap(index * 4);
  }

  /** The machine takes the one step the instruction at the pc asks for. */
  lemma Do(s: State, i: Instr) returns (t: State)
    requires At(s.mem, s.pc, i)
    requires Effect(i, Past(s, i)).Ok?
    ensures Effect(i, Past(s, i)) == Ok(t)
    ensures Reaches(Step, s, t)
  {
    StepAt(s, i);
    t := Effect(i, Past(s, i)).value;
    ReachesOne(Step, s, t);
  }

  lemma AtFrame(m: Bytes, m': Bytes, a: int32, i: Instr)
    requires At(m, a, i) && |m'| == |m|
    requires m'[a..a + Length(i)] == m[a..a + Length(i)]
    ensures At(m', a, i)
  {
    hide Format, BytesToInteger, SignedByte;
    forall k | a <= k < a + Length(i) ensures m'[k] == m[k] {
      assert m'[k] == m'[a..a + Length(i)][k - a];
    }
  }
}
