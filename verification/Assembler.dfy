/** Laying a listing out in memory, by the instruction formats of a7/CPU.java. */
module Assembler {
  import opened Word
  import opened MainMemory
  import opened Isa
  import opened Assembly
  import opened Programs

  function Pair(op: nibble, op0: nibble, op1: nibble, op2: nibble): seq<byte>
  {
    [16 * op + op0, 16 * op1 + op2]
  }

  function PairImm(op: nibble, op0: nibble, imm: sbyte): seq<byte>
  {
    [16 * op + op0, if imm < 0 then imm + 256 else imm]
  }

  function Encode(i: Instr): (r: seq<byte>)
    ensures |r| == Length(i)
  {
    match i
    case LdImm(v, d) => Pair(0, d, 0, 0) + IntegerToBytes(v)
    case LdBase(p, s, d) => Pair(1, p, s, d)
    case LdIdx(s, x, d) => Pair(2, s, x, d)
    case StBase(s, p, d) => Pair(3, s, p, d)
    case StIdx(s, d, x) => Pair(4, s, d, x)
    case Mov(s, d) => Pair(6, 0, s, d)
    case Add(s, d) => Pair(6, 1, s, d)
    case AndI(s, d) => Pair(6, 2, s, d)
    case Inc(d) => Pair(6, 3, 0, d)
    case Inca(d) => Pair(6, 4, 0, d)
    case Dec(d) => Pair(6, 5, 0, d)
    case Deca(d) => Pair(6, 6, 0, d)
    case NotI(d) => Pair(6, 7, 0, d)
    case Gpc(p, d) => Pair(6, 15, p, d)
    case Sh(d, k) => PairImm(7, d, k)
    case Br(o) => PairImm(8, 0, o)
    case Beq(c, o) => PairImm(9, c, o)
    case Bgt(c, o) => PairImm(10, c, o)
    case Jmp(a) => Pair(11, 0, 0, 0) + IntegerToBytes(a)
    case JmpBase(t, o) => PairImm(12, t, o)
    case JmpInd(t, o) => PairImm(13, t, o)
    case JmpIdx(b, x) => Pair(14, b, x, 0)
    case Halt => Pair(15, 0, 0, 0)
  }

  lemma DecodePair(op: nibble, op0: nibble, op1: nibble, op2: nibble, ext: int32)
    ensures var b := Pair(op, op0, op1, op2); var f := Decode(b[0], b[1], ext);
      f.op == op && f.op0 == op0 && f.op1 == op1 && f.op2 == op2 && f.ext == ext
  {
  }

  lemma DecodePairImm(op: nibble, op0: nibble, imm: sbyte, ext: int32)
    ensures var b := PairImm(op, op0, imm); var f := Decode(b[0], b[1], ext);
      f.op == op && f.op0 == op0 && f.imm == imm && f.ext == ext
  {
  }

  /** The encoding of an instruction decodes to its fields. */
  lemma EncodeDecodes(i: Instr)
    ensures var b := Encode(i);
      Format(i, Decode(b[0], b[1], if Length(i) == 6 then BytesToInteger(b[2], b[3], b[4], b[5]) else 0))
  {
    hide IntegerToBytes, BytesToInteger, Decode, Pair, PairImm;
    match i
    case LdImm(v, d) => IntegerRoundTrip(v); DecodePair(0, d, 0, 0, v);
    case Jmp(a) => IntegerRoundTrip(a); DecodePair(11, 0, 0, 0, a);
    case LdBase(p, s, d) => DecodePair(1, p, s, d, 0);
    case LdIdx(s, x, d) => DecodePair(2, s, x, d, 0);
    case StBase(s, p, d) => DecodePair(3, s, p, d, 0);
    case StIdx(s, d, x) => DecodePair(4, s, d, x, 0);
    case Mov(s, d) => DecodePair(6, 0, s, d, 0);
    case Add(s, d) => DecodePair(6, 1, s, d, 0);
    case AndI(s, d) => DecodePair(6, 2, s, d, 0);
    case Inc(d) => DecodePair(6, 3, 0, d, 0);
    case Inca(d) => DecodePair(6, 4, 0, d, 0);
    case Dec(d) => DecodePair(6, 5, 0, d, 0);
    case Deca(d) => DecodePair(6, 6, 0, d, 0);
    case NotI(d) => DecodePair(6, 7, 0, d, 0);
    case Gpc(p, d) => DecodePair(6, 15, p, d, 0);
    case Sh(d, k) => DecodePairImm(7, d, k, 0);
    case Br(o) => DecodePairImm(8, 0, o, 0);
    case Beq(c, o) => DecodePairImm(9, c, o, 0);
    case Bgt(c, o) => DecodePairImm(10, c, o, 0);
    case JmpBase(t, o) => DecodePairImm(12, t, o, 0);
    case JmpInd(t, o) => DecodePairImm(13, t, o, 0);
    case JmpIdx(b, x) => DecodePair(14, b, x, 0, 0);
    case Halt => DecodePair(15, 0, 0, 0, 0);
  }

  lemma EncodedAt(m: Bytes, a: int32, i: Instr)
    requires InRange(m, a, Length(i)) && m[a..a + Length(i)] == Encode(i)
    ensures At(m, a, i)
  {
    hide Encode, Format, BytesToInteger, Decode;
    EncodeDecodes(i);
    assert m[a + 0] == Encode(i)[0] && m[a + 1] == Encode(i)[1];
    if Length(i) == 6 {
      assert m[a + 2] == Encode(i)[2] && m[a + 3] == Encode(i)[3] && m[a + 4] == Encode(i)[4] && m[a + 5] == Encode(i)[5];
    }
  }

  /** No instruction starts inside another. */
  predicate Separate(code: Code, a: int)
  {
    forall k :: code(a).Some? && a < k < a + Length(code(a).value) ==> code(k).None?
  }

  /** The byte at k, from the instruction starting at k - d or before, if one covers it. */
  function Covering(code: Code, k: int, d: nat, otherwise: byte): byte
    requires d <= 6
    decreases 6 - d
  {
    if d == 6 then otherwise else
      match code(k - d)
      case Some(i) => if d < Length(i) then Encode(i)[d] else otherwise
      case None => Covering(code, k, d + 1, otherwise)
  }

  function Assembled(m: Bytes, code: Code): (r: Bytes)
    ensures |r| == |m|
  {
    seq(|m|, k requires 0 <= k < |m| => Covering(code, k, 0, m[k]))
  }

  lemma {:induction false} CoveringIs(code: Code, a: int, d: nat, e: nat, otherwise: byte)
    requires code(a).Some? && e <= d < Length(code(a).value) && Separate(code, a)
    ensures Covering(code, a + d, e, otherwise) == Encode(code(a).value)[d]
    decreases d - e
  {
    assert d < 6;
    hide Encode, Length;
    if e < d {
      assert code(a + d - e).None?;
      CoveringIs(code, a, d, e + 1, otherwise);
    }
  }

  /** Every listing whose instructions lie within memory and do not overlap can be loaded. */
  lemma AssembledLoads(m: Bytes, code: Code)
    requires forall a: int :: code(a).Some? ==> InRange(m, a, Length(code(a).value)) && Separate(code, a)
    ensures Loaded(Assembled(m, code), code)
  {
    hide Encode, At, Covering;
    var r := Assembled(m, code);
    forall a: int32 | code(a).Some? ensures At(r, a, code(a).value) {
      var i := code(a).value;
      forall d | 0 <= d < Length(i) ensures r[a..a + Length(i)][d] == Encode(i)[d] {
        CoveringIs(code, a, d, 0, m[a + d]);
      }
      EncodedAt(r, a, i);
    }
  }

  lemma {:induction false} CoveringNone(code: Code, k: int, d: nat, otherwise: byte)
    requires d <= 6 && forall a: int :: code(a).Some? ==> !(a <= k < a + Length(code(a).value))
    ensures Covering(code, k, d, otherwise) == otherwise
    decreases 6 - d
  {
    hide Encode, Length;
    if d < 6 && code(k - d).None? {
      CoveringNone(code, k, d + 1, otherwise);
    }
  }

  /** A byte that no instruction covers keeps its value. */
  lemma AssembledElsewhere(m: Bytes, code: Code, k: nat)
    requires k < |m| && forall a: int :: code(a).Some? ==> !(a <= k < a + Length(code(a).value))
    ensures Assembled(m, code)[k] == m[k]
  {
    CoveringNone(code, k, 0, m[k]);
  }
}
