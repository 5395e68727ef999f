/** The byte-addressed, big-endian main memory (a1/MainMemory.java). */
module MainMemory {
  import opened Word

  /** The exceptions a cycle of the machine can end in. */
  datatype Exception =
    | InvalidAddress
    | IndexOutOfBounds
    | InvalidInstruction
    | InvalidRegisterNumber
    | MachineHalt
    | Arithmetic

  datatype Result<+T> = Ok(value: T) | Throw(e: Exception) {
    predicate IsFailure() { Throw? }
    function PropagateFailure<U>(): Result<U>
      requires Throw?
    {
      Throw(e)
    }
    function Extract(): T
      requires Ok?
    {
      value
    }
  }

  /** A Java array has at most 2^31 - 1 elements. */
  type Bytes = m: seq<byte> | |m| < 0x8000_0000

  // ---------------------------------------------------------------- words as bytes

  function BytesToInteger(b0: byte, b1: byte, b2: byte, b3: byte): int32
  {
    Wrap(b0 * 0x100_0000 + b1 * 0x1_0000 + b2 * 0x100 + b3)
  }

  function IntegerToBytes(i: int32): (r: seq<byte>)
    ensures |r| == 4
  {
    [(i / 0x100_0000) % 0x100, (i / 0x1_0000) % 0x100, (i / 0x100) % 0x100, i % 0x100]
  }

  lemma TopByte(i: int32)
    ensures (i / 0x100_0000) % 0x100 == Unsigned(i) / 0x100_0000
  {
    assert Unsigned(i) / 0x100_0000 == if i < 0 then i / 0x100_0000 + 0x100 else i / 0x100_0000;
  }

  lemma SecondByte(i: int32)
    ensures (i / 0x1_0000) % 0x100 == (Unsigned(i) / 0x1_0000) % 0x100
  {
    assert Unsigned(i) / 0x1_0000 == if i < 0 then i / 0x1_0000 + 0x1_0000 else i / 0x1_0000;
  }

  lemma ThirdByte(i: int32)
    ensures (i / 0x100) % 0x100 == (Unsigned(i) / 0x100) % 0x100
  {
    assert Unsigned(i) / 0x100 == if i < 0 then i / 0x100 + 0x100_0000 else i / 0x100;
  }

  lemma LowByte(i: int32)
    ensures i % 0x100 == Unsigned(i) % 0x100
  {
  }

  function UnsignedDigits(u: nat): seq<nat>
  {
    [u / 0x100_0000, (u / 0x1_0000) % 0x100, (u / 0x100) % 0x100, u % 0x100]
  }

  /** The bytes of a signed word, shifted out arithmetically, are the base-256 digits of its unsigned reading. */
  lemma UnsignedBytes(i: int32)
    ensures IntegerToBytes(i) == UnsignedDigits(Unsigned(i))
  {
    hide Unsigned, Wrap;
    TopByte(i);
    SecondByte(i);
    ThirdByte(i);
    LowByte(i);
  }

  lemma Digits(u: nat)
    requires u < TWO32
    ensures u == (u / 0x100_0000) * 0x100_0000 + ((u / 0x1_0000) % 0x100) * 0x1_0000 + ((u / 0x100) % 0x100) * 0x100 + u % 0x100
  {
    assert u / 0x1_0000 == (u / 0x100) / 0x100;
    assert u / 0x100_0000 == (u / 0x1_0000) / 0x100;
  }

  lemma DigitsUnique(b0: byte, b1: byte, b2: byte, b3: byte)
    ensures var u := b0 * 0x100_0000 + b1 * 0x1_0000 + b2 * 0x100 + b3;
      u / 0x100_0000 == b0 && (u / 0x1_0000) % 0x100 == b1 && (u / 0x100) % 0x100 == b2 && u % 0x100 == b3
  {
    var u := b0 * 0x100_0000 + b1 * 0x1_0000 + b2 * 0x100 + b3;
    assert u / 0x100 == b0 * 0x1_0000 + b1 * 0x100 + b2;
    assert u / 0x1_0000 == b0 * 0x100 + b1;
  }

  lemma IntegerRoundTrip(i: int32)
    ensures var b := IntegerToBytes(i); BytesToInteger(b[0], b[1], b[2], b[3]) == i
  {
    UnsignedBytes(i);
    Digits(Unsigned(i));
  }

  lemma BytesRoundTrip(b0: byte, b1: byte, b2: byte, b3: byte)
    ensures IntegerToBytes(BytesToInteger(b0, b1, b2, b3)) == [b0, b1, b2, b3]
  {
    hide Wrap, IntegerToBytes;
    var u := b0 * 0x100_0000 + b1 * 0x1_0000 + b2 * 0x100 + b3;
    WrapIs(u, if u < TWO31 then u else u - TWO32, if u < TWO31 then 0 else 1);
    UnsignedBytes(BytesToInteger(b0, b1, b2, b3));
    DigitsUnique(b0, b1, b2, b3);
  }

  // ---------------------------------------------------------------- reading and writing

  /** The bounds test of get and set. Its left side is an int sum, so it wraps for an address near 2^31. */
  predicate Rejected(m: Bytes, address: int32, length: nat)
  {
    Wrap(address + length - 1) >= |m| || address < 0
  }

  predicate InRange(m: Bytes, address: int, length: nat)
  {
    0 <= address && address + length <= |m|
  }

  /** The bounds test rejects every range outside memory but those whose last address wraps, and no range inside it. */
  lemma BoundsTest(m: Bytes, address: int32, length: nat)
    requires length < TWO31
    ensures Rejected(m, address, length) <==> !InRange(m, address, length) && !(address >= 0 && address + length > TWO31)
  {
  }

  /** Four bytes at the last address pass the bounds test of every memory, and lie in none. */
  lemma WrapPasses(m: Bytes)
    ensures !Rejected(m, 0x7fff_ffff, 4) && !InRange(m, 0x7fff_ffff, 4)
    ensures GetBytes(m, 0x7fff_ffff, 4) == Throw(IndexOutOfBounds)
  {
  }

  function GetBytes(m: Bytes, address: int32, length: nat): (r: Result<seq<byte>>)
    requires length < 0x8000_0000
    ensures r.Ok? <==> InRange(m, address, length)
    ensures r.Ok? ==> |r.value| == length
  {
    if Rejected(m, address, length) then Throw(InvalidAddress)
    else if address + length > |m| then Throw(IndexOutOfBounds)
    else Ok(m[address..address + length])
  }

  function ReadWord(m: Bytes, a: int): int32
    requires InRange(m, a, 4)
  {
    BytesToInteger(m[a], m[a + 1], m[a + 2], m[a + 3])
  }

  function WriteWord(m: Bytes, a: int, v: int32): (r: Bytes)
    requires InRange(m, a, 4)
    ensures |r| == |m|
  {
    m[..a] + IntegerToBytes(v) + m[a + 4..]
  }

  predicate Accessible(m: Bytes, a: int)
  {
    a % 4 == 0 && InRange(m, a, 4)
  }

  /** The superclass's readInteger: reject a misaligned address, else the big-endian word there. */
  function ReadAligned(m: Bytes, a: int32): Result<int32>
  {
    if Accessible(m, a) then Ok(ReadWord(m, a)) else Throw(InvalidAddress)
  }

  function WriteAligned(m: Bytes, a: int32, v: int32): Result<Bytes>
  {
    if Accessible(m, a) then Ok(WriteWord(m, a, v)) else Throw(InvalidAddress)
  }

  function ReadWordUnaligned(m: Bytes, a: int32): (r: Result<int32>)
    ensures r.Ok? <==> InRange(m, a, 4)
  {
    var b :- GetBytes(m, a, 4);
    Ok(BytesToInteger(b[0], b[1], b[2], b[3]))
  }

  predicate SameOutside(m: Bytes, m': Bytes, lo: int, hi: int)
  {
    |m'| == |m| && forall k :: 0 <= k < |m| && !(lo <= k < hi) ==> m'[k] == m[k]
  }

  lemma ReadAfterWrite(m: Bytes, a: int, v: int32)
    requires InRange(m, a, 4)
    ensures ReadWord(WriteWord(m, a, v), a) == v
    ensures SameOutside(m, WriteWord(m, a, v), a, a + 4)
  {
    hide BytesToInteger, IntegerToBytes;
    IntegerRoundTrip(v);
    var b, w := IntegerToBytes(v), WriteWord(m, a, v);
    assert w[a] == b[0] && w[a + 1] == b[1] && w[a + 2] == b[2] && w[a + 3] == b[3];
  }

  lemma ReadFrame(m: Bytes, m': Bytes, a: int)
    requires InRange(m, a, 4) && |m'| == |m|
    requires forall k :: a <= k < a + 4 ==> m'[k] == m[k]
    ensures ReadWord(m', a) == ReadWord(m, a)
  {
  }

  lemma WriteReadBack(m: Bytes, a: int)
    requires InRange(m, a, 4)
    ensures WriteWord(m, a, ReadWord(m, a)) == m
  {
    BytesRoundTrip(m[a], m[a + 1], m[a + 2], m[a + 3]);
  }

  // ---------------------------------------------------------------- the class

  class MainMemory {
    const data: array<byte>

    constructor (byteCapacity: int32)
      requires byteCapacity >= 0
      ensures fresh(data) && data.Length == byteCapacity
      ensures forall k :: 0 <= k < byteCapacity ==> data[k] == 0
    {
      data := new byte[byteCapacity](_ => 0);
    }

    predicate Valid() { data.Length < 0x8000_0000 }

    /** A Java remainder by zero throws; by a negative length it is zero for the same addresses. */
    method IsAccessAligned(address: int32, length: int32) returns (aligned: Result<bool>)
      ensures length == 0 ==> aligned == Throw(Arithmetic)
      ensures length != 0 ==> aligned == Ok(exists q: int :: address == q * length)
    {
      if length == 0 {
        return Throw(Arithmetic);
      }
      DividesIff(address, length);
      return Ok(address % length == 0);
    }

    method Get(address: int32, length: int32) returns (r: Result<seq<byte>>)
      requires Valid() && length >= 0
      ensures r == GetBytes(data[..], address, length)
    {
      if Rejected(data[..], address, length) {
        return Throw(InvalidAddress);
      }
      var bytes := [];
      for i := 0 to length
        invariant address + i <= data.Length || i == 0
        invariant bytes == if i == 0 then [] else data[address..address + i]
      {
        if address + i >= data.Length {
          return Throw(IndexOutOfBounds);
        }
        bytes := bytes + [data[address + i]];
      }
      return Ok(bytes);
    }

    /** On a wrapped bounds test the bytes below the end of memory are already written when the store faults. */
    method Set(address: int32, value: seq<byte>) returns (r: Result<()>)
      requires Valid() && |value| < 0x8000_0000
      modifies data
      ensures InRange(old(data[..]), address, |value|) ==> r == Ok(())
      ensures r == Throw(InvalidAddress) <==> Rejected(old(data[..]), address, |value|)
      ensures r.Ok? ==> InRange(old(data[..]), address, |value|)
      ensures r.Ok? ==> data[..] == old(data[..])[..address] + value + old(data[..])[address + |value|..]
      ensures r == Throw(InvalidAddress) ==> data[..] == old(data[..])
      ensures r.Ok? || r == Throw(InvalidAddress) || r == Throw(IndexOutOfBounds)
      ensures r == Throw(IndexOutOfBounds) ==> address >= 0 && forall k :: 0 <= k < data.Length ==>
        data[k] == if k < address then old(data[k]) else value[k - address]
    {
      if Rejected(data[..], address, |value|) {
        return Throw(InvalidAddress);
      }
      for i := 0 to |value|
        invariant address + i <= data.Length || i == 0
        invariant forall k :: 0 <= k < data.Length ==>
          data[k] == if address <= k < address + i then value[k - address] else old(data[k])
      {
        if address + i >= data.Length {
          return Throw(IndexOutOfBounds);
        }
        data[address + i] := value[i];
      }
      return Ok(());
    }

    // The superclass's word accesses.

    method ReadIntegerUnaligned(address: int32) returns (r: Result<int32>)
      requires Valid()
      ensures r == ReadWordUnaligned(data[..], address)
    {
      var b :- Get(address, 4);
      r := Ok(BytesToInteger(b[0], b[1], b[2], b[3]));
    }

    method ReadInteger(address: int32) returns (r: Result<int32>)
      requires Valid()
      ensures r == ReadAligned(data[..], address)
    {
      hide BytesToInteger;
      var aligned := IsAccessAligned(address, 4);
      MultipleOfFour(address);
      if aligned != Ok(true) {
        return Throw(InvalidAddress);
      }
      var b :- Get(address, 4);
      r := Ok(BytesToInteger(b[0], b[1], b[2], b[3]));
    }

    method WriteInteger(address: int32, value: int32) returns (r: Result<()>)
      requires Valid()
      modifies data
      ensures match WriteAligned(old(data[..]), address, value)
        case Ok(m) => r == Ok(()) && data[..] == m
        case Throw(e) => r == Throw(e) && data[..] == old(data[..])
    {
      hide IntegerToBytes;
      var aligned := IsAccessAligned(address, 4);
      MultipleOfFour(address);
      if aligned != Ok(true) {
        return Throw(InvalidAddress);
      }
      r := Set(address, IntegerToBytes(value));
    }
  }

  lemma DividesIff(a: int, d: int)
    requires d != 0
    ensures a % d == 0 <==> exists q: int :: a == q * d
  {
    if a % d == 0 {
      assert a == (a / d) * d;
    } else {
      forall q: int ensures a != q * d {
        var k := a / d;
        assert a == k * d + a % d;
        if a == q * d {
          MultipleGap(q - k, d);
        }
      }
    }
  }

  lemma MultipleGap(t: int, d: int)
    requires d != 0
    ensures t * d == 0 || t * d >= (if d < 0 then 0 - d else d) || t * d <= (if d < 0 then d else 0 - d)
  {
  }

  lemma MultipleOfFour(a: int)
    ensures a % 4 == 0 <==> exists q: int :: a == q * 4
  {
    DividesIff(a, 4);
  }
}
