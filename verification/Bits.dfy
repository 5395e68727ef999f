/** What the word operators do to each bit of their operands. */
module Bits {
  import opened Word
  import opened Isa

  /** Bit k of x in two's complement: the division rounds down, so the bits of a negative number go on as ones. */
  function Bit(x: int, k: nat): (b: int)
    ensures 0 <= b <= 1
  {
    (x / Pow2(k)) % 2
  }

  lemma DivUnique(x: int, p: int, q: int)
    requires p > 0 && q * p <= x < q * p + p
    ensures x / p == q
  {
    var d := x / p;
    assert d * p <= x < d * p + p;
    assert (q - d) * p == q * p - d * p;
    LessThanOne(q - d, p);
  }

  lemma LessThanOne(t: int, p: int)
    requires p > 0
    ensures t >= 1 ==> t * p >= p
    ensures t <= -1 ==> t * p <= -p
  {
  }

  lemma DivTwice(x: int, p: int)
    requires p > 0
    ensures x / (2 * p) == (x / 2) / p
  {
    var q := (x / 2) / p;
    assert q * p <= x / 2 < q * p + p;
    assert q * (2 * p) == 2 * (q * p);
    DivUnique(x, 2 * p, q);
  }

  lemma BitZero(x: int)
    ensures Bit(x, 0) == x % 2
  {
    assert Pow2(0) == 1;
  }

  lemma BitHalf(x: int, k: nat)
    requires k > 0
    ensures Bit(x, k) == Bit(x / 2, k - 1)
  {
    DivTwice(x, Pow2(k - 1));
  }

  function Multiple(m: int, n: nat): int { m * Pow2(n) }

  lemma MultipleHalf(m: int, n: nat)
    requires n > 0
    ensures Multiple(m, n) == 2 * Multiple(m, n - 1)
  {
    TimesTwo(m, Pow2(n - 1));
  }

  lemma TimesTwo(m: int, p: int)
    ensures m * (2 * p) == 2 * (m * p)
  {
  }

  /** The low n bits do not see multiples of 2^n. */
  lemma {:induction false} BitPeriod(n: nat, x: int, m: int, k: nat)
    requires k < n
    ensures Bit(x + Multiple(m, n), k) == Bit(x, k)
  {
    hide Bit, Multiple;
    MultipleHalf(m, n);
    HalfPlus(x, Multiple(m, n - 1));
    if k == 0 {
      BitZero(x);
      BitZero(x + Multiple(m, n));
    } else {
      BitHalf(x, k);
      BitHalf(x + Multiple(m, n), k);
      BitPeriod(n - 1, x / 2, m, k - 1);
    }
  }

  lemma HalfPlus(x: int, z: int)
    ensures (x + 2 * z) / 2 == x / 2 + z && (x + 2 * z) % 2 == x % 2
  {
  }

  /** A word has the bits of the number it is reduced from, and of its unsigned reading. */
  lemma WordBit(x: int, k: nat)
    requires k < 32
    ensures Bit(Wrap(x), k) == Bit(x, k)
    ensures forall a: int32 :: a == x ==> Bit(Unsigned(a), k) == Bit(a, k)
  {
    Pow2At32();
    var r := Wrap(x);
    var m := x / TWO32 + if x % TWO32 < TWO31 then 0 else 1;
    assert x == r + m * TWO32;
    BitPeriod(32, r, m, k);
    BitPeriod(32, x, 1, k);
  }

  lemma AndBitsHalf(n: nat, a: nat, b: nat)
    requires n > 0
    ensures AndBits(n, a, b) / 2 == AndBits(n - 1, a / 2, b / 2)
    ensures AndBits(n, a, b) % 2 == (a % 2) * (b % 2)
  {
    var low := (a % 2) * (b % 2);
    assert low == if a % 2 == 1 && b % 2 == 1 then 1 else 0;
  }

  lemma {:induction false} AndBitsBit(n: nat, a: nat, b: nat, k: nat)
    requires k < n
    ensures Bit(AndBits(n, a, b), k) == Bit(a, k) * Bit(b, k)
  {
    var r := AndBits(n, a, b);
    AndBitsHalf(n, a, b);
    hide Bit, AndBits;
    if k == 0 {
      BitZero(a);
      BitZero(b);
      BitZero(r);
    } else {
      BitHalf(a, k);
      BitHalf(b, k);
      BitHalf(r, k);
      AndBitsBit(n - 1, a / 2, b / 2, k - 1);
    }
  }

  /** A bit of a & b is one exactly when it is in both. */
  lemma AndBit(a: int32, b: int32, k: nat)
    requires k < 32
    ensures Bit(And(a, b), k) == 1 <==> Bit(a, k) == 1 && Bit(b, k) == 1
    ensures Bit(Unsigned(And(a, b)), k) == 1 <==> Bit(Unsigned(a), k) == 1 && Bit(Unsigned(b), k) == 1
  {
    AndBitsBit(32, Unsigned(a), Unsigned(b), k);
    WordBit(AndBits(32, Unsigned(a), Unsigned(b)), k);
    WordBit(a, k);
    WordBit(b, k);
    WordBit(And(a, b), k);
  }

  /** ~a has the other bits. */
  lemma NotBit(a: int32, k: nat)
    ensures Bit(Not(a), k) == 1 - Bit(a, k)
  {
    var p := Pow2(k);
    var q := a / p;
    assert q * p <= a < q * p + p;
    assert (-1 - q) * p == -p - q * p;
    DivUnique(Not(a), p, -1 - q);
  }

  lemma {:induction false} TimesBit(x: int, n: nat, k: nat)
    ensures Bit(Multiple(x, n), k) == if k < n then 0 else Bit(x, k - n)
  {
    if n == 0 {
      assert Multiple(x, 0) == x;
    } else {
      hide Bit, Multiple;
      var y := Multiple(x, n - 1);
      MultipleHalf(x, n);
      HalfPlus(0, y);
      if k == 0 {
        BitZero(2 * y);
      } else {
        BitHalf(2 * y, k);
        TimesBit(x, n - 1, k - 1);
      }
    }
  }

  /** a << n moves every bit up n places and fills with zeros, for any n. */
  lemma ShlBit(a: int32, n: nat, k: nat)
    requires k < 32
    ensures Bit(Shl(a, n), k) == if k < n then 0 else Bit(a, k - n)
  {
    TimesBit(a, n, k);
    WordBit(a * Pow2(n), k);
  }

  lemma {:induction false} QuotientBit(x: int, n: nat, k: nat)
    ensures Bit(x / Pow2(n), k) == Bit(x, k + n)
    decreases n
  {
    if n == 0 {
      assert x / Pow2(0) == x;
    } else {
      DivTwice(x, Pow2(n - 1));
      QuotientBit(x / 2, n - 1, k);
      BitHalf(x, k + n);
    }
  }

  /** The bits of a word from the top one on are its sign. */
  lemma SignBit(a: int32, k: nat)
    requires k >= 31
    ensures Bit(a, k) == if a < 0 then 1 else 0
  {
    Pow2Grows(31, k);
    Pow2At32();
    DivUnique(a, Pow2(k), if a < 0 then -1 else 0);
  }

  lemma {:induction false} Pow2Grows(n: nat, k: nat)
    requires n <= k
    ensures Pow2(n) <= Pow2(k)
  {
    if n < k {
      Pow2Grows(n, k - 1);
    }
  }

  /** a >> n moves every bit down n places and fills with the sign, for any n. */
  lemma SarBit(a: int32, n: nat, k: nat)
    ensures Bit(Sar(a, n), k) == if k + n < 32 then Bit(a, k + n) else Bit(a, 31)
  {
    QuotientBit(a, n, k);
    if k + n >= 32 {
      SignBit(a, k + n);
      SignBit(a, 31);
    }
  }

  // ---------------------------------------------------------------- the number of ones

  ghost function OneBits(n: nat, u: int): set<nat>
  {
    set k: nat | k < n && Bit(u, k) == 1
  }

  lemma {:induction false} OnesNext(n: nat, u: nat)
    ensures Ones(n + 1, u) == Ones(n, u) + Bit(u, n)
  {
    if n == 0 {
      BitZero(u);
      assert Ones(1, u) == u % 2 + Ones(0, u / 2);
    } else {
      OnesNext(n - 1, u / 2);
      BitHalf(u, n);
    }
  }

  lemma OneBitsNext(n: nat, u: int)
    ensures OneBits(n + 1, u) == OneBits(n, u) + if Bit(u, n) == 1 then {n} else {}
    ensures |OneBits(n + 1, u)| == |OneBits(n, u)| + Bit(u, n)
  {
    hide Bit;
    assert n !in OneBits(n, u);
    assert OneBits(n + 1, u) == OneBits(n, u) + if Bit(u, n) == 1 then {n} else {};
  }

  lemma {:induction false} OnesAreBits(n: nat, u: nat)
    ensures Ones(n, u) == |OneBits(n, u)|
  {
    if n > 0 {
      hide Bit, OneBits;
      OnesAreBits(n - 1, u);
      OnesNext(n - 1, u);
      OneBitsNext(n - 1, u);
    }
  }

  /** What the bit-counting programs compute is the number of places at which the word has a one. */
  lemma PopCountIsBits(a: int32)
    ensures PopCount(a) == |OneBits(32, a)|
  {
    OnesAreBits(32, Unsigned(a));
    forall k: nat | k < 32 ensures Bit(Unsigned(a), k) == Bit(a, k) {
      WordBit(a, k);
    }
    assert OneBits(32, Unsigned(a)) == OneBits(32, a);
  }

  // ---------------------------------------------------------------- shift amounts and scaled addresses

  lemma {:induction false} AndBitsZero(n: nat, a: nat)
    ensures AndBits(n, a, 0) == 0
  {
    if n > 0 {
      AndBitsZero(n - 1, a / 2);
    }
  }

  lemma AllOnesHalf(n: nat, a: nat, p: nat)
    requires n > 0 && p > 0
    ensures AndBits(n, a, 2 * p - 1) == a % 2 + 2 * AndBits(n - 1, a / 2, p - 1)
  {
    assert (2 * p - 1) / 2 == p - 1 && (2 * p - 1) % 2 == 1;
  }

  /** And with 31 keeps the low five bits. */
  lemma LowFive(a: nat)
    ensures AndBits(32, a, 31) == a % 32
  {
    hide AndBits;
    AllOnesHalf(32, a, 16);
    AllOnesHalf(31, a / 2, 8);
    AllOnesHalf(30, a / 2 / 2, 4);
    AllOnesHalf(29, a / 2 / 2 / 2, 2);
    AllOnesHalf(28, a / 2 / 2 / 2 / 2, 1);
    AndBitsZero(27, a / 2 / 2 / 2 / 2 / 2);
  }

  /** The processor shifts left for a positive immediate and right for any other, by the low five bits of its magnitude. */
  lemma ShiftAmount(v: int32, imm: sbyte)
    ensures var n := And(if imm > 0 then imm else 0 - imm, 31);
      n >= 0 && Shift(v, imm) == if imm > 0 then Shl(v, n) else Sar(v, n)
  {
    var x: int32 := if imm > 0 then imm else 0 - imm;
    LowFive(x);
    assert And(x, 31) == x % 32;
  }

  /** An indexed address is the base plus four times the index, wrapped. */
  lemma ScaledIs(base: int32, index: int32)
    ensures Scaled(base, index) == Wrap(base + 4 * index)
  {
    hide Wrap;
    assert Pow2(2) == 2 * Pow2(1) == 4;
    WrapAdd(index * 4, base);
  }
}
