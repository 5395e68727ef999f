/** Two's-complement 32-bit words, bytes and the operators the SM213 machine applies to them. */
module Word {

  const TWO31 := 0x8000_0000
  const TWO32 := 0x1_0000_0000
  const MIN := -0x8000_0000

  type int32 = x: int | -0x8000_0000 <= x < 0x8000_0000
  type byte = x: int | 0 <= x < 256
  type sbyte = x: int | -128 <= x < 128
  type nibble = x: int | 0 <= x < 16
  type Unsigned16 = v: int | 0 <= v < 0x1_0000
  type Unsigned32 = v: int | 0 <= v < 0x1_0000_0000

  /** The word congruent to x modulo 2^32: what an int holds after any overflow. */
  function Wrap(x: int): (r: int32)
    ensures -TWO31 <= x < TWO31 ==> r == x
  {
    var m := x % TWO32;
    if m < TWO31 then m else m - TWO32
  }

  lemma WrapIs(x: int, r: int32, k: int)
    requires x == r + k * TWO32
    ensures Wrap(x) == r
  {
  }

  lemma WrapPeriod(x: int, k: int)
    ensures Wrap(x + k * TWO32) == Wrap(x)
  {
  }

  /** A sum may be reduced at any point. */
  lemma WrapAdd(x: int, y: int)
    ensures Wrap(Wrap(x) + y) == Wrap(x + y)
  {
    var k := x / TWO32 + if x % TWO32 < TWO31 then 0 else 1;
    assert Wrap(x) == x - k * TWO32;
    WrapPeriod(x + y, -k);
  }

  /** The same 32 bits read as an unsigned number. */
  function Unsigned(x: int32): (r: nat)
    ensures r < TWO32
    ensures Wrap(r) == x
  {
    if x < 0 then x + TWO32 else x
  }

  function Pow2(n: nat): (r: nat)
    ensures r > 0
  {
    if n == 0 then 1 else 2 * Pow2(n - 1)
  }

  /** Bitwise and of the low n bits. */
  function AndBits(n: nat, a: nat, b: nat): nat
  {
    if n == 0 then 0 else (a % 2) * (b % 2) + 2 * AndBits(n - 1, a / 2, b / 2)
  }

  function And(a: int32, b: int32): int32
  {
    Wrap(AndBits(32, Unsigned(a), Unsigned(b)))
  }

  function Not(a: int32): int32 { -1 - a }

  function Shl(a: int32, k: nat): int32 { Wrap(a * Pow2(k)) }

  /** Arithmetic shift right rounds toward minus infinity, as Dafny's division by a positive number does. */
  function Sar(a: int32, k: nat): (r: int32)
  {
    QuotientFits(a, Pow2(k));
    a / Pow2(k)
  }

  lemma QuotientFits(a: int32, p: int)
    requires p > 0
    ensures -TWO31 <= a / p < TWO31
  {
    var q := a / p;
    assert q * p <= a < q * p + p;
    Magnitude(q, p);
  }

  lemma {:induction false} Magnitude(q: int, p: int)
    requires p > 0
    ensures q >= 0 ==> q * p >= q
    ensures q < 0 ==> q * p + p <= q + 1
    decreases p
  {
    if p > 1 {
      Magnitude(q, p - 1);
      assert q * p == q * (p - 1) + q;
    }
  }

  /** The number of one bits among the low n bits. */
  function Ones(n: nat, u: nat): (r: nat)
    ensures r <= n
  {
    if n == 0 then 0 else u % 2 + Ones(n - 1, u / 2)
  }

  function PopCount(a: int32): nat
  {
    Ones(32, Unsigned(a))
  }

  // ---------------------------------------------------------------- arithmetic of bits

  lemma Pow2At32()
    ensures Pow2(31) == TWO31 && Pow2(32) == TWO32
  {
    assert Pow2(4) == 16;
    assert Pow2(8) == 0x100;
    assert Pow2(12) == 0x1000;
    assert Pow2(16) == 0x1_0000;
    assert Pow2(20) == 0x10_0000;
    assert Pow2(24) == 0x100_0000;
    assert Pow2(28) == 0x1000_0000;
  }

  /** And with the top bit alone keeps exactly that bit. */
  lemma {:induction false} AndBitsTop(n: nat, a: nat)
    requires a < Pow2(n + 1)
    ensures AndBits(n + 1, a, Pow2(n)) == if a < Pow2(n) then 0 else Pow2(n)
  {
    if n == 0 {
      assert AndBits(1, a, 1) == (a % 2) * 1 + 2 * AndBits(0, a / 2, 0);
    } else {
      var p := Pow2(n - 1);
      assert Pow2(n) == 2 * p && Pow2(n + 1) == 4 * p;
      AndBitsTop(n - 1, a / 2);
    }
  }

  /** The sign test of f (a6/A6-3b.c:11): a & 0x80000000 is zero exactly for a non-negative a. */
  lemma AndSign(a: int32)
    ensures And(MIN, a) == And(a, MIN) == if a < 0 then MIN else 0
  {
    Pow2At32();
    AndBitsTop(31, Unsigned(a));
    AndBitsCommutes(32, Unsigned(a), TWO31);
  }

  lemma {:induction false} AndBitsCommutes(n: nat, a: nat, b: nat)
    ensures AndBits(n, a, b) == AndBits(n, b, a)
  {
    if n > 0 {
      AndBitsCommutes(n - 1, a / 2, b / 2);
    }
  }

  lemma {:induction false} OnesZero(n: nat)
    ensures Ones(n, 0) == 0
  {
    if n > 0 {
      OnesZero(n - 1);
    }
  }

  /** Ones may equally be counted from the top bit down, which is the order in which f shifts them out. */
  lemma {:induction false} OnesFromTop(n: nat, u: nat)
    requires u < Pow2(n + 1)
    ensures u < Pow2(n) ==> Ones(n + 1, u) == Ones(n, u)
    ensures u >= Pow2(n) ==> Ones(n + 1, u) == 1 + Ones(n, u - Pow2(n))
  {
    if n > 0 {
      var p := Pow2(n - 1);
      assert Pow2(n) == 2 * p && Pow2(n + 1) == 4 * p;
      OnesFromTop(n - 1, u / 2);
      if u >= 2 * p {
        assert (u - 2 * p) / 2 == u / 2 - p && (u - 2 * p) % 2 == u % 2;
      }
    } else {
      assert Ones(1, u) == u % 2 + Ones(0, u / 2);
    }
  }
}
