/** Counting the one bits of a word by shifting it left, as the C program does (a6/A6-3b.c). */
module BitCount {
  import opened Word

  /** The word in r1 (a in C) after 32 - w shifts: the low w bits v of the argument, moved to the top. */
  function Shifted(w: nat, v: nat): int32
    requires w <= 32
  {
    Wrap(v * Pow2(32 - w))
  }

  lemma {:induction false} PowSum(a: nat, b: nat)
    ensures Pow2(a) * Pow2(b) == Pow2(a + b)
  {
    if a > 0 {
      PowSum(a - 1, b);
    }
  }

  lemma TopHalf(p: nat, q: nat, v: nat)
    requires p * q == TWO31 && v < 2 * p && q > 0
    ensures v * q < TWO32
    ensures v >= p <==> v * q >= TWO31
    ensures v * (2 * q) == 2 * (v * q)
    ensures (v - p) * (2 * q) == 2 * (v * q) - TWO32
  {
    assert v * q <= (2 * p - 1) * q;
    if v >= p {
      assert v * q >= p * q;
    } else {
      assert v * q <= (p - 1) * q;
    }
  }

  lemma WrapDouble(u: nat)
    requires u < TWO32
    ensures Wrap(Wrap(u) * 2) == Wrap(2 * u) == Wrap(2 * u - TWO32)
    ensures Wrap(u) < 0 <==> u >= TWO31
  {
    hide Wrap;
    if u < TWO31 {
      WrapIs(u, u, 0);
      WrapIs(2 * u - TWO32, 2 * u - (if u < TWO31 / 2 then 0 else TWO32), if u < TWO31 / 2 then -1 else 0);
      WrapIs(2 * u, 2 * u - (if u < TWO31 / 2 then 0 else TWO32), if u < TWO31 / 2 then 0 else 1);
    } else {
      WrapIs(u, u - TWO32, 1);
      var k := if u < TWO31 + TWO31 / 2 then 1 else 2;
      WrapIs(2 * u, 2 * u - k * TWO32, k);
      WrapIs(2 * u - TWO32, 2 * u - k * TWO32, k - 1);
      WrapIs(2 * (u - TWO32), 2 * u - k * TWO32, k - 2);
    }
  }

  function Rest(w: nat, v: nat): nat
  {
    if v >= Pow2(w) then v - Pow2(w) else v
  }

  /** The sign bit is the top one of the w + 1 bits left, and one more shift drops it. */
  lemma ShiftedTop(w: nat, v: nat)
    requires w < 32 && v < Pow2(w + 1)
    ensures Shifted(w + 1, v) < 0 <==> v >= Pow2(w)
    ensures Shl(Shifted(w + 1, v), 1) == Shifted(w, Rest(w, v))
  {
    hide Wrap;
    PowSum(w, 31 - w);
    Pow2At32();
    var p, q := Pow2(w), Pow2(31 - w);
    TopHalf(p, q, v);
    WrapDouble(v * q);
    assert Pow2(1) == 2 * Pow2(0) == 2;
    assert Pow2(32 - w) == 2 * q;
  }

  lemma ShiftedZero(w: nat, v: nat)
    requires w <= 32 && v < Pow2(w)
    ensures Shifted(w, v) == 0 <==> v == 0
  {
    hide Wrap, Pow2;
    var q := Pow2(32 - w);
    assert Pow2(w) * q == TWO32 by {
      PowSum(w, 32 - w);
      Pow2At32();
    }
    SmallProduct(Pow2(w), q, v);
    WrapZero(v * q);
  }

  lemma WrapZero(u: nat)
    requires u < TWO32
    ensures Wrap(u) == 0 <==> u == 0
  {
  }

  lemma SmallProduct(p: nat, q: nat, v: nat)
    requires p * q == TWO32 && v < p
    ensures v * q < TWO32
    ensures v * q == 0 <==> v == 0
  {
    assert v * q <= (p - 1) * q;
    assert v > 0 ==> v * q >= q;
  }

  lemma ShiftedWhole(a: int32)
    ensures Unsigned(a) < Pow2(32) && Shifted(32, Unsigned(a)) == a
  {
    Pow2At32();
    assert Pow2(0) == 1;
  }

  method F(a0: int32) returns (count: int)
    ensures count == PopCount(a0)
  {
    var a := a0;
    count := 0;
    ghost var w: nat, v: nat := 32, Unsigned(a0);
    ShiftedWhole(a0);
    while a != 0
      invariant w <= 32 && v < Pow2(w) && a == Shifted(w, v)
      invariant count + Ones(w, v) == PopCount(a0)
      decreases w
    {
      hide Shifted, PopCount, Shl, And;
      ShiftedZero(w, v);
      w := w - 1;
      ShiftedTop(w, v);
      OnesFromTop(w, v);
      AndSign(a);
      if And(a, MIN) != 0 {
        count := count + 1;
      }
      v := Rest(w, v);
      a := Shl(a, 1);
    }
    ShiftedZero(w, v);
    OnesZero(w);
  }

  method CountAll(x: seq<int32>, y: array<int>)
    requires y.Length == |x|
    modifies y
    ensures forall k :: 0 <= k < |x| ==> y[k] == PopCount(x[k])
  {
    for i := |x| downto 0
      invariant forall k :: i <= k < |x| ==> y[k] == PopCount(x[k])
    {
      y[i] := F(x[i]);
    }
  }
}
