/** A C switch written with a jump table (a7/A7_4.c). */
module Switch {
  import opened Word

  datatype Label = L10 | L12 | L14 | L16 | L18 | DEFAULT

  const JUMPTABLE := [L10, DEFAULT, L12, DEFAULT, L14, DEFAULT, L16, DEFAULT, L18]

  /** What the switch assigns to n. */
  function Selected(i: int32, j: int32, m: int32): int32
  {
    if i == 10 then Wrap(m as int + j)
    else if i == 12 then Wrap(j as int - m)
    else if i == 14 then if Wrap(j as int - m) > 0 then 1 else 0
    else if i == 16 then if Wrap(m as int - j) > 0 then 1 else 0
    else if i == 18 then if j == m then 1 else 0
    else 0
  }

  /** Negating by 0 - x and adding is a wrapped difference. */
  lemma NegateAdd(x: int32, y: int32)
    ensures Wrap(Wrap(-(x as int)) + y) == Wrap(y as int - x)
    ensures Wrap(y as int - x) == 0 <==> x == y
  {
    WrapAdd(-(x as int), y);
  }

  /** The globals of the C program. */
  class Globals {
    var i: int32
    var j: int32
    var m: int32
    var n: int32

    constructor (i: int32, j: int32, m: int32)
      ensures this.i == i && this.j == j && this.m == m
    {
      this.i, this.j, this.m, n := i, j, m, 0;
    }

    /** Apart from n, the call changes j, and that only in case 16. */
    method FooUsingJumptable() returns (r: int32)
      modifies this`n, this`j
      ensures r == n == Selected(i, old(j), m)
      ensures j == if i == 16 then Wrap(m as int - old(j)) else old(j)
    {
      hide Wrap;
      NegateAdd(m, j);
      NegateAdd(j, m);
      var temp := m;
      var target := if i < 10 || i > 18 then DEFAULT else JUMPTABLE[i as int - 10];
      match target {
      case L10 =>
        temp := Wrap(temp as int + j);
        n := temp;
      case L12 =>
        temp := Wrap(0 - temp as int);
        temp := Wrap(temp as int + j);
        n := temp;
      case L14 =>
        temp := Wrap(0 - temp as int);
        temp := Wrap(temp as int + j);
        temp := if temp > 0 then 1 else 0;
        n := temp;
      case L16 =>
        j := Wrap(0 - j as int);
        j := Wrap(j as int + temp);
        temp := if j > 0 then 1 else 0;
        n := temp;
      case L18 =>
        temp := Wrap(0 - temp as int);
        temp := Wrap(temp as int + j);
        temp := if temp == 0 then 1 else 0;
        n := temp;
      case DEFAULT =>
        temp := 0;
        n := temp;
      }
      r := n;
    }
  }
}
