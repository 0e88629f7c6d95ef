/** Bit masks as natural numbers. */
module Bits {

  predicate BitAt(x: nat, j: nat) {
    if j == 0 then x % 2 == 1 else BitAt(x / 2, j - 1)
  }

  function Pow2(n: nat): (r: nat)
    ensures r > 0
  {
    if n == 0 then 1 else 2 * Pow2(n - 1)
  }

  /** Bitwise or. */
  function Or(x: nat, y: nat): nat
    decreases x + y
  {
    if x == 0 then y
    else if y == 0 then x
    else (if x % 2 == 1 || y % 2 == 1 then 1 else 0) + 2 * Or(x / 2, y / 2)
  }

  lemma {:induction false} ZeroHasNoBits(j: nat)
    ensures !BitAt(0, j)
  {
    if j == 0 {
    } else {
      ZeroHasNoBits(j - 1);
    }
  }

  lemma {:induction false} Pow2HasOneBit(i: nat, j: nat)
    ensures BitAt(Pow2(i), j) <==> i == j
  {
    if i > 0 && j > 0 {
      assert Pow2(i) / 2 == Pow2(i - 1);
      Pow2HasOneBit(i - 1, j - 1);
    } else if j > 0 {
      ZeroHasNoBits(j - 1);
    }
  }

  lemma OrHalves(x: nat, y: nat)
    requires x > 0 && y > 0
    ensures Or(x, y) / 2 == Or(x / 2, y / 2)
  {
  }

  lemma {:induction false} OrIsUnion(x: nat, y: nat, j: nat)
    ensures BitAt(Or(x, y), j) <==> BitAt(x, j) || BitAt(y, j)
    decreases j
  {
    if x == 0 || y == 0 {
      ZeroHasNoBits(j);
    } else if j > 0 {
      OrHalves(x, y);
      OrIsUnion(x / 2, y / 2, j - 1);
    }
  }

  lemma {:induction false} OrFits(x: nat, y: nat, n: nat)
    requires x < Pow2(n) && y < Pow2(n)
    ensures Or(x, y) < Pow2(n)
    decreases n
  {
    if x != 0 && y != 0 && n > 0 {
      OrFits(x / 2, y / 2, n - 1);
    }
  }

  lemma {:induction false} Pow2Grows(i: nat, n: nat)
    requires i < n
    ensures Pow2(i) < Pow2(n)
  {
    if i > 0 {
      Pow2Grows(i - 1, n - 1);
    } else if n > 1 {
      Pow2Grows(0, n - 1);
    }
  }
}
