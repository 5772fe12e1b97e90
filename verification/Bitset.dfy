/**
 Sets of up to 64 nodes encoded in one unsigned 64-bit word, as the connected-subgraph counter
 does. A word is a number below 2^64; the bitwise operators are defined bit by bit. `Members` is
 the abstraction function, and every operation the counter uses is related to the set operation
 it stands for.
 */
module Bitset {

  const TWO_TO_64: nat := 0x1_0000_0000_0000_0000

  type Word = x: nat | x < TWO_TO_64

  /** The bit test `x & (1ULL << i)`. */
  predicate Bit(x: nat, i: nat) {
    if i == 0 then x % 2 == 1 else Bit(x / 2, i - 1)
  }

  /** The shift `1ULL << i`. */
  function Shift(i: nat): (p: nat)
    ensures p > 0
  {
    if i == 0 then 1 else 2 * Shift(i - 1)
  }

  /** Bitwise or. */
  function Or(x: nat, y: nat): nat
    decreases x + y
  {
    if x == 0 && y == 0 then 0
    else (if x % 2 == 1 || y % 2 == 1 then 1 else 0) + 2 * Or(x / 2, y / 2)
  }

  /** Bitwise `x & ~y`. */
  function AndNot(x: nat, y: nat): nat
    decreases x
  {
    if x == 0 then 0
    else (if x % 2 == 1 && y % 2 == 0 then 1 else 0) + 2 * AndNot(x / 2, y / 2)
  }

  ghost function Members(x: nat): set<nat> {
    set i | 0 <= i < 64 && Bit(x, i)
  }

  ghost predicate LessThan(i: int, n: nat) {
    0 <= i < n
  }

  /** The nodes `0 .. n-1`. */
  ghost function Below(n: nat): set<nat> {
    set i: nat | i < n && LessThan(i, n)
  }

  lemma {:induction false} BelowSize(n: nat)
    ensures |Below(n)| == n
  {
    if n == 0 {
      assert Below(0) == {};
    } else {
      BelowSize(n - 1);
      assert Below(n) == Below(n - 1) + {n - 1};
    }
  }

  // ---- Single bits ------------------------------------------------------------------------

  lemma {:induction false} BitZero(i: nat)
    ensures !Bit(0, i)
  {
    if i > 0 {
      BitZero(i - 1);
    }
  }

  lemma {:induction false} BitOr(x: nat, y: nat, i: nat)
    ensures Bit(Or(x, y), i) <==> Bit(x, i) || Bit(y, i)
    decreases i
  {
    if x == 0 && y == 0 {
      BitZero(i);
    } else if i > 0 {
      BitOr(x / 2, y / 2, i - 1);
    }
  }

  lemma {:induction false} BitAndNot(x: nat, y: nat, i: nat)
    ensures Bit(AndNot(x, y), i) <==> Bit(x, i) && !Bit(y, i)
    decreases i
  {
    if x == 0 {
      BitZero(i);
    } else if i > 0 {
      BitAndNot(x / 2, y / 2, i - 1);
    }
  }

  lemma {:induction false} BitShift(i: nat, j: nat)
    ensures Bit(Shift(i), j) <==> i == j
    decreases j
  {
    if i == 0 && j > 0 {
      BitZero(j - 1);
    } else if i > 0 && j > 0 {
      BitShift(i - 1, j - 1);
    }
  }

  lemma {:induction false} BitLower(i: nat, j: nat)
    ensures Bit(Shift(i) - 1, j) <==> j < i
    decreases j
  {
    if i == 0 {
      BitZero(j);
    } else if j > 0 {
      assert (Shift(i) - 1) / 2 == Shift(i - 1) - 1;
      BitLower(i - 1, j - 1);
    }
  }

  /** A number below `1 << k` has no bit from `k` upwards. */
  lemma {:induction false} BitBound(x: nat, k: nat, i: nat)
    requires x < Shift(k) && k <= i
    ensures !Bit(x, i)
    decreases i
  {
    if k == 0 {
      BitZero(i);
    } else {
      BitBound(x / 2, k - 1, i - 1);
    }
  }

  /** Numbers below `1 << k` that agree on their first `k` bits are equal. */
  lemma {:induction false} SameBits(x: nat, y: nat, k: nat)
    requires x < Shift(k) && y < Shift(k)
    requires forall i | 0 <= i < k :: Bit(x, i) == Bit(y, i)
    ensures x == y
    decreases k
  {
    if k > 0 {
      assert Bit(x, 0) == Bit(y, 0);
      forall i | 0 <= i < k - 1
        ensures Bit(x / 2, i) == Bit(y / 2, i)
      {
        assert Bit(x, i + 1) == Bit(y, i + 1);
      }
      SameBits(x / 2, y / 2, k - 1);
    }
  }

  // ---- Ranges -----------------------------------------------------------------------------

  lemma {:induction false} ShiftMonotone(i: nat, j: nat)
    requires i <= j
    ensures Shift(i) <= Shift(j)
    decreases j
  {
    if i < j {
      ShiftMonotone(i, j - 1);
    }
  }

  lemma Shift64()
    ensures Shift(64) == TWO_TO_64
  {
    assert Shift(4) == 16;
    ShiftSum(4, 4);
    ShiftSum(8, 8);
    ShiftSum(16, 16);
    ShiftSum(32, 32);
  }

  lemma {:induction false} ShiftSum(i: nat, j: nat)
    ensures Shift(i + j) == Shift(i) * Shift(j)
    decreases j
  {
    if j > 0 {
      ShiftSum(i, j - 1);
      assert Shift(i) * Shift(j) == 2 * (Shift(i) * Shift(j - 1));
    }
  }

  lemma ShiftIsWord(i: nat)
    requires i < 64
    ensures Shift(i) < TWO_TO_64
  {
    ShiftMonotone(i + 1, 64);
    Shift64();
  }

  lemma {:induction false} OrBound(x: nat, y: nat, k: nat)
    requires x < Shift(k) && y < Shift(k)
    ensures Or(x, y) < Shift(k)
    decreases k
  {
    if k > 0 {
      OrBound(x / 2, y / 2, k - 1);
    }
  }

  lemma {:induction false} AndNotBound(x: nat, y: nat)
    ensures AndNot(x, y) <= x
    decreases x
  {
    if x != 0 {
      AndNotBound(x / 2, y / 2);
    }
  }

  lemma OrIsWord(x: Word, y: Word)
    ensures Or(x, y) < TWO_TO_64
  {
    Shift64();
    OrBound(x, y, 64);
  }

  // ---- Words as sets ------------------------------------------------------------------------

  lemma MembersZero()
    ensures Members(0) == {}
  {
    forall i | 0 <= i < 64
      ensures !Bit(0, i)
    {
      BitZero(i);
    }
  }

  lemma MembersOr(x: Word, y: Word)
    ensures Members(Or(x, y)) == Members(x) + Members(y)
  {
    forall i | 0 <= i < 64
      ensures Bit(Or(x, y), i) == (Bit(x, i) || Bit(y, i))
    {
      BitOr(x, y, i);
    }
  }

  lemma MembersAndNot(x: Word, y: Word)
    ensures Members(AndNot(x, y)) == Members(x) - Members(y)
  {
    forall i | 0 <= i < 64
      ensures Bit(AndNot(x, y), i) == (Bit(x, i) && !Bit(y, i))
    {
      BitAndNot(x, y, i);
    }
  }

  lemma MembersShift(n: nat)
    requires n < 64
    ensures Members(Shift(n)) == {n}
  {
    forall i | 0 <= i < 64
      ensures Bit(Shift(n), i) == (n == i)
    {
      BitShift(n, i);
    }
  }

  lemma MembersLower(n: nat)
    requires n <= 64
    ensures Members(Shift(n) - 1) == Below(n)
  {
    forall i: nat
      ensures i in Members(Shift(n) - 1) <==> i in Below(n)
    {
      BitLower(n, i);
    }
  }
}
