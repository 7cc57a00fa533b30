/** The bit arithmetic C++ does on the int that packs a multi-selection, on mathematical integers. */
module Bits {
  /** 1 << i */
  function Shift(i: nat): (mask: nat)
    ensures mask > 0
  {
    if i == 0 then 1 else 2 * Shift(i - 1)
  }

  /** Bit i of the two's complement representation of n. */
  predicate Bit(n: int, i: nat)
    decreases i
  {
    if i == 0 then n % 2 == 1 else Bit(n / 2, i - 1)
  }

  /** n | m */
  function Or(n: nat, m: nat): nat
    decreases n + m
  {
    if n + m == 0 then 0 else (if n % 2 == 1 || m % 2 == 1 then 1 else 0) + 2 * Or(n / 2, m / 2)
  }

  /** n & m */
  function And(n: nat, m: nat): nat {
    if n == 0 then 0 else (if n % 2 == 1 && m % 2 == 1 then 1 else 0) + 2 * And(n / 2, m / 2)
  }

  /** n & ~m */
  function AndNot(n: nat, m: nat): nat {
    if n == 0 then 0 else (if n % 2 == 1 && m % 2 == 0 then 1 else 0) + 2 * AndNot(n / 2, m / 2)
  }

  /** The casts between int and ULONG. */
  function ToUlong(n: int): nat {
    n % 0x1_0000_0000
  }

  function ToInt(n: nat): int {
    var low := n % 0x1_0000_0000;
    if low < 0x8000_0000 then low else low - 0x1_0000_0000
  }

  lemma {:induction false} ShiftMonotone(i: nat, j: nat)
    requires i <= j
    ensures Shift(i) <= Shift(j)
  {
    if i < j {
      ShiftMonotone(i, j - 1);
    }
  }

  lemma {:induction false} BitOfZero(i: nat)
    ensures !Bit(0, i)
  {
    if i > 0 {
      BitOfZero(i - 1);
    }
  }

  lemma {:induction false} BitOfShift(k: nat, i: nat)
    ensures Bit(Shift(k), i) <==> i == k
  {
    if k == 0 {
      if i > 0 {
        BitOfZero(i - 1);
      }
    } else if i > 0 {
      BitOfShift(k - 1, i - 1);
    }
  }

  lemma {:induction false} BitOfOr(n: nat, m: nat, i: nat)
    ensures Bit(Or(n, m), i) <==> Bit(n, i) || Bit(m, i)
    decreases i
  {
    if n + m == 0 {
      BitOfZero(i);
    } else if i > 0 {
      BitOfOr(n / 2, m / 2, i - 1);
    }
  }

  lemma {:induction false} BitOfAndNot(n: nat, m: nat, i: nat)
    ensures Bit(AndNot(n, m), i) <==> Bit(n, i) && !Bit(m, i)
    decreases i
  {
    if n == 0 {
      BitOfZero(i);
    } else if i > 0 {
      BitOfAndNot(n / 2, m / 2, i - 1);
    }
  }

  /** Masking with one bit is a test, in both forms the source uses. */
  lemma {:induction false} AndShift(n: nat, k: nat)
    ensures And(n, Shift(k)) == (if Bit(n, k) then Shift(k) else 0)
    decreases k
  {
    if k == 0 {
      AndEven(n / 2);
      if n != 0 {
        assert And(n, 1) == (if n % 2 == 1 then 1 else 0) + 2 * And(n / 2, 0);
      }
    } else if n == 0 {
      BitOfZero(k);
    } else {
      AndShift(n / 2, k - 1);
    }
  }

  lemma {:induction false} AndEven(n: nat)
    ensures And(n, 0) == 0
  {
    if n != 0 {
      AndEven(n / 2);
    }
  }

  lemma {:induction false} OrBelow(n: nat, m: nat, w: nat)
    requires n < Shift(w) && m < Shift(w)
    ensures Or(n, m) < Shift(w)
    decreases w
  {
    if w > 0 && n + m > 0 {
      OrBelow(n / 2, m / 2, w - 1);
    }
  }

  lemma {:induction false} AndNotBelow(n: nat, m: nat)
    ensures AndNot(n, m) <= n
  {
    if n > 0 {
      AndNotBelow(n / 2, m / 2);
    }
  }

  lemma {:induction false} ShiftBelow(k: nat, w: nat)
    requires k < w
    ensures Shift(k) < Shift(w)
  {
    ShiftMonotone(k + 1, w);
  }

  /** A positive number of w bits has a bit set below w. */
  lemma {:induction false} LowestBit(n: nat, w: nat) returns (i: nat)
    requires 0 < n < Shift(w)
    ensures i < w && Bit(n, i)
    decreases n
  {
    if n % 2 == 1 {
      i := 0;
    } else {
      var k := LowestBit(n / 2, w - 1);
      i := k + 1;
    }
  }

  lemma {:induction false} BitBelow(n: nat, w: nat, i: nat)
    requires n < Shift(w) && Bit(n, i)
    ensures i < w
    decreases i
  {
    if w == 0 {
      BitOfZero(i);
    } else if i > 0 {
      BitBelow(n / 2, w - 1, i - 1);
    }
  }

  lemma Shift31()
    ensures Shift(31) == 0x8000_0000
  {
    assert Shift(4) == 16;
    assert Shift(8) == 256;
    assert Shift(12) == 0x1000;
    assert Shift(16) == 0x1_0000;
    assert Shift(20) == 0x10_0000;
    assert Shift(24) == 0x100_0000;
    assert Shift(28) == 0x1000_0000;
  }

  lemma SmallCasts(n: nat)
    requires n < 0x8000_0000
    ensures ToUlong(n) == n && ToInt(n) == n
  {
  }

  lemma SignBit(n: nat)
    requires 0x8000_0000 <= n < 0x1_0000_0000
    ensures ToInt(n) < 0
  {
  }

  /** Setting bit 31 of a 31-bit number. */
  lemma OrTopBit(n: nat, i: nat)
    requires i == 31 && n < 0x8000_0000
    ensures 0x8000_0000 <= Or(n, Shift(i)) < 0x1_0000_0000
  {
    Shift31();
    OrSets(n, i);
    assert Shift(i + 1) == 0x1_0000_0000;
    OrBelow(n, Shift(i), i + 1);
  }

  lemma {:induction false} OrSets(n: nat, k: nat)
    ensures Or(n, Shift(k)) >= Shift(k)
    decreases k
  {
    if k > 0 {
      OrSets(n / 2, k - 1);
    }
  }

  // ------------------------------------------------------------------ one bit of a mask of w bits

  lemma SetsBit(selected: nat, i: nat)
    ensures Or(selected, Shift(i)) > 0
    ensures forall k: nat :: Bit(Or(selected, Shift(i)), k) <==> Bit(selected, k) || k == i
  {
    forall k: nat
      ensures Bit(Or(selected, Shift(i)), k) <==> Bit(selected, k) || k == i
    {
      BitOfOr(selected, Shift(i), k);
      BitOfShift(i, k);
    }
    BitOfZero(i);
  }

  lemma ClearsBit(selected: nat, i: nat)
    ensures forall k: nat :: Bit(AndNot(selected, Shift(i)), k) <==> Bit(selected, k) && k != i
  {
    forall k: nat
      ensures Bit(AndNot(selected, Shift(i)), k) <==> Bit(selected, k) && k != i
    {
      BitOfAndNot(selected, Shift(i), k);
      BitOfShift(i, k);
    }
  }

  lemma InsertBit(selected: nat, i: nat, w: nat)
    requires i < w <= 31 && selected < Shift(w)
    ensures 0 < Or(selected, Shift(i)) < Shift(w)
    ensures forall k: nat :: Bit(Or(selected, Shift(i)), k) <==> Bit(selected, k) || k == i
  {
    ShiftBelow(i, w);
    OrBelow(selected, Shift(i), w);
    SetsBit(selected, i);
  }

  lemma RemoveBit(selected: nat, i: nat, w: nat)
    requires i < w <= 31 && selected < Shift(w)
    ensures AndNot(selected, Shift(i)) < Shift(w)
    ensures forall k: nat :: Bit(AndNot(selected, Shift(i)), k) <==> Bit(selected, k) && k != i
  {
    AndNotBelow(selected, Shift(i));
    ClearsBit(selected, i);
  }
}
