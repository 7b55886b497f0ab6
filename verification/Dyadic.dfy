/** Powers of two, size-aligned intervals and the exclusive-or that finds a buddy.

    Everything is defined by halving, so that each fact below is a short induction
    in linear arithmetic. */
module Dyadic {
  import opened Arithmetic

  function Pow2(k: nat): (p: nat)
    ensures p > 0
  {
    if k == 0 then 1 else 2 * Pow2(k - 1)
  }

  /** `i` is a multiple of `Pow2(k)`. */
  predicate Aligned(i: nat, k: nat)
  {
    k == 0 || (i % 2 == 0 && Aligned(i / 2, k - 1))
  }

  /** The bitwise exclusive-or of `i` with `1 << k`. */
  function Buddy(i: nat, k: nat): nat
  {
    if k == 0 then
      if i % 2 == 0 then i + 1 else i - 1
    else
      2 * Buddy(i / 2, k - 1) + i % 2
  }

  lemma Pow2Monotone(j: nat, k: nat)
    requires j <= k
    ensures Pow2(j) <= Pow2(k)
    ensures j < k ==> 2 * Pow2(j) <= Pow2(k)
  {
  }

  /** `Aligned` is divisibility, said without division. */
  lemma {:induction false} AlignedIsMultiple(i: nat, k: nat) returns (q: nat)
    requires Aligned(i, k)
    ensures i == q * Pow2(k)
  {
    if k == 0 {
      q := i;
    } else {
      q := AlignedIsMultiple(i / 2, k - 1);
      assert q * (2 * Pow2(k - 1)) == 2 * (q * Pow2(k - 1));
    }
  }

  lemma {:induction false} MultipleIsAligned(q: nat, k: nat)
    ensures q * Pow2(k) >= 0 && Aligned(q * Pow2(k), k)
  {
    if k > 0 {
      MultipleIsAligned(q, k - 1);
      assert q * (2 * Pow2(k - 1)) == 2 * (q * Pow2(k - 1));
    }
  }

  lemma {:induction false} AlignedWeaken(i: nat, j: nat, k: nat)
    requires Aligned(i, k) && j <= k
    ensures Aligned(i, j)
  {
    if j > 0 {
      AlignedWeaken(i / 2, j - 1, k - 1);
    }
  }

  /** Two size-aligned intervals that meet are nested: the smaller lies in the larger. */
  lemma {:induction false} Nested(a: nat, j: nat, b: nat, k: nat)
    requires j <= k && Aligned(a, j) && Aligned(b, k)
    requires a < b + Pow2(k) && b < a + Pow2(j)
    ensures b <= a && a + Pow2(j) <= b + Pow2(k)
  {
    if j > 0 {
      Nested(a / 2, j - 1, b / 2, k - 1);
    }
  }

  /** A buddy pair is the two halves of one size-aligned interval of the next order. */
  lemma {:induction false} BuddyPair(i: nat, k: nat)
    requires Aligned(i, k)
    ensures Aligned(Buddy(i, k), k) && Buddy(Buddy(i, k), k) == i
    ensures || (Buddy(i, k) == i + Pow2(k) && Aligned(i, k + 1))
            || (Buddy(i, k) + Pow2(k) == i && Aligned(Buddy(i, k), k + 1))
  {
    if k > 0 {
      BuddyPair(i / 2, k - 1);
    }
  }

  /** The upper half of a size-aligned interval is the buddy of its start. */
  lemma {:induction false} UpperHalf(i: nat, k: nat)
    requires Aligned(i, k + 1)
    ensures Aligned(i, k) && Aligned(i + Pow2(k), k)
    ensures Buddy(i, k) == i + Pow2(k) && Buddy(i + Pow2(k), k) == i
  {
    if k > 0 {
      UpperHalf(i / 2, k - 1);
      assert (i + Pow2(k)) / 2 == i / 2 + Pow2(k - 1);
    }
  }

  // ---- Binary digits of a page count ----

  /** `n & (1 << i)` is not zero. */
  predicate Bit(n: nat, i: nat)
  {
    if i == 0 then n % 2 == 1 else Bit(n / 2, i - 1)
  }

  /** `n` with its digits below `i` cleared. */
  function High(n: nat, i: nat): nat
  {
    if i == 0 then n else 2 * High(n / 2, i - 1)
  }

  /** The place of the lowest set digit. */
  function LowestBit(n: nat): nat
    requires n > 0
  {
    if n % 2 == 1 then 0 else 1 + LowestBit(n / 2)
  }

  /** The number of digits; also `n >> i`. */
  function Width(n: nat): nat
  {
    if n == 0 then 0 else 1 + Width(n / 2)
  }

  function ShiftRight(n: nat, i: nat): nat
  {
    if i == 0 then n else ShiftRight(n, i - 1) / 2
  }

  lemma {:induction false} HighAligned(n: nat, i: nat)
    ensures Aligned(High(n, i), i)
  {
    if i > 0 {
      HighAligned(n / 2, i - 1);
      assert High(n, i) / 2 == High(n / 2, i - 1);
    }
  }

  lemma {:induction false} HighStep(n: nat, i: nat)
    ensures High(n, i) <= n
    ensures High(n, i) == High(n, i + 1) + (if Bit(n, i) then Pow2(i) else 0)
  {
    if i > 0 {
      HighStep(n / 2, i - 1);
      assert High(n, i + 1) == 2 * High(n / 2, i);
    }
  }

  lemma {:induction false} HighOfSmall(n: nat, i: nat)
    requires n < Pow2(i)
    ensures High(n, i) == 0
  {
    if i > 0 {
      HighOfSmall(n / 2, i - 1);
    }
  }

  lemma {:induction false} LowestBitOfEnd(c: nat, k: nat)
    requires Aligned(c, k + 1)
    ensures LowestBit(c + Pow2(k)) == k
  {
    if k > 0 {
      LowestBitOfEnd(c / 2, k - 1);
      assert (c + Pow2(k)) / 2 == c / 2 + Pow2(k - 1);
    }
  }

  lemma {:induction false} AlignedBelowLowestBit(n: nat, k: nat)
    requires n > 0 && Aligned(n, k)
    ensures k <= LowestBit(n)
  {
    if k > 0 {
      AlignedBelowLowestBit(n / 2, k - 1);
    }
  }

  lemma {:induction false} LastInterval(n: nat)
    requires n > 0
    ensures Pow2(LowestBit(n)) <= n
    ensures Aligned(n - Pow2(LowestBit(n)), LowestBit(n) + 1) && Aligned(n - Pow2(LowestBit(n)), LowestBit(n))
  {
    var t := LowestBit(n);
    if t > 0 {
      LastInterval(n / 2);
      assert (n - Pow2(t)) / 2 == n / 2 - Pow2(t - 1);
    }
  }

  lemma {:induction false} AlignedEnd(i: nat, k: nat)
    requires Aligned(i, k)
    ensures Aligned(i + Pow2(k), k)
  {
    if k > 0 {
      AlignedEnd(i / 2, k - 1);
      assert (i + Pow2(k)) / 2 == i / 2 + Pow2(k - 1);
    }
  }

  lemma {:induction false} WidthBounds(n: nat)
    ensures n < Pow2(Width(n))
    ensures forall j: nat :: j < Width(n) ==> Pow2(j) <= n
  {
    if n > 0 {
      WidthBounds(n / 2);
      forall j: nat | j < Width(n)
        ensures Pow2(j) <= n
      {
        if j > 0 {
          assert Pow2(j - 1) <= n / 2;
        }
      }
    }
  }

  lemma {:induction false} WidthAtMost(n: nat, k: nat)
    requires n < Pow2(k)
    ensures Width(n) <= k
  {
    if n > 0 {
      WidthAtMost(n / 2, k - 1);
    }
  }

  /** One more digit shifted out. */
  lemma {:induction false} WidthRound(n: nat, i: nat)
    ensures if ShiftRight(n, i) == 0 then Width(ShiftRight(n, i)) == 0
            else Width(ShiftRight(n, i)) == 1 + Width(ShiftRight(n, i + 1))
    decreases i
  {
    if i > 0 {
      WidthRound(n / 2, i - 1);
    }
  }

  lemma Pow2Values()
    ensures Pow2(31) == INT_LIMIT && Pow2(32) == UINT_LIMIT
  {
    assert Pow2(8) == 256;
    assert Pow2(16) == 65536;
    assert Pow2(24) == 16777216;
    assert Pow2(31) == INT_LIMIT;
  }
}
