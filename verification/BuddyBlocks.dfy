/** What the buddy allocator's bitmap means: a map from the first page of each block to
    the block's entry. The block list, the operations on it, and the facts that make its
    shape a function of the allocated blocks alone. */
module BuddyBlocks {
  import opened Dyadic

  datatype Entry = Entry(inUse: bool, order: nat)

  /** First page of a block to its entry. */
  type Blocks = map<nat, Entry>

  function End(B: Blocks, h: nat): nat
    requires h in B
  {
    h + Pow2(B[h].order)
  }

  /** The block at `h` is size-aligned, ends by `n`, and is followed by a block unless it
      is the last. */
  predicate BlockAt(B: Blocks, n: nat, h: nat)
  {
    h in B && Aligned(h, B[h].order) && End(B, h) <= n && (End(B, h) == n || End(B, h) in B)
  }

  predicate Before(B: Blocks, g: nat, h: nat)
    requires g in B
  {
    End(B, g) <= h
  }

  /** The blocks are size-aligned and tile the pages [0, n). */
  ghost predicate Tiling(B: Blocks, n: nat)
  {
    && (n > 0 ==> 0 in B)
    && (forall h {:trigger BlockAt(B, n, h)} :: h in B ==> BlockAt(B, n, h))
    && (forall g, h {:trigger Before(B, g, h)} :: g in B && h in B && g < h ==> Before(B, g, h))
  }

  /** The block that covers page `p`. */
  function Owner(B: Blocks, n: nat, p: nat): (h: nat)
    requires Tiling(B, n) && p < n
    ensures h in B && h <= p < End(B, h)
  {
    if p in B then
      assert BlockAt(B, n, p); p
    else
      assert BlockAt(B, n, Owner(B, n, p - 1));
      Owner(B, n, p - 1)
  }

  /** The allocated blocks, with their orders. */
  function Allocated(B: Blocks): Blocks
  {
    map h | h in B && B[h].inUse :: B[h]
  }

  /** `c` is free and so is its buddy, at the same order. */
  predicate Mergeable(B: Blocks, c: nat)
    requires c in B
  {
    var b := Buddy(c, B[c].order);
    !B[c].inUse && b in B && B[b] == B[c]
  }

  /** Fully coalesced. */
  ghost predicate Canonical(B: Blocks)
  {
    forall h :: h in B ==> !Mergeable(B, h)
  }

  /** Fully coalesced except, perhaps, for the pair that `c` belongs to. */
  ghost predicate CanonicalExcept(B: Blocks, c: nat)
  {
    forall h :: h in B && h != c && Buddy(h, B[h].order) != c ==> !Mergeable(B, h)
  }

  /** No allocated block meets the `Pow2(k)` pages from `b`. */
  ghost predicate Clear(A: Blocks, b: nat, k: nat)
  {
    forall h :: h in A && A[h].inUse ==> End(A, h) <= b || b + Pow2(k) <= h
  }

  // ---- The operations ----

  /** One round of the coalescing loop. */
  function Merge(B: Blocks, c: nat): Blocks
    requires c in B && Mergeable(B, c)
  {
    var b := Buddy(c, B[c].order);
    var lo, hi := if b < c then b else c, if b < c then c else b;
    (B - {hi})[lo := Entry(false, B[c].order + 1)]
  }

  function MergedHead(B: Blocks, c: nat): nat
    requires c in B
  {
    var b := Buddy(c, B[c].order);
    if b < c then b else c
  }

  /** The coalescing loop from the free block `c`. */
  function Coalesce(B: Blocks, n: nat, c: nat): Blocks
    requires Tiling(B, n) && c in B
    decreases n - Pow2(B[c].order)
  {
    if Mergeable(B, c) then
      MergeKeepsTiling(B, n, c);
      Coalesce(Merge(B, c), n, MergedHead(B, c))
    else
      B
  }

  /** Freeing the block at `i`. */
  function Free(B: Blocks, n: nat, i: nat): Blocks
    requires Tiling(B, n) && i in B
  {
    var B' := B[i := B[i].(inUse := false)];
    assert Tiling(B', n) by { SetAllocated(B, n, i, false); }
    Coalesce(B', n, i)
  }

  /** One round of the splitting loop. */
  function Split(B: Blocks, r: nat): Blocks
    requires r in B && B[r].order > 0
  {
    var k := B[r].order - 1;
    B[r := Entry(B[r].inUse, k)][Buddy(r, k) := Entry(false, k)]
  }

  /** The splitting loop, down to order `k`. */
  function SplitDown(B: Blocks, r: nat, k: nat): Blocks
    requires r in B
    decreases B[r].order
  {
    if B[r].order > k then SplitDown(Split(B, r), r, k) else B
  }

  /** Carving a block of order `k` from the block at `r`. */
  function Carve(B: Blocks, r: nat, k: nat): Blocks
    requires r in B
  {
    SplitDown(B, r, k)[r := Entry(true, k)]
  }

  /** `r` is the first of the smallest free blocks of order at least `k`. */
  ghost predicate IsBestFit(B: Blocks, k: nat, r: nat)
  {
    && r in B && !B[r].inUse && k <= B[r].order
    && forall h :: h in B && !B[h].inUse && k <= B[h].order ==>
         B[r].order < B[h].order || (B[r].order == B[h].order && r <= h)
  }

  ghost predicate NoFit(B: Blocks, k: nat)
  {
    forall h :: h in B && !B[h].inUse ==> B[h].order < k
  }

  // ---- Tiling ----

  lemma {:induction false} SetAllocated(B: Blocks, n: nat, i: nat, a: bool)
    requires Tiling(B, n) && i in B
    ensures Tiling(B[i := B[i].(inUse := a)], n)
  {
    var B' := B[i := B[i].(inUse := a)];
    forall h | h in B'
      ensures BlockAt(B', n, h)
    {
      assert BlockAt(B, n, h);
    }
    forall g, h | g in B' && h in B' && g < h
      ensures Before(B', g, h)
    {
      assert Before(B, g, h);
    }
  }

  lemma {:induction false} OwnerUnique(B: Blocks, n: nat, p: nat, h: nat)
    requires Tiling(B, n) && h in B && h <= p < End(B, h) && p < n
    ensures Owner(B, n, p) == h
  {
    var o := Owner(B, n, p);
    assert o < h ==> Before(B, o, h);
    assert h < o ==> Before(B, h, o);
  }

  /** The buddy of a block is the first page past the end, or itself a block, of no
      higher order. */
  lemma {:induction false} BuddyIsBlock(B: Blocks, n: nat, c: nat)
    requires Tiling(B, n) && c in B
    ensures var b := Buddy(c, B[c].order);
            b == n || (b < n && b in B && B[b].order <= B[c].order)
  {
    var k := B[c].order;
    var b := Buddy(c, k);
    assert BlockAt(B, n, c);
    BuddyPair(c, k);
    if b < n {
      var o := Owner(B, n, b);
      var j := B[o].order;
      assert BlockAt(B, n, o);
      if j <= k {
        Nested(o, j, b, k);
      } else {
        var w := if b < c then b else c;
        Nested(w, k + 1, o, j);
        OwnerUnique(B, n, c, o);
        OwnerUnique(B, n, c, c);
        assert false;
      }
    }
  }

  lemma {:induction false} BuddyInvolution(B: Blocks, n: nat, h: nat)
    requires Tiling(B, n) && h in B
    ensures Buddy(Buddy(h, B[h].order), B[h].order) == h
  {
    assert BlockAt(B, n, h);
    BuddyPair(h, B[h].order);
  }

  lemma {:induction false} JoinKeepsTiling(B: Blocks, n: nat, lo: nat, hi: nat, k: nat)
    requires Tiling(B, n) && lo in B && hi in B && B[lo].order == k == B[hi].order
    requires hi == lo + Pow2(k) && Aligned(lo, k + 1)
    ensures Tiling((B - {hi})[lo := Entry(false, k + 1)], n) && Pow2(k + 1) <= n
  {
    var B' := (B - {hi})[lo := Entry(false, k + 1)];
    assert End(B, lo) == hi && End(B', lo) == End(B, hi);
    assert BlockAt(B, n, hi);
    forall h | h in B'
      ensures BlockAt(B', n, h)
    {
      assert BlockAt(B, n, h);
      assert h < lo ==> Before(B, h, lo);
      assert lo < h ==> Before(B, lo, h);
    }
    forall g, h | g in B' && h in B' && g < h
      ensures Before(B', g, h)
    {
      assert Before(B, g, h);
      assert g == lo ==> hi < h && Before(B, hi, h);
    }
  }

  lemma {:induction false} MergeKeepsTiling(B: Blocks, n: nat, c: nat)
    requires Tiling(B, n) && c in B && Mergeable(B, c)
    ensures Tiling(Merge(B, c), n)
    ensures MergedHead(B, c) in Merge(B, c)
    ensures Merge(B, c)[MergedHead(B, c)] == Entry(false, B[c].order + 1)
    ensures Pow2(B[c].order + 1) <= n
  {
    var k := B[c].order;
    var b := Buddy(c, k);
    assert BlockAt(B, n, c);
    BuddyPair(c, k);
    if b < c {
      JoinKeepsTiling(B, n, b, c, k);
    } else {
      JoinKeepsTiling(B, n, c, b, k);
    }
  }

  lemma {:induction false} HalveKeepsTiling(B: Blocks, n: nat, r: nat, b: nat, k: nat, a: bool)
    requires Tiling(B, n) && r in B && B[r].order == k + 1
    requires b == r + Pow2(k) && Aligned(r, k) && Aligned(b, k)
    ensures Tiling(B[r := Entry(a, k)][b := Entry(false, k)], n)
    ensures b !in B
  {
    var B' := B[r := Entry(a, k)][b := Entry(false, k)];
    assert BlockAt(B, n, r);
    assert b in B ==> Before(B, r, b);
    assert End(B', r) == b && End(B', b) == End(B, r);
    forall h | h in B'
      ensures BlockAt(B', n, h)
    {
      assert h in B ==> BlockAt(B, n, h);
    }
    forall g, h | g in B' && h in B' && g < h
      ensures Before(B', g, h)
    {
      var g', h' := if g == b then r else g, if h == b then r else h;
      assert g' < h' ==> Before(B, g', h');
      assert h' < g' ==> Before(B, h', g');
    }
  }

  lemma {:induction false} SplitKeepsTiling(B: Blocks, n: nat, r: nat)
    requires Tiling(B, n) && r in B && B[r].order > 0
    ensures Tiling(Split(B, r), n)
    ensures Buddy(r, B[r].order - 1) == r + Pow2(B[r].order - 1) < End(B, r)
    ensures Buddy(r, B[r].order - 1) !in B
  {
    var k := B[r].order - 1;
    assert BlockAt(B, n, r);
    UpperHalf(r, k);
    HalveKeepsTiling(B, n, r, r + Pow2(k), k, B[r].inUse);
  }

  // ---- Freeing ----

  lemma {:induction false} MergeKeepsCanonical(B: Blocks, n: nat, c: nat)
    requires Tiling(B, n) && c in B && Mergeable(B, c) && CanonicalExcept(B, c)
    ensures CanonicalExcept(Merge(B, c), MergedHead(B, c))
    ensures Allocated(Merge(B, c)) == Allocated(B)
  {
    assert BlockAt(B, n, c);
    BuddyPair(c, B[c].order);
    MergeKeepsTiling(B, n, c);
    var B', c' := Merge(B, c), MergedHead(B, c);
    forall h | h in B' && h != c' && Buddy(h, B'[h].order) != c'
      ensures !Mergeable(B', h)
    {
      BuddyInvolution(B, n, h);
    }
  }

  /** Coalescing keeps the tiling and the allocated blocks, and ends fully coalesced. */
  lemma {:induction false} CoalesceCorrect(B: Blocks, n: nat, c: nat)
    requires Tiling(B, n) && c in B && !B[c].inUse && CanonicalExcept(B, c)
    ensures Tiling(Coalesce(B, n, c), n) && Canonical(Coalesce(B, n, c))
    ensures Allocated(Coalesce(B, n, c)) == Allocated(B)
    decreases n - Pow2(B[c].order)
  {
    if Mergeable(B, c) {
      MergeKeepsTiling(B, n, c);
      MergeKeepsCanonical(B, n, c);
      CoalesceCorrect(Merge(B, c), n, MergedHead(B, c));
    } else {
      forall h | h in B
        ensures !Mergeable(B, h)
      {
        BuddyInvolution(B, n, h);
      }
    }
  }

  lemma {:induction false} FreeCorrect(B: Blocks, n: nat, i: nat)
    requires Tiling(B, n) && Canonical(B) && i in B
    ensures Tiling(Free(B, n, i), n) && Canonical(Free(B, n, i))
    ensures Allocated(Free(B, n, i)) == Allocated(B) - {i}
  {
    var B' := B[i := B[i].(inUse := false)];
    SetAllocated(B, n, i, false);
    assert CanonicalExcept(B', i) by {
      forall h | h in B' && h != i && Buddy(h, B'[h].order) != i
        ensures !Mergeable(B', h)
      {
        assert !Mergeable(B, h);
      }
    }
    CoalesceCorrect(B', n, i);
  }

  // ---- Allocating ----

  lemma {:induction false} SplitKeepsCanonical(B: Blocks, n: nat, r: nat)
    requires Tiling(B, n) && r in B && !B[r].inUse && B[r].order > 0 && CanonicalExcept(B, r)
    ensures CanonicalExcept(Split(B, r), r)
    ensures Allocated(Split(B, r)) == Allocated(B)
  {
    var k := B[r].order - 1;
    assert Buddy(r, k) !in B && Buddy(Buddy(r, k), k) == r by {
      SplitKeepsTiling(B, n, r);
      assert BlockAt(B, n, r);
      UpperHalf(r, k);
    }
    var B' := Split(B, r);
    forall h | h in B' && h != r && Buddy(h, B'[h].order) != r
      ensures !Mergeable(B', h)
    {
      assert h in B && !Mergeable(B, h);
      BuddyInvolution(B, n, h);
    }
  }

  lemma {:induction false} SplitDownCorrect(B: Blocks, n: nat, r: nat, k: nat)
    requires Tiling(B, n) && r in B && !B[r].inUse && k <= B[r].order && CanonicalExcept(B, r)
    ensures var B' := SplitDown(B, r, k);
            && Tiling(B', n) && CanonicalExcept(B', r) && Allocated(B') == Allocated(B)
            && r in B' && B'[r] == Entry(false, k)
    decreases B[r].order
  {
    if B[r].order > k {
      SplitKeepsTiling(B, n, r);
      SplitKeepsCanonical(B, n, r);
      SplitDownCorrect(Split(B, r), n, r, k);
    }
  }

  /** Carving adds exactly one allocated block, inside the block it is carved from. */
  lemma {:induction false} CarveCorrect(B: Blocks, n: nat, r: nat, k: nat)
    requires Tiling(B, n) && Canonical(B) && r in B && !B[r].inUse && k <= B[r].order
    ensures Tiling(Carve(B, r, k), n) && Canonical(Carve(B, r, k))
    ensures Allocated(Carve(B, r, k)) == Allocated(B)[r := Entry(true, k)]
    ensures r !in Allocated(B) && r + Pow2(k) <= End(B, r)
  {
    SplitDownCorrect(B, n, r, k);
    Pow2Monotone(k, B[r].order);
    var B' := SplitDown(B, r, k);
    SetAllocated(B', n, r, true);
    forall h | h in Carve(B, r, k)
      ensures !Mergeable(Carve(B, r, k), h)
    {
      if h != r && Buddy(h, B'[h].order) != r {
        assert !Mergeable(B', h);
      }
    }
  }

  // ---- The shape of the block list ----

  /** In a fully coalesced list, an aligned stretch of free pages lies in one block. */
  lemma {:induction false} FreeStretch(B: Blocks, n: nat, b: nat, k: nat)
    requires Tiling(B, n) && Canonical(B)
    requires Aligned(b, k) && b + Pow2(k) <= n && Clear(B, b, k)
    ensures var o := Owner(B, n, b);
            !B[o].inUse && k <= B[o].order
    decreases k
  {
    if k > 0 {
      UpperHalf(b, k - 1);
      var m := b + Pow2(k - 1);
      FreeStretch(B, n, b, k - 1);
      FreeStretch(B, n, m, k - 1);
      var o, u := Owner(B, n, b), Owner(B, n, m);
      assert BlockAt(B, n, o) && BlockAt(B, n, u);
      if B[o].order == k - 1 {
        Nested(o, k - 1, b, k - 1);
        if B[u].order == k - 1 {
          assert false;
        } else {
          Nested(b, k, u, B[u].order);
          assert false;
        }
      }
    }
  }

  lemma {:induction false} ClearDependsOnAllocated(B: Blocks, C: Blocks, b: nat, k: nat)
    requires Allocated(B) == Allocated(C) && Clear(B, b, k)
    ensures Clear(C, b, k)
  {
    forall h | h in C && C[h].inUse
      ensures End(C, h) <= b || b + Pow2(k) <= h
    {
      assert h in Allocated(C) && Allocated(C)[h] == C[h];
      assert h in Allocated(B) && Allocated(B)[h] == B[h];
    }
  }

  lemma {:induction false} SubsetOfAllocated(B: Blocks, C: Blocks, n: nat, h: nat)
    requires Tiling(B, n) && Canonical(B) && Tiling(C, n) && Canonical(C)
    requires Allocated(B) == Allocated(C)
    requires h in B
    ensures h in C && C[h] == B[h]
  {
    if B[h].inUse {
      assert h in Allocated(B) && Allocated(B)[h] == B[h];
      assert h in Allocated(C) && Allocated(C)[h] == C[h];
    } else {
      var k := B[h].order;
      FitIsClear(B, n, k, h);
      ClearDependsOnAllocated(B, C, h, k);
      FreeStretch(C, n, h, k);
      var o := Owner(C, n, h);
      var j := C[o].order;
      FitIsClear(C, n, j, o);
      ClearDependsOnAllocated(C, B, o, j);
      FreeStretch(B, n, o, j);
      var u := Owner(B, n, o);
      assert BlockAt(B, n, u) && BlockAt(B, n, h) && BlockAt(C, n, o);
      Nested(h, k, o, j);
      Nested(o, j, u, B[u].order);
      OwnerUnique(B, n, h, u);
    }
  }

  /** The canonical form: a fully coalesced list is determined by its allocated blocks. */
  lemma {:induction false} Uniqueness(B: Blocks, C: Blocks, n: nat)
    requires Tiling(B, n) && Canonical(B) && Tiling(C, n) && Canonical(C)
    requires Allocated(B) == Allocated(C)
    ensures B == C
  {
    forall h | h in B ensures h in C && C[h] == B[h] { SubsetOfAllocated(B, C, n, h); }
    forall h | h in C ensures h in B && C[h] == B[h] { SubsetOfAllocated(C, B, n, h); }
  }

  /** When no free block is large enough, no aligned stretch of that size is free. */
  lemma {:induction false} Completeness(B: Blocks, n: nat, k: nat, b: nat)
    requires Tiling(B, n) && Canonical(B) && NoFit(B, k)
    requires Aligned(b, k) && b + Pow2(k) <= n
    ensures !Clear(B, b, k)
  {
    if Clear(B, b, k) {
      FreeStretch(B, n, b, k);
    }
  }

  /** Conversely, a free block that fits is itself such a stretch. */
  lemma {:induction false} FitIsClear(B: Blocks, n: nat, k: nat, r: nat)
    requires Tiling(B, n) && r in B && !B[r].inUse && k <= B[r].order
    ensures Aligned(r, k) && r + Pow2(k) <= n && Clear(B, r, k)
  {
    assert BlockAt(B, n, r);
    AlignedWeaken(r, k, B[r].order);
    Pow2Monotone(k, B[r].order);
    forall h | h in B && B[h].inUse
      ensures End(B, h) <= r || r + Pow2(k) <= h
    {
      assert h < r ==> Before(B, h, r);
      assert r < h ==> Before(B, r, h);
    }
  }

  // ---- Consequences ----

  /** Freeing two blocks in either order gives the same list. */
  lemma {:induction false} FreesCommute(B: Blocks, n: nat, i: nat, j: nat)
    requires Tiling(B, n) && Canonical(B) && i != j && i in Allocated(B) && j in Allocated(B)
    ensures j in Free(B, n, i) && i in Free(B, n, j)
    ensures Tiling(Free(B, n, i), n) && Tiling(Free(B, n, j), n)
    ensures Free(Free(B, n, i), n, j) == Free(Free(B, n, j), n, i)
  {
    FreeCorrect(B, n, i);
    FreeCorrect(B, n, j);
    var Bi, Bj := Free(B, n, i), Free(B, n, j);
    assert j in Allocated(Bi) && i in Allocated(Bj);
    FreeCorrect(Bi, n, j);
    FreeCorrect(Bj, n, i);
    assert Allocated(B) - {i} - {j} == Allocated(B) - {j} - {i};
    Uniqueness(Free(Bi, n, j), Free(Bj, n, i), n);
  }

  /** Allocating a block and freeing it restores the list. */
  lemma {:induction false} FreeUndoesCarve(B: Blocks, n: nat, r: nat, k: nat)
    requires Tiling(B, n) && Canonical(B) && r in B && !B[r].inUse && k <= B[r].order
    ensures Tiling(Carve(B, r, k), n)
    ensures Free(Carve(B, r, k), n, r) == B
  {
    CarveCorrect(B, n, r, k);
    var C := Carve(B, r, k);
    FreeCorrect(C, n, r);
    assert Allocated(B)[r := Entry(true, k)] - {r} == Allocated(B);
    Uniqueness(Free(C, n, r), B, n);
  }
}
