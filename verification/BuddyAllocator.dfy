/** drivers/vmq/balloc.c: the buddy allocator over one flat bitmap. */
module BuddyAllocation {
  import opened Arithmetic
  import opened Dyadic
  import opened BuddyBlocks
  import opened BuddyLayout

  const MIN_PAGE_SIZE: nat := 128

  /** `len` bytes in pages, less one, as 32-bit unsigned arithmetic has it. */
  function LastPage(len: nat, pageSize: nat): nat
    requires pageSize > 0
  {
    ((len + pageSize - 1) % UINT_LIMIT / pageSize - 1) % UINT_LIMIT
  }

  /** The order of the block that holds `len` bytes. */
  function OrderFor(len: nat, pageSize: nat): nat
    requires pageSize > 0
  {
    Width(LastPage(len, pageSize))
  }

  /** An `int` argument converted to `unsigned int`. */
  function ToUnsigned(x: int): nat
  {
    x % UINT_LIMIT
  }

  method ComputeOrder(len: nat, pageSize: nat) returns (i: nat)
    requires pageSize > 0
    ensures i == OrderFor(len, pageSize) <= 32
  {
    var l := (len + pageSize - 1) % UINT_LIMIT / pageSize;
    l := (l - 1) % UINT_LIMIT;
    assert OrderFor(len, pageSize) == Width(l) && ShiftRight(l, 0) == l;
    WidthLimit(l);
    hide OrderFor, LastPage, Width, ShiftRight;
    i := 0;
    while i < 32
      invariant i <= 32
      invariant Width(l) == i + Width(ShiftRight(l, i))
    {
      WidthRound(l, i);
      if ShiftRight(l, i) == 0 {
        break;
      }
      i := i + 1;
    }
  }

  lemma {:induction false} WidthLimit(n: nat)
    requires n < UINT_LIMIT
    ensures Width(n) <= 32
  {
    Pow2Values();
    WidthAtMost(n, 32);
  }

  /** A positive request gets the least order that holds it. */
  lemma {:induction false} OrderForLeast(len: nat, pageSize: nat, j: nat)
    requires 0 < len < INT_LIMIT && 0 < pageSize < INT_LIMIT
    ensures len <= Pow2(j) * pageSize <==> OrderFor(len, pageSize) <= j
  {
    var l := LastPage(len, pageSize);
    WidthBounds(l);
    LastPageBounds(len, pageSize);
    if OrderFor(len, pageSize) <= j {
      Pow2Monotone(OrderFor(len, pageSize), j);
      MulMonotone(l + 1, Pow2(j), pageSize);
    } else {
      MulMonotone(Pow2(j), l, pageSize);
    }
  }

  /** An empty request gets order 32, which no allocator can meet. */
  lemma {:induction false} OrderForEmpty(pageSize: nat)
    requires 0 < pageSize < INT_LIMIT
    ensures OrderFor(0, pageSize) == 32
  {
    var q := (pageSize - 1) / pageSize;
    assert q == 0;
    WidthBounds(UINT_LIMIT - 1);
    WidthLimit(UINT_LIMIT - 1);
    Pow2Values();
    Pow2Monotone(Width(UINT_LIMIT - 1), 32);
  }

  lemma {:induction false} PagesFit(size: nat, pageSize: nat, n: nat)
    requires size < INT_LIMIT && 0 < pageSize < INT_LIMIT && n * pageSize <= size
    ensures n <= Pow2(OrderFor(size, pageSize))
  {
    var l := LastPage(size, pageSize);
    WidthBounds(l);
    if size > 0 {
      LastPageBounds(size, pageSize);
      MulCancel(n, l + 1, pageSize);
    } else {
      MulCancel(n, 0, pageSize);
    }
  }

  lemma {:induction false} LastPageBounds(len: nat, pageSize: nat)
    requires 0 < len < INT_LIMIT && 0 < pageSize < INT_LIMIT
    ensures LastPage(len, pageSize) * pageSize < len <= (LastPage(len, pageSize) + 1) * pageSize
  {
    var a := len + pageSize - 1;
    var q := a / pageSize;
    DivBounds(a, pageSize);
    assert q > 0 by {
      assert q == 0 ==> q * pageSize == 0;
    }
    assert LastPage(len, pageSize) == q - 1;
    assert q * pageSize == (q - 1) * pageSize + pageSize;
  }

  lemma {:induction false} TooLarge(B: Blocks, n: nat, maxOrder: nat, order: nat)
    requires Tiling(B, n) && n <= Pow2(maxOrder) && maxOrder < order
    ensures NoFit(B, order)
  {
    forall h | h in B && !B[h].inUse
      ensures B[h].order < order
    {
      assert BlockAt(B, n, h);
      if order <= B[h].order {
        Pow2Monotone(maxOrder, B[h].order);
        assert false;
      }
    }
  }

  /** What the scan has found among the blocks before `curr`. */
  ghost predicate BestBefore(B: Blocks, order: nat, best: int, curr: nat)
  {
    if best < 0 then
      forall h :: h in B && h < curr && !B[h].inUse ==> B[h].order < order
    else
      && best in B && best < curr && !B[best].inUse && order < B[best].order
      && forall h :: h in B && h < curr && !B[h].inUse && order <= B[h].order ==>
           B[best].order < B[h].order || (B[best].order == B[h].order && best <= h)
  }

  /** One round of the scan that does not end it. */
  lemma {:induction false} ScanStep(B: Blocks, n: nat, order: nat, best: int, curr: nat)
    requires Tiling(B, n) && curr in B && BestBefore(B, order, best, curr)
    requires B[curr].inUse || B[curr].order != order
    ensures curr < End(B, curr) <= n && (End(B, curr) == n || End(B, curr) in B)
    ensures var better := !B[curr].inUse && B[curr].order > order && (best < 0 || B[curr].order < B[best].order);
            BestBefore(B, order, if better then curr else best, End(B, curr))
  {
    assert BlockAt(B, n, curr);
    assert forall h :: h in B && curr < h ==> Before(B, curr, h);
  }

  lemma {:induction false} ScanHit(B: Blocks, order: nat, best: int, curr: nat)
    requires curr in B && BestBefore(B, order, best, curr)
    requires !B[curr].inUse && B[curr].order == order
    ensures IsBestFit(B, order, curr)
  {
  }

  lemma {:induction false} ScanEnd(B: Blocks, n: nat, order: nat, best: int)
    requires Tiling(B, n) && BestBefore(B, order, best, n)
    ensures if best < 0 then NoFit(B, order) else IsBestFit(B, order, best)
  {
    assert forall h :: h in B ==> BlockAt(B, n, h);
  }

  lemma {:induction false} NoDigitsAbove(n: nat)
    requires n < UINT_LIMIT
    ensures High(n, 32) == 0 && Laid(n, 32) == map[]
  {
    Pow2Values();
    HighOfSmall(n, 32);
  }

  class BuddyAllocator {
    const size: nat
    const pageSize: nat
    const nrPages: nat
    const maxOrder: nat
    /** One entry a page, and the entry in the memory just past the last. */
    const bitmap: array<Entry>

    ghost var blocks: Blocks

    ghost predicate Valid()
      reads this, bitmap
    {
      && 0 < pageSize < INT_LIMIT && size < INT_LIMIT
      && nrPages == size / pageSize && maxOrder == OrderFor(size, pageSize)
      && Represents(bitmap[..], nrPages, blocks)
      && Tiling(blocks, nrPages) && Canonical(blocks)
    }

    /** The loop over the binary digits of the number of pages. */
    static method LayOut(n: nat, past: Entry) returns (m: array<Entry>)
      requires n < UINT_LIMIT
      ensures fresh(m) && m.Length == n + 1 && m[n] == past && Represents(m[..], n, Initial(n))
    {
      m := new Entry[n + 1](_ => Entry(false, 0));
      m[n] := past;
      var i, index := 31, 0;
      NoDigitsAbove(n);
      hide High, Bit, Laid;
      while i >= 0
        invariant -1 <= i <= 31 && m.Length == n + 1 && m[n] == past && fresh(m)
        invariant index == High(n, i + 1) && Blank(m[..], n, Laid(n, i + 1))
      {
        LayRound(m[..], n, i);
        if Bit(n, i) {
          m[index] := m[index].(order := i);
          index := index + Pow2(m[index].order);
        }
        i := i - 1;
      }
      BlankRepresents(m[..], n);
    }

    constructor Make(size: nat, pageSize: nat, past: Entry)
      requires 0 < pageSize < INT_LIMIT && size < INT_LIMIT
      ensures this.size == size && this.pageSize == pageSize
      ensures nrPages == size / pageSize && maxOrder == OrderFor(size, pageSize)
      ensures fresh(bitmap) && bitmap.Length == nrPages + 1 && bitmap[nrPages] == past
      ensures Valid() && blocks == Initial(nrPages)
    {
      hide Tiling, Canonical, OrderFor, Represents;
      this.size := size;
      this.pageSize := pageSize;
      var n := size / pageSize;
      DivAtMost(size, pageSize);
      this.nrPages := n;
      var order := ComputeOrder(size, pageSize);
      this.maxOrder := order;
      var m := LayOut(n, past);
      this.bitmap := m;
      this.blocks := Initial(n);
      InitialCorrect(n);
    }

    /** `crashed` is the division by zero that a page size of zero, which passes the mask, leads to. */
    static method Create(size: nat, pageSize: nat, past: Entry) returns (ba: BuddyAllocator?, crashed: bool)
      requires pageSize < INT_LIMIT && size < INT_LIMIT
      ensures crashed <==> pageSize == 0
      ensures ba == null <==> pageSize % MIN_PAGE_SIZE != 0 || pageSize == 0
      ensures ba != null ==> fresh(ba) && fresh(ba.bitmap) && ba.Valid() && ba.size == size && ba.pageSize == pageSize
      ensures ba != null ==> ba.blocks == Initial(ba.nrPages) && ba.bitmap[ba.nrPages] == past
    {
      if pageSize % MIN_PAGE_SIZE != 0 {
        return null, false;
      }
      if pageSize == 0 {
        return null, true;
      }
      ba := new BuddyAllocator.Make(size, pageSize, past);
      crashed := false;
    }

    /** Best fit over the block list, from page 0. */
    method Scan(order: nat) returns (best: int)
      requires Valid()
      ensures best == -1 || best >= 0
      ensures best < 0 ==> NoFit(blocks, order)
      ensures best >= 0 ==> IsBestFit(blocks, order, best)
    {
      best := -1;
      var curr := 0;
      while curr < nrPages
        invariant curr <= nrPages && (curr == nrPages || curr in blocks)
        invariant -1 <= best
        invariant BestBefore(blocks, order, best, curr)
        decreases nrPages - curr
      {
        assert BlockAt(blocks, nrPages, curr);
        if !bitmap[curr].inUse && bitmap[curr].order == order {
          ScanHit(blocks, order, best, curr);
          return curr;
        }
        ScanStep(blocks, nrPages, order, best, curr);
        if !bitmap[curr].inUse {
          if bitmap[curr].order > order && (best < 0 || bitmap[curr].order < bitmap[best].order) {
            best := curr;
          }
        }
        curr := curr + Pow2(bitmap[curr].order);
      }
      ScanEnd(blocks, nrPages, order, best);
    }

    /** Halves the block at `best` until it is of the wanted order. */
    method SplitTo(best: nat, order: nat)
      requires Valid() && best in blocks && !blocks[best].inUse && order <= blocks[best].order
      modifies bitmap
      ensures Represents(bitmap[..], nrPages, SplitDown(blocks, best, order))
      ensures bitmap[nrPages] == old(bitmap[nrPages])
    {
      ghost var B: Blocks := blocks;
      assert BlockAt(blocks, nrPages, best);
      while bitmap[best].order > order
        invariant Represents(bitmap[..], nrPages, B) && Tiling(B, nrPages)
        invariant best in B && !B[best].inUse && order <= B[best].order && best < nrPages
        invariant SplitDown(B, best, order) == SplitDown(blocks, best, order)
        invariant bitmap[nrPages] == old(bitmap[nrPages])
        decreases bitmap[best].order
      {
        ghost var m := bitmap[..];
        HalveRepresents(m, nrPages, B, best);
        bitmap[best] := bitmap[best].(order := bitmap[best].order - 1);
        var buddy := Buddy(best, bitmap[best].order);
        bitmap[buddy] := bitmap[buddy].(order := bitmap[best].order);
        assert bitmap[..] == HalveEntry(m, best);
        B := Split(B, best);
      }
    }

    /** Takes a block of the least order that holds `len` bytes from the first of the
        smallest free blocks that are large enough; -1 when there is none. */
    method Alloc(len: int) returns (best: int)
      requires Valid() && -(INT_LIMIT as int) <= len < INT_LIMIT
      modifies this`blocks, bitmap
      ensures Valid() && bitmap[nrPages] == old(bitmap[nrPages])
      ensures var k := OrderFor(ToUnsigned(len), pageSize);
              if best < 0 then
                best == -1 && NoFit(blocks, k) && blocks == old(blocks)
              else
                IsBestFit(old(blocks), k, best) && blocks == Carve(old(blocks), best, k)
    {
      var order := ComputeOrder(ToUnsigned(len), pageSize);
      if order > maxOrder {
        DivBounds(size, pageSize);
        PagesFit(size, pageSize, nrPages);
        TooLarge(blocks, nrPages, maxOrder, order);
        return -1;
      }
      best := Scan(order);
      if best < 0 {
        return;
      }
      CarveCorrect(blocks, nrPages, best, order);
      SplitDownCorrect(blocks, nrPages, best, order);
      assert BlockAt(blocks, nrPages, best);
      SplitTo(best, order);
      bitmap[best] := bitmap[best].(inUse := true);
      blocks := Carve(blocks, best, order);
    }

    /** Frees the block at `index` and coalesces. It strays past the bitmap exactly when it
        completes the last block and the entry past the end looks like a free buddy of it;
        what C does after that first write is not defined, and the model stops there. */
    method Free(index: nat) returns (strayed: bool)
      requires Valid() && index in Allocated(blocks)
      modifies this`blocks, bitmap
      ensures strayed <==> CompletesLast(old(blocks), nrPages, index) && !StopsCoalescing(nrPages, old(bitmap[nrPages]))
      ensures !strayed ==> Valid() && bitmap[nrPages] == old(bitmap[nrPages])
      ensures !strayed ==> blocks == BuddyBlocks.Free(old(blocks), nrPages, index)
      ensures strayed ==> bitmap[nrPages] == old(bitmap[nrPages]).(order := LowestBit(nrPages) + 1)
    {
      ghost var B: Blocks := blocks[index := blocks[index].(inUse := false)];
      assert BlockAt(blocks, nrPages, index);
      SetAllocated(blocks, nrPages, index, false);
      FreeCorrect(blocks, nrPages, index);
      bitmap[index] := bitmap[index].(inUse := false);
      strayed := CoalesceFrom(index, B);
      blocks := BuddyBlocks.Free(blocks, nrPages, index);
    }

    method RaiseOrders(curr: nat, buddy: nat)
      requires curr < bitmap.Length && buddy < bitmap.Length
      modifies bitmap
      ensures bitmap[..] == JoinEntries(old(bitmap[..]), curr, buddy)
    {
      bitmap[buddy] := bitmap[buddy].(order := bitmap[buddy].order + 1);
      bitmap[curr] := bitmap[curr].(order := bitmap[curr].order + 1);
    }

    method CoalesceFrom(index: nat, ghost B0: Blocks) returns (strayed: bool)
      requires Represents(bitmap[..], nrPages, B0) && Tiling(B0, nrPages) && Tiling(blocks, nrPages) && Canonical(blocks)
      requires index in Allocated(blocks) && index in B0 && !B0[index].inUse && index < nrPages
      requires Coalesce(B0, nrPages, index) == BuddyBlocks.Free(blocks, nrPages, index)
      modifies bitmap
      ensures strayed <==> CompletesLast(blocks, nrPages, index) && !StopsCoalescing(nrPages, old(bitmap[nrPages]))
      ensures !strayed ==> bitmap[nrPages] == old(bitmap[nrPages])
      ensures !strayed ==> Represents(bitmap[..], nrPages, BuddyBlocks.Free(blocks, nrPages, index))
      ensures strayed ==> bitmap[nrPages] == old(bitmap[nrPages]).(order := LowestBit(nrPages) + 1)
    {
      hide Tiling, Canonical, CompletesLast, LowestBit;
      ghost var n, F := nrPages, BuddyBlocks.Free(blocks, nrPages, index);
      ghost var B: Blocks := B0;
      var curr := index;
      strayed := false;
      while true
        invariant Represents(bitmap[..], n, B) && Tiling(B, n)
        invariant curr in B && !B[curr].inUse && curr <= index < End(B, curr)
        invariant Coalesce(B, n, curr) == F
        invariant bitmap[n] == old(bitmap[n])
        decreases n - Pow2(B[curr].order)
      {
        ghost var m := bitmap[..];
        RoundReads(m, n, blocks, index, B, curr);
        var buddy := Buddy(curr, bitmap[curr].order);
        if !bitmap[buddy].inUse && bitmap[buddy].order == bitmap[curr].order {
          if buddy == nrPages {
            RaiseOrders(curr, buddy);
            return true;
          }
          JoinRepresents(m, n, B, curr);
          MergeCovers(B, n, curr, index);
          RaiseOrders(curr, buddy);
          B := Merge(B, curr);
          curr := if buddy < curr then buddy else curr;
        } else {
          break;
        }
      }
    }
  }
}
