/** The initial block list, the walk over the bitmap, whole runs of allocations and frees,
    and the page past the end that freeing may look at. */
module BuddyLayout {
  import opened Arithmetic
  import opened Dyadic
  import opened BuddyBlocks

  // ---- Creation ----

  /** The blocks laid down for the binary digits of `n` from place 31 down to place `i`. */
  function Laid(n: nat, i: nat): Blocks
    requires i <= 32
    decreases 32 - i
  {
    if i == 32 then map[]
    else if Bit(n, i) then Laid(n, i + 1)[High(n, i + 1) := Entry(false, i)]
    else Laid(n, i + 1)
  }

  function Initial(n: nat): Blocks
  {
    Laid(n, 0)
  }

  ghost predicate DistinctOrders(B: Blocks, least: nat)
  {
    && (forall h :: h in B ==> !B[h].inUse && least <= B[h].order)
    && (forall g, h :: g in B && h in B && g != h ==> B[g].order != B[h].order)
  }

  lemma {:induction false} AppendKeepsTiling(B: Blocks, n: nat, k: nat)
    requires Tiling(B, n) && Aligned(n, k)
    ensures n !in B
    ensures Tiling(B[n := Entry(false, k)], n + Pow2(k))
  {
    var B' := B[n := Entry(false, k)];
    assert n in B ==> BlockAt(B, n, n);
    forall h | h in B'
      ensures BlockAt(B', n + Pow2(k), h)
    {
      assert h in B ==> BlockAt(B, n, h);
    }
    forall g, h | g in B' && h in B' && g < h
      ensures Before(B', g, h)
    {
      assert g in B ==> BlockAt(B, n, g);
      assert h in B ==> BlockAt(B, n, h);
      assert g in B && h in B ==> Before(B, g, h);
    }
  }

  lemma {:induction false} LaidTiles(n: nat, i: nat)
    requires i <= 32 && n < UINT_LIMIT
    ensures Tiling(Laid(n, i), High(n, i)) && DistinctOrders(Laid(n, i), i)
    decreases 32 - i
  {
    if i == 32 {
      Pow2Values();
      HighOfSmall(n, 32);
    } else {
      LaidTiles(n, i + 1);
      HighStep(n, i);
      if Bit(n, i) {
        HighAligned(n, i + 1);
        AlignedWeaken(High(n, i + 1), i, i + 1);
        AppendKeepsTiling(Laid(n, i + 1), High(n, i + 1), i);
      }
    }
  }

  /** One round of the loop over the binary digits. */
  lemma {:induction false} LaidStep(n: nat, i: nat)
    requires i < 32 && n < UINT_LIMIT
    ensures High(n, i) == High(n, i + 1) + (if Bit(n, i) then Pow2(i) else 0) <= n
    ensures High(n, i + 1) !in Laid(n, i + 1)
    ensures Laid(n, i) == if Bit(n, i) then Laid(n, i + 1)[High(n, i + 1) := Entry(false, i)] else Laid(n, i + 1)
  {
    LaidTiles(n, i + 1);
    HighStep(n, i);
    assert High(n, i + 1) in Laid(n, i + 1) ==> BlockAt(Laid(n, i + 1), High(n, i + 1), High(n, i + 1));
  }

  lemma {:induction false} DistinctOrdersIsCanonical(B: Blocks, n: nat)
    requires Tiling(B, n) && DistinctOrders(B, 0)
    ensures Canonical(B)
  {
    forall h | h in B
      ensures !Mergeable(B, h)
    {
      assert BlockAt(B, n, h);
      BuddyPair(h, B[h].order);
    }
  }

  /** A new allocator's pages are tiled by free blocks, fully coalesced. */
  lemma {:induction false} InitialCorrect(n: nat)
    requires n < UINT_LIMIT
    ensures Tiling(Initial(n), n) && Canonical(Initial(n)) && Allocated(Initial(n)) == map[]
  {
    LaidTiles(n, 0);
    DistinctOrdersIsCanonical(Initial(n), n);
  }

  // ---- The bitmap ----

  /** The array of entries: one for each page, and the memory just past the last. */
  type Bitmap = seq<Entry>

  /** Only the first page of each block is meaningful; every other entry is stale, but not
      marked allocated. */
  ghost predicate Represents(m: Bitmap, n: nat, B: Blocks)
  {
    |m| == n + 1 && forall p :: 0 <= p < n ==> if p in B then m[p] == B[p] else !m[p].inUse
  }

  /** A bitmap being laid out: heads as in `B`, everything else zeroed. */
  ghost predicate Blank(m: Bitmap, n: nat, B: Blocks)
  {
    |m| == n + 1 && forall p :: 0 <= p < n ==> m[p] == if p in B then B[p] else Entry(false, 0)
  }

  /** One round of laying out writes the order of one head, or nothing. */
  lemma {:induction false} LayRound(m: Bitmap, n: nat, i: nat)
    requires i < 32 && n < UINT_LIMIT && Blank(m, n, Laid(n, i + 1))
    ensures var h := High(n, i + 1);
            if Bit(n, i) then
              && h < n && High(n, i) == h + Pow2(i) && m[h] == Entry(false, 0)
              && Blank(m[h := Entry(false, i)], n, Laid(n, i))
            else
              High(n, i) == h && Blank(m, n, Laid(n, i))
  {
    hide Laid, High, Bit;
    LaidStep(n, i);
  }

  lemma {:induction false} BlankRepresents(m: Bitmap, n: nat)
    requires n < UINT_LIMIT && Blank(m, n, Initial(n))
    ensures Represents(m, n, Initial(n))
  {
    InitialCorrect(n);
    assert forall p :: p in Initial(n) && Initial(n)[p].inUse ==> p in Allocated(Initial(n));
  }

  /** The block list, walked from page `i` by `index + (1 << order)`. */
  function Walk(m: Bitmap, n: nat, i: nat): seq<(nat, Entry)>
    requires n < |m|
    decreases n - i
  {
    if i >= n then [] else [(i, m[i])] + Walk(m, n, i + Pow2(m[i].order))
  }

  /** One round of the coalescing loop, read off the bitmap: the buddy is the page past the
      end or a block, and its entry tells whether the two merge. */
  lemma {:induction false} BuddyEntry(m: Bitmap, n: nat, B: Blocks, c: nat)
    requires Represents(m, n, B) && Tiling(B, n) && c in B && !B[c].inUse
    ensures c < n && m[c] == B[c]
    ensures var b := Buddy(c, B[c].order);
            b <= n && (b == n ==> !Mergeable(B, c)) && (b < n ==> (Mergeable(B, c) <==> !m[b].inUse && m[b].order == m[c].order))
  {
    assert BlockAt(B, n, c);
    assert n in B ==> BlockAt(B, n, n);
    BuddyIsBlock(B, n, c);
  }

  /** The two writes of one round of the splitting loop. */
  function HalveEntry(m: Bitmap, r: nat): Bitmap
    requires r < |m| && m[r].order > 0 && Buddy(r, m[r].order - 1) < |m|
  {
    var m' := m[r := m[r].(order := m[r].order - 1)];
    var b := Buddy(r, m'[r].order);
    m'[b := m'[b].(order := m'[r].order)]
  }

  /** The two writes of one round of the coalescing loop. */
  function JoinEntries(m: Bitmap, c: nat, b: nat): Bitmap
    requires c < |m| && b < |m|
  {
    var m' := m[b := m[b].(order := m[b].order + 1)];
    m'[c := m'[c].(order := m'[c].order + 1)]
  }

  lemma {:induction false} HalveRepresents(m: Bitmap, n: nat, B: Blocks, r: nat)
    requires Represents(m, n, B) && Tiling(B, n) && r in B && !B[r].inUse && B[r].order > 0
    ensures r < n && m[r] == B[r] && Buddy(r, m[r].order - 1) < n
    ensures Represents(HalveEntry(m, r), n, Split(B, r)) && Tiling(Split(B, r), n)
    ensures HalveEntry(m, r)[n] == m[n]
    ensures Split(B, r)[r] == Entry(false, B[r].order - 1)
  {
    SplitKeepsTiling(B, n, r);
    assert BlockAt(B, n, r);
  }

  lemma {:induction false} JoinRepresents(m: Bitmap, n: nat, B: Blocks, c: nat)
    requires Represents(m, n, B) && Tiling(B, n) && c in B && Mergeable(B, c)
    ensures var b := Buddy(c, B[c].order);
            c < n && b < n && Represents(JoinEntries(m, c, b), n, Merge(B, c)) && Tiling(Merge(B, c), n)
            && JoinEntries(m, c, b)[n] == m[n]
  {
    var b := Buddy(c, B[c].order);
    assert BlockAt(B, n, c) && BlockAt(B, n, b);
    BuddyPair(c, B[c].order);
    MergeKeepsTiling(B, n, c);
  }

  /** The merged block covers what its halves did, and coalescing goes on from it. */
  lemma {:induction false} MergeCovers(B: Blocks, n: nat, c: nat, i: nat)
    requires Tiling(B, n) && c in B && Mergeable(B, c) && c <= i < End(B, c)
    ensures var B', c' := Merge(B, c), MergedHead(B, c);
            && Tiling(B', n) && c' in B' && !B'[c'].inUse && c' <= i < End(B', c')
            && Coalesce(B', n, c') == Coalesce(B, n, c)
            && 0 <= n - Pow2(B'[c'].order) < n - Pow2(B[c].order)
  {
    assert BlockAt(B, n, c);
    BuddyPair(c, B[c].order);
    MergeKeepsTiling(B, n, c);
  }

  /** Orders fit the seven bits of their field, and `1 << order` fits an `int`. */
  lemma {:induction false} OrderFits(B: Blocks, n: nat, h: nat)
    requires Tiling(B, n) && n < INT_LIMIT && h in B
    ensures B[h].order < 31
  {
    assert BlockAt(B, n, h);
    Pow2Values();
    if B[h].order >= 31 {
      Pow2Monotone(31, B[h].order);
    }
  }

  /** The walk lists exactly the blocks from `i` on, by rising page, and ends at `n`. */
  lemma {:induction false} WalkListsBlocks(m: Bitmap, n: nat, B: Blocks, i: nat)
    requires Tiling(B, n) && Represents(m, n, B) && (i == n || i in B)
    ensures var w := Walk(m, n, i);
            && (forall j :: 0 <= j < |w| ==> i <= w[j].0 && w[j].0 in B && w[j].1 == B[w[j].0])
            && (forall j, l :: 0 <= j < l < |w| ==> w[j].0 < w[l].0)
            && (forall h :: h in B && i <= h ==> (h, B[h]) in w)
    decreases n - i
  {
    if i < n {
      assert BlockAt(B, n, i);
      var w, t := Walk(m, n, i), Walk(m, n, End(B, i));
      WalkListsBlocks(m, n, B, End(B, i));
      assert w == [(i, B[i])] + t;
      forall h | h in B && i <= h
        ensures (h, B[h]) in w
      {
        if h == i {
          assert w[0] == (i, B[i]);
        } else {
          assert Before(B, i, h);
          assert (h, B[h]) in t;
        }
      }
    } else {
      assert forall h :: h in B ==> BlockAt(B, n, h);
    }
  }

  lemma {:induction false} WalkDependsOnBlocks(m: Bitmap, m': Bitmap, n: nat, B: Blocks, i: nat)
    requires Tiling(B, n) && Represents(m, n, B) && Represents(m', n, B) && (i == n || i in B)
    ensures Walk(m, n, i) == Walk(m', n, i)
    decreases n - i
  {
    if i < n {
      assert BlockAt(B, n, i);
      WalkDependsOnBlocks(m, m', n, B, End(B, i));
    }
  }

  /** The block list walked from page 0 of a fully coalesced bitmap is a function of the
      allocated blocks alone, whatever the stale entries hold. */
  lemma {:induction false} CanonicalForm(m: Bitmap, B: Blocks, m': Bitmap, C: Blocks, n: nat)
    requires Represents(m, n, B) && Tiling(B, n) && Canonical(B)
    requires Represents(m', n, C) && Tiling(C, n) && Canonical(C)
    requires Allocated(B) == Allocated(C)
    ensures Walk(m, n, 0) == Walk(m', n, 0)
  {
    Uniqueness(B, C, n);
    WalkDependsOnBlocks(m, m', n, B, 0);
  }

  // ---- Runs ----

  datatype Op = Alloc(order: nat) | Release(head: nat)

  lemma {:induction false} BestFitExists(B: Blocks, k: nat, r: nat) returns (best: nat)
    requires r in B && !B[r].inUse && k <= B[r].order
    ensures IsBestFit(B, k, best)
    decreases B[r].order, r
  {
    if IsBestFit(B, k, r) {
      best := r;
    } else {
      var h :| h in B && !B[h].inUse && k <= B[h].order
               && !(B[r].order < B[h].order || (B[r].order == B[h].order && r <= h));
      best := BestFitExists(B, k, h);
    }
  }

  /** The block an allocation of order `k` takes, as the scan picks it. */
  ghost function BestFit(B: Blocks, k: nat): (r: nat)
    requires !NoFit(B, k)
    ensures IsBestFit(B, k, r)
  {
    var h :| h in B && !B[h].inUse && k <= B[h].order;
    assert exists r :: IsBestFit(B, k, r) by {
      var _ := BestFitExists(B, k, h);
    }
    var r :| IsBestFit(B, k, r);
    r
  }

  /** A caller frees only a block it was given and has not freed since. */
  ghost predicate Legal(B: Blocks, op: Op)
  {
    op.Release? ==> op.head in Allocated(B)
  }

  ghost function Apply(B: Blocks, n: nat, op: Op): Blocks
    requires Tiling(B, n) && Legal(B, op)
  {
    match op
    case Alloc(k) => if NoFit(B, k) then B else Carve(B, BestFit(B, k), k)
    case Release(h) => Free(B, n, h)
  }

  /** The block list before each operation of a run, and after the last. */
  ghost predicate IsRun(n: nat, ops: seq<Op>, states: seq<Blocks>)
  {
    && |states| == |ops| + 1
    && states[0] == Initial(n)
    && forall i :: 0 <= i < |ops| ==>
         Tiling(states[i], n) && Legal(states[i], ops[i]) && states[i + 1] == Apply(states[i], n, ops[i])
  }

  lemma {:induction false} ApplyCorrect(B: Blocks, n: nat, op: Op)
    requires Tiling(B, n) && Canonical(B) && Legal(B, op)
    ensures Tiling(Apply(B, n, op), n) && Canonical(Apply(B, n, op))
  {
    match op
    case Alloc(k) =>
      if !NoFit(B, k) {
        CarveCorrect(B, n, BestFit(B, k), k);
      }
    case Release(h) =>
      FreeCorrect(B, n, h);
  }

  /** Every state of every run is a fully coalesced tiling. */
  lemma {:induction false} RunStaysCanonical(n: nat, ops: seq<Op>, states: seq<Blocks>, i: nat)
    requires n < UINT_LIMIT && IsRun(n, ops, states) && i < |states|
    ensures Tiling(states[i], n) && Canonical(states[i])
  {
    if i == 0 {
      InitialCorrect(n);
    } else {
      RunStaysCanonical(n, ops, states, i - 1);
      ApplyCorrect(states[i - 1], n, ops[i - 1]);
    }
  }

  /** History does not show: two runs that leave the same blocks allocated leave the same
      block list. In particular a run that frees all it allocated is back where it began. */
  lemma {:induction false} RunsAgree(n: nat, ops: seq<Op>, states: seq<Blocks>, ops': seq<Op>, states': seq<Blocks>,
                                     i: nat, j: nat)
    requires n < UINT_LIMIT && IsRun(n, ops, states) && IsRun(n, ops', states')
    requires i < |states| && j < |states'|
    requires Allocated(states[i]) == Allocated(states'[j])
    ensures states[i] == states'[j]
    ensures Allocated(states[i]) == map[] ==> states[i] == Initial(n)
  {
    RunStaysCanonical(n, ops, states, i);
    RunStaysCanonical(n, ops', states', j);
    Uniqueness(states[i], states'[j], n);
    InitialCorrect(n);
    if Allocated(states[i]) == map[] {
      Uniqueness(states[i], Initial(n), n);
    }
  }

  // ---- The page past the end ----

  /** Freeing the block at `i` makes the last of the blocks laid down at creation whole. */
  ghost predicate CompletesLast(B: Blocks, n: nat, i: nat)
  {
    n > 0 &&
    var t := LowestBit(n);
    n - Pow2(t) <= i < n && Pow2(t) <= n && Clear(Allocated(B) - {i}, n - Pow2(t), t)
  }

  /** What the entry past the end must not be for freeing to stop there. */
  predicate StopsCoalescing(n: nat, past: Entry)
  {
    n == 0 || past.inUse || past.order != LowestBit(n)
  }

  /** A block whose buddy is the page past the end is the last block laid down, whole. */
  lemma {:induction false} BuddyPastEnd(B: Blocks, n: nat, c: nat)
    requires Tiling(B, n) && c in B && Buddy(c, B[c].order) == n
    ensures n > 0 && B[c].order == LowestBit(n) && c + Pow2(B[c].order) == n
  {
    assert BlockAt(B, n, c);
    BuddyPair(c, B[c].order);
    LowestBitOfEnd(c, B[c].order);
  }

  lemma {:induction false} ClearIgnoresFree(B: Blocks, A: Blocks, b: nat, k: nat)
    requires A == Allocated(B)
    ensures Clear(A, b, k) <==> Clear(B, b, k)
  {
    if Clear(A, b, k) {
      forall h | h in B && B[h].inUse
        ensures End(B, h) <= b || b + Pow2(k) <= h
      {
        assert h in A && End(A, h) == End(B, h);
      }
    }
    if Clear(B, b, k) {
      forall h | h in A && A[h].inUse
        ensures End(A, h) <= b || b + Pow2(k) <= h
      {
        assert h in B && End(A, h) == End(B, h);
      }
    }
  }

  /** The block that a free leaves around `i`, if its buddy is past the end, is the last one. */
  lemma {:induction false} PastEndCompletes(F: Blocks, B: Blocks, n: nat, i: nat)
    requires Tiling(F, n) && Tiling(B, n) && i in Allocated(B) && i < n && Allocated(F) == Allocated(B) - {i}
    requires Buddy(Owner(F, n, i), F[Owner(F, n, i)].order) == n
    ensures CompletesLast(B, n, i)
  {
    var c, t := Owner(F, n, i), LowestBit(n);
    LastInterval(n);
    BuddyPastEnd(F, n, c);
    assert !F[c].inUse by { StaysFree(F, B, n, i); }
    FitIsClear(F, n, t, c);
    ClearIgnoresFree(F, Allocated(B) - {i}, n - Pow2(t), t);
  }

  /** Conversely the last block, whole, is the one around `i`, and its buddy is past the end. */
  lemma {:induction false} CompletesPastEnd(F: Blocks, B: Blocks, n: nat, i: nat)
    requires Tiling(F, n) && Canonical(F) && i < n && Allocated(F) == Allocated(B) - {i} && CompletesLast(B, n, i)
    ensures Buddy(Owner(F, n, i), F[Owner(F, n, i)].order) == n
  {
    var t := LowestBit(n);
    LastInterval(n);
    var w := n - Pow2(t);
    ClearIgnoresFree(F, Allocated(B) - {i}, w, t);
    FreeStretch(F, n, w, t);
    var o := Owner(F, n, w);
    assert BlockAt(F, n, o);
    Nested(w, t, o, F[o].order);
    AlignedEnd(o, F[o].order);
    AlignedBelowLowestBit(n, F[o].order);
    OwnerUnique(F, n, i, o);
    UpperHalf(w, t);
  }

  /** Freeing `i` ends by looking at the entry past the end exactly when it makes the last
      block laid down whole: `c` is where the coalescing loop stops. */
  lemma {:induction false} LooksPastEnd(B: Blocks, n: nat, i: nat)
    requires Tiling(B, n) && Canonical(B) && i in Allocated(B) && i < n
    ensures Tiling(Free(B, n, i), n)
    ensures var c := Owner(Free(B, n, i), n, i);
            Buddy(c, Free(B, n, i)[c].order) == n <==> CompletesLast(B, n, i)
  {
    hide CompletesLast;
    FreeCorrect(B, n, i);
    var F := Free(B, n, i);
    if CompletesLast(B, n, i) {
      CompletesPastEnd(F, B, n, i);
    } else if Buddy(Owner(F, n, i), F[Owner(F, n, i)].order) == n {
      PastEndCompletes(F, B, n, i);
    }
  }

  /** So an entry past the end that `StopsCoalescing` is never taken for a buddy. */
  lemma {:induction false} PastEndIsNoBuddy(B: Blocks, n: nat, i: nat, C: Blocks, c: nat, past: Entry)
    requires Tiling(B, n) && Canonical(B) && i in Allocated(B) && i < n
    requires CompletesLast(B, n, i) ==> StopsCoalescing(n, past)
    requires Tiling(C, n) && c in C && c <= i < End(C, c) && Coalesce(C, n, c) == Free(B, n, i)
    requires Buddy(c, C[c].order) == n
    ensures past.inUse || past.order != C[c].order
  {
    assert n in C ==> BlockAt(C, n, n);
    LooksPastEnd(B, n, i);
    OwnerUnique(C, n, i, c);
    BuddyPastEnd(C, n, c);
  }

  /** But where freeing makes the last block whole and the entry past the end does not stop the
      loop, the loop merges that block, complete as it is, with the entry past the end: it
      writes there, and leaves a block that no tiling of the pages has. */
  lemma {:induction false} PastEndIsMerged(m: Bitmap, n: nat, B: Blocks, i: nat, C: Blocks)
    requires Tiling(B, n) && Canonical(B) && i in Allocated(B) && i < n && CompletesLast(B, n, i)
    requires Tiling(Free(B, n, i), n) && Represents(m, n, Free(B, n, i)) && !StopsCoalescing(n, m[n])
    ensures var c := Owner(Free(B, n, i), n, i);
            && c < n && Buddy(c, m[c].order) == n && !m[n].inUse && m[n].order == m[c].order
            && JoinEntries(m, c, n)[n] != m[n]
            && (Tiling(C, n) && c in C ==> !Represents(JoinEntries(m, c, n), n, C))
  {
    var F := Free(B, n, i);
    var c := Owner(F, n, i);
    LooksPastEnd(B, n, i);
    BuddyPastEnd(F, n, c);
    assert BlockAt(F, n, c) && m[c] == F[c];
    assert c in C && Tiling(C, n) ==> BlockAt(C, n, c);
  }

  /** One page, allocated and freed, with zeroed memory after the bitmap. */
  lemma PastEndExample()
    ensures var B := map[0 := Entry(true, 0)];
            && Tiling(B, 1) && Canonical(B) && 0 in Allocated(B)
            && CompletesLast(B, 1, 0) && !StopsCoalescing(1, Entry(false, 0))
  {
    var B: Blocks := map[0 := Entry(true, 0)];
    assert BlockAt(B, 1, 0);
  }

  /** What one round of the coalescing loop reads, at an index at most `n`: below `n` it decides
      the round as the block list would; at `n`, coalescing is already complete. */
  lemma {:induction false} RoundReads(m: Bitmap, n: nat, B: Blocks, i: nat, C: Blocks, c: nat)
    requires Tiling(B, n) && Canonical(B) && i in Allocated(B) && i < n
    requires Represents(m, n, C) && Tiling(C, n) && c in C && !C[c].inUse && c <= i < End(C, c)
    requires Coalesce(C, n, c) == Free(B, n, i)
    ensures c < n && m[c] == C[c] && Buddy(c, m[c].order) <= n
    ensures var b := Buddy(c, m[c].order);
            if b < n then
              && (Mergeable(C, c) <==> !m[b].inUse && m[b].order == m[c].order)
              && (!Mergeable(C, c) ==> C == Free(B, n, i) && !CompletesLast(B, n, i))
            else
              C == Free(B, n, i) && CompletesLast(B, n, i) && m[c].order == LowestBit(n)
  {
    BuddyEntry(m, n, C, c);
    LooksPastEnd(B, n, i);
    OwnerUnique(C, n, i, c);
    if Buddy(c, m[c].order) == n {
      BuddyPastEnd(C, n, c);
    }
  }

  lemma {:induction false} StaysFree(F: Blocks, B: Blocks, n: nat, i: nat)
    requires Tiling(F, n) && Tiling(B, n) && i in B && i < n && Allocated(F) == Allocated(B) - {i}
    ensures !F[Owner(F, n, i)].inUse
  {
    var c := Owner(F, n, i);
    assert c in B && c < i ==> Before(B, c, i);
    assert F[c].inUse ==> c in Allocated(F);
  }
}
