/** Who owns which pages: every allocated block has exactly one owner, a live buffer or a
    producer on its way to one, and holds that owner's bytes. */
module VmqPages {
  import opened Arithmetic
  import opened Dyadic
  import opened BuddyBlocks
  import opened BuddyLayout
  import opened BuddyAllocation
  import opened VmqState

  datatype Holder = InBuffer(id: BufferId) | WithProducer(producer: nat)

  datatype Span = Span(offset: nat, size: nat)

  function Holders(s: State): set<Holder>
  {
    (set id | id in s.buffers :: InBuffer(id)) + (set j | j in s.producers && s.producers[j].Paged? :: WithProducer(j))
  }

  function SpanOf(s: State, hd: Holder): Span
    requires hd in Holders(s)
  {
    match hd
    case InBuffer(id) => Span(s.buffers[id].offset, s.buffers[id].size)
    case WithProducer(j) => Span(s.producers[j].page * s.pageSize, s.producers[j].size)
  }

  function Spans(s: State): map<Holder, Span>
  {
    map hd | hd in Holders(s) :: SpanOf(s, hd)
  }

  function PageNo(ps: nat, x: Span): nat
    requires ps > 0
  {
    x.offset / ps
  }

  /** `x` starts at an allocated block and fits in it. */
  predicate Fits(ps: nat, B: Blocks, x: Span)
    requires ps > 0
  {
    var p := PageNo(ps, x);
    x.offset == p * ps && p in B && B[p].inUse && x.size <= Pow2(B[p].order) * ps
  }

  ghost predicate Owns(n: nat, ps: nat, B: Blocks, M: map<Holder, Span>)
    requires ps > 0
  {
    && Tiling(B, n) && Canonical(B)
    && (forall h :: h in M ==> Fits(ps, B, M[h]))
    && (forall g, h :: g in M && h in M && PageNo(ps, M[g]) == PageNo(ps, M[h]) ==> g == h)
    && (forall p :: p in B && B[p].inUse ==> exists h :: h in M && PageNo(ps, M[h]) == p)
  }

  lemma BytesBefore(p: nat, w: nat, size: nat, ps: nat, q: nat)
    requires size <= w * ps && p + w <= q
    ensures p * ps + size <= q * ps
  {
    MulMonotone(p + w, q, ps);
    assert (p + w) * ps == p * ps + w * ps;
  }

  /** Taking a page for `h` makes it the owner of just that block. */
  lemma {:induction false} CarveOwns(n: nat, ps: nat, B: Blocks, M: map<Holder, Span>, h: Holder, r: nat, k: nat, size: nat)
    requires ps > 0 && Owns(n, ps, B, M) && h !in M
    requires r in B && !B[r].inUse && k <= B[r].order && size <= Pow2(k) * ps
    ensures Owns(n, ps, Carve(B, r, k), M[h := Span(r * ps, size)])
  {
    CarveCorrect(B, n, r, k);
    DivOfMul(r, ps);
    var B', M' := Carve(B, r, k), M[h := Span(r * ps, size)];
    var A, A' := Allocated(B), Allocated(B');
    forall g | g in M'
      ensures Fits(ps, B', M'[g])
    {
      if g != h {
        var p := PageNo(ps, M[g]);
        assert p in A && A[p] == A'[p] == B'[p];
      } else {
        assert A'[r] == B'[r];
      }
    }
    forall p | p in B' && B'[p].inUse
      ensures exists g :: g in M' && PageNo(ps, M'[g]) == p
    {
      assert p in A';
      if p == r {
        assert h in M' && PageNo(ps, M'[h]) == p;
      } else {
        assert p in A && B[p].inUse;
        var g :| g in M && PageNo(ps, M[g]) == p;
        assert g in M' && PageNo(ps, M'[g]) == p;
      }
    }
    forall f, g | f in M' && g in M' && PageNo(ps, M'[f]) == PageNo(ps, M'[g])
      ensures f == g
    {
      assert f in M ==> PageNo(ps, M[f]) in A;
      assert g in M ==> PageNo(ps, M[g]) in A;
    }
  }

  /** Freeing the page of `h` leaves every other owner with its block. */
  lemma {:induction false} FreeOwns(n: nat, ps: nat, B: Blocks, M: map<Holder, Span>, h: Holder)
    requires ps > 0 && Owns(n, ps, B, M) && h in M
    ensures PageNo(ps, M[h]) in Allocated(B)
    ensures Owns(n, ps, Free(B, n, PageNo(ps, M[h])), M - {h})
  {
    var r := PageNo(ps, M[h]);
    FreeCorrect(B, n, r);
    var B', M' := Free(B, n, r), M - {h};
    var A, A' := Allocated(B), Allocated(B');
    forall g | g in M'
      ensures Fits(ps, B', M'[g])
    {
      var p := PageNo(ps, M[g]);
      assert p in A && p != r;
      assert p in A' && A'[p] == A[p] == B'[p];
    }
    forall p | p in B' && B'[p].inUse
      ensures exists g :: g in M' && PageNo(ps, M'[g]) == p
    {
      assert p in A' && p in A && p != r && B[p].inUse;
      var g :| g in M && PageNo(ps, M[g]) == p;
      assert g in M' && PageNo(ps, M'[g]) == p;
    }
  }

  /** Handing the page from one owner to another. */
  lemma {:induction false} RenameOwns(n: nat, ps: nat, B: Blocks, M: map<Holder, Span>, h: Holder, h': Holder)
    requires ps > 0 && Owns(n, ps, B, M) && h in M && h' !in M
    ensures Owns(n, ps, B, (M - {h})[h' := M[h]])
  {
    var M' := (M - {h})[h' := M[h]];
    forall p | p in B && B[p].inUse
      ensures exists g :: g in M' && PageNo(ps, M'[g]) == p
    {
      var g :| g in M && PageNo(ps, M[g]) == p;
      var g' := if g == h then h' else g;
      assert g' in M' && PageNo(ps, M'[g']) == p;
    }
  }

  /** Owned bytes lie inside the shared memory. */
  lemma {:induction false} SpanInside(size: nat, n: nat, ps: nat, B: Blocks, M: map<Holder, Span>, h: Holder)
    requires ps > 0 && Owns(n, ps, B, M) && h in M && n == size / ps
    ensures M[h].offset + M[h].size <= size
  {
    var p := PageNo(ps, M[h]);
    assert Fits(ps, B, M[h]);
    assert BlockAt(B, n, p);
    BytesBefore(p, Pow2(B[p].order), M[h].size, ps, n);
    DivBounds(size, ps);
  }

  /** Two owners' bytes are disjoint. */
  lemma {:induction false} SpansDisjoint(n: nat, ps: nat, B: Blocks, M: map<Holder, Span>, g: Holder, h: Holder)
    requires ps > 0 && Owns(n, ps, B, M) && g in M && h in M && g != h
    ensures M[g].offset + M[g].size <= M[h].offset || M[h].offset + M[h].size <= M[g].offset
  {
    var p, q := PageNo(ps, M[g]), PageNo(ps, M[h]);
    assert Fits(ps, B, M[g]) && Fits(ps, B, M[h]);
    assert p != q;
    if p < q {
      assert Before(B, p, q);
      BytesBefore(p, Pow2(B[p].order), M[g].size, ps, q);
    } else {
      assert Before(B, q, p);
      BytesBefore(q, Pow2(B[q].order), M[h].size, ps, p);
    }
  }

  /** With no owner left, the pages are back as a new allocator has them. */
  lemma {:induction false} NoOwners(n: nat, ps: nat, B: Blocks, M: map<Holder, Span>)
    requires ps > 0 && Owns(n, ps, B, M) && M == map[] && n < UINT_LIMIT
    ensures B == Initial(n)
  {
    InitialCorrect(n);
    assert Allocated(B) == map[];
    Uniqueness(B, Initial(n), n);
  }
}
