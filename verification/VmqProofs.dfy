/** What every step of the manager keeps, and what follows for every run. */
module VmqProofs {
  import opened Arithmetic
  import opened Dyadic
  import opened BuddyBlocks
  import BuddyLayout
  import opened BuddyAllocation
  import opened VmqState
  import opened VmqPages
  import opened Options
  import opened Sequences

  // ---- The invariant ----

  /** All references to buffers: queued items and held ones. */
  function Refs(cs: seq<Consumer>): multiset<BufferId>
  {
    if cs == [] then multiset{} else Refs(cs[..|cs| - 1]) + multiset(Held(cs[|cs| - 1]))
  }

  /** `refcnt` is exact. */
  ghost predicate RefsOk(bufs: map<BufferId, Buffer>, refs: multiset<BufferId>)
  {
    && (forall id :: id in refs ==> id in bufs)
    && (forall id :: id in bufs ==> bufs[id].refcnt == refs[id])
  }

  ghost predicate HasHolder(prods: map<nat, Producer>, id: BufferId)
  {
    exists j :: j in prods && prods[j] == Holding(id)
  }

  /** A buffer nobody refers to is held by exactly one producer; a buffer being published
      has one reference for each consumer served. */
  ghost predicate RolesOk(bufs: map<BufferId, Buffer>, prods: map<nat, Producer>, pub: Option<Publish>, consumers: nat)
  {
    && (forall j :: j in prods && prods[j].Holding? ==>
          prods[j].buffer in bufs && (pub.None? || pub.value.producer != j ==> bufs[prods[j].buffer].refcnt == 0))
    && (forall j, k :: j in prods && k in prods && prods[j].Holding? && prods[j] == prods[k] ==> j == k)
    && (forall id :: id in bufs && bufs[id].refcnt == 0 ==> HasHolder(prods, id))
    && (pub.Some? ==>
          && pub.value.producer in prods && prods[pub.value.producer] == Holding(pub.value.buffer)
          && bufs[pub.value.buffer].refcnt == pub.value.next <= consumers)
  }

  /** Buffer names are allocation numbers, and the counters count live buffers. */
  ghost predicate CountsOk(bufs: map<BufferId, Buffer>, itemCount: int, allocCount: nat, removeCount: int)
  {
    && itemCount == |bufs| && allocCount - removeCount == |bufs|
    && (forall id :: id in bufs ==> id < allocCount)
  }

  /** A buffer is published at most once, and not before its producer's putbuf. */
  ghost predicate PublishedOk(published: seq<BufferId>, allocCount: nat, prods: map<nat, Producer>, pub: Option<Publish>)
  {
    && (forall i, j :: 0 <= i < j < |published| ==> published[i] != published[j])
    && (forall i :: 0 <= i < |published| ==> published[i] < allocCount)
    && (forall j :: j in prods && prods[j].Holding? && prods[j].buffer in published ==>
          pub.Some? && pub.value.producer == j)
    && (pub.Some? ==> published != [] && published[|published| - 1] == pub.value.buffer)
  }

  /** How many publications have reached consumer `i`. */
  function Reached(published: seq<BufferId>, pub: Option<Publish>, i: nat): int
  {
    if pub.Some? && pub.value.next <= i then |published| - 1 else |published|
  }

  /** What a consumer has taken, and then what is queued for it, is what was published since
      it was set up. */
  ghost predicate InOrder(c: Consumer, published: seq<BufferId>, upTo: int)
  {
    && c.start <= upTo <= |published|
    && c.taken + c.items == published[c.start..upTo]
    && (c.item.Some? ==> c.taken != [] && c.taken[|c.taken| - 1] == c.item.value)
  }

  ghost predicate OrderOk(cs: seq<Consumer>, published: seq<BufferId>, pub: Option<Publish>)
  {
    forall i :: 0 <= i < |cs| ==> InOrder(cs[i], published, Reached(published, pub, i))
  }

  /** A published buffer still holds the bytes it had at putbuf. */
  ghost predicate Unchanged(mem: seq<Byte>, b: Buffer, bytes: seq<Byte>)
  {
    b.offset + b.size <= |mem| && mem[b.offset..b.offset + b.size] == bytes
  }

  ghost predicate DataOk(mem: seq<Byte>, bufs: map<BufferId, Buffer>, published: seq<BufferId>,
                         contents: map<BufferId, seq<Byte>>)
  {
    forall id :: id in bufs && id in published ==> id in contents && Unchanged(mem, bufs[id], contents[id])
  }

  /** What producers ask for fits the shared memory. */
  ghost predicate SizesOk(prods: map<nat, Producer>, size: nat)
  {
    forall j :: j in prods && !prods[j].Idle? && !prods[j].Holding? ==> 0 < prods[j].size <= size
  }

  /** The invariant, with `extra` references yet to be dropped by a close in progress. */
  ghost predicate InvWith(s: State, extra: multiset<BufferId>)
  {
    && MIN_PAGE_SIZE <= s.pageSize < INT_LIMIT && s.size < INT_LIMIT && |s.mem| == s.size
    && Owns(NrPages(s), s.pageSize, s.blocks, Spans(s))
    && RefsOk(s.buffers, Refs(s.consumers) + extra)
    && RolesOk(s.buffers, s.producers, s.publishing, |s.consumers|)
    && CountsOk(s.buffers, s.itemCount, s.allocCount, s.removeCount)
    && PublishedOk(s.published, s.allocCount, s.producers, s.publishing)
    && OrderOk(s.consumers, s.published, s.publishing)
    && DataOk(s.mem, s.buffers, s.published, s.contents)
    && SizesOk(s.producers, s.size)
  }

  ghost predicate Inv(s: State)
  {
    InvWith(s, multiset{})
  }

  // ---- References ----

  lemma {:induction false} RefsAppend(cs: seq<Consumer>, c: Consumer)
    ensures Refs(cs + [c]) == Refs(cs) + multiset(Held(c))
  {
    assert (cs + [c])[..|cs|] == cs;
  }

  lemma {:induction false} RefsWithout(cs: seq<Consumer>, i: nat)
    requires i < |cs|
    ensures Refs(cs) == Refs(Without(cs, i)) + multiset(Held(cs[i]))
  {
    hide Held;
    var n := |cs| - 1;
    var last := multiset(Held(cs[n]));
    if i == n {
      assert Without(cs, i) == cs[..n];
    } else {
      var w := Without(cs[..n], i);
      RefsWithout(cs[..n], i);
      assert Without(cs, i) == w + [cs[n]];
      RefsAppend(w, cs[n]);
      assert Refs(cs) == Refs(cs[..n]) + last;
      assert cs[..n][i] == cs[i];
    }
  }

  lemma {:induction false} RefsUpdate(cs: seq<Consumer>, i: nat, c: Consumer)
    requires i < |cs|
    ensures Refs(cs[i := c]) == Refs(Without(cs, i)) + multiset(Held(c))
  {
    RefsWithout(cs[i := c], i);
    assert Without(cs[i := c], i) == Without(cs, i);
  }

  lemma {:induction false} HeldQueued(c: Consumer, id: BufferId)
    ensures multiset(Held(c.(items := c.items + [id]))) == multiset(Held(c)) + multiset{id}
  {
    assert Held(c.(items := c.items + [id])) == Held(c) + [id];
  }

  lemma {:induction false} HeldTaken(c: Consumer, taken: seq<BufferId>)
    requires c.item.None? && c.items != []
    ensures Held(c.(item := Some(c.items[0]), items := c.items[1..], taken := taken)) == Held(c)
  {
    assert c.items == [c.items[0]] + c.items[1..];
  }

  lemma {:induction false} HeldReturned(c: Consumer)
    requires c.item.Some?
    ensures multiset(Held(c)) == multiset(Held(c.(item := None))) + multiset{c.item.value}
  {
    assert Held(c) == [c.item.value] + Held(c.(item := None));
  }

  // ---- What the invariant says of a producer's buffer ----

  lemma {:induction false} HeldBuffer(bufs: map<BufferId, Buffer>, prods: map<nat, Producer>, pub: Option<Publish>,
                                      consumers: nat, published: seq<BufferId>, allocCount: nat, j: nat)
    requires RolesOk(bufs, prods, pub, consumers) && PublishedOk(published, allocCount, prods, pub)
    requires j in prods && prods[j].Holding? && (pub.Some? ==> pub.value.producer != j)
    ensures prods[j].buffer in bufs && bufs[prods[j].buffer].refcnt == 0 && prods[j].buffer !in published
  {
  }

  lemma {:induction false} PublishedBuffer(bufs: map<BufferId, Buffer>, prods: map<nat, Producer>, p: Publish,
                                           consumers: nat, published: seq<BufferId>, allocCount: nat)
    requires RolesOk(bufs, prods, Some(p), consumers) && PublishedOk(published, allocCount, prods, Some(p))
    ensures p.producer in prods && prods[p.producer] == Holding(p.buffer) && p.buffer in bufs
    ensures bufs[p.buffer].refcnt == p.next <= consumers
    ensures published != [] && published[|published| - 1] == p.buffer
  {
  }

  // ---- Dropping a buffer ----

  lemma {:induction false} SpansOfRemoved(s: State, s': State, id: BufferId)
    requires id in s.buffers && s'.buffers == s.buffers - {id}
    requires s'.producers == s.producers && s'.pageSize == s.pageSize
    ensures Spans(s') == Spans(s) - {InBuffer(id)}
  {
  }

  /** Removing a live buffer that is on its way out frees exactly its own page. */
  lemma {:induction false} RemoveKeepsPages(s: State, id: BufferId)
    requires s.pageSize > 0 && Owns(NrPages(s), s.pageSize, s.blocks, Spans(s)) && id in s.buffers
    ensures Removable(s, id) && BufferPage(s, id) in Allocated(s.blocks)
    ensures Owns(NrPages(s), s.pageSize, RemoveBuffer(s, id).blocks, Spans(RemoveBuffer(s, id)))
  {
    var h := InBuffer(id);
    assert h in Spans(s) && Spans(s)[h] == Span(s.buffers[id].offset, s.buffers[id].size);
    FreeOwns(NrPages(s), s.pageSize, s.blocks, Spans(s), h);
    SpansOfRemoved(s, RemoveBuffer(s, id), id);
  }

  lemma {:induction false} SpansSame(s: State, s': State)
    requires s'.producers == s.producers && s'.pageSize == s.pageSize && s'.buffers.Keys == s.buffers.Keys
    requires forall id :: id in s.buffers ==>
               s'.buffers[id].offset == s.buffers[id].offset && s'.buffers[id].size == s.buffers[id].size
    ensures Spans(s') == Spans(s)
  {
    assert Holders(s') == Holders(s);
    assert forall h :: h in Spans(s) ==> Spans(s')[h] == Spans(s)[h];
  }

  /** The buffers after one reference to `id` is dropped. */
  function Dropped(bufs: map<BufferId, Buffer>, id: BufferId): map<BufferId, Buffer>
    requires id in bufs && bufs[id].refcnt > 0
  {
    if bufs[id].refcnt == 1 then bufs - {id} else bufs[id := bufs[id].(refcnt := bufs[id].refcnt - 1)]
  }

  lemma {:induction false} DropKeepsRefs(bufs: map<BufferId, Buffer>, refs: multiset<BufferId>, id: BufferId)
    requires RefsOk(bufs, refs + multiset{id})
    ensures id in bufs && bufs[id].refcnt > 0 && RefsOk(Dropped(bufs, id), refs)
  {
    assert id in refs + multiset{id};
  }

  lemma {:induction false} DropKeepsRoles(bufs: map<BufferId, Buffer>, prods: map<nat, Producer>, consumers: nat, id: BufferId)
    requires RolesOk(bufs, prods, None, consumers) && id in bufs && bufs[id].refcnt > 0
    ensures RolesOk(Dropped(bufs, id), prods, None, consumers)
  {
  }

  lemma {:induction false} DropKeepsData(mem: seq<Byte>, bufs: map<BufferId, Buffer>, published: seq<BufferId>,
                                         contents: map<BufferId, seq<Byte>>, id: BufferId)
    requires DataOk(mem, bufs, published, contents) && id in bufs && bufs[id].refcnt > 0
    ensures DataOk(mem, Dropped(bufs, id), published, contents)
  {
  }

  lemma {:induction false} RemoveKeepsCounts(bufs: map<BufferId, Buffer>, itemCount: int, allocCount: nat, removeCount: int, id: BufferId)
    requires CountsOk(bufs, itemCount, allocCount, removeCount) && id in bufs
    ensures CountsOk(bufs - {id}, itemCount - 1, allocCount, removeCount + 1)
  {
    assert (bufs - {id}).Keys == bufs.Keys - {id};
    assert |bufs - {id}| == |bufs.Keys - {id}|;
  }

  lemma {:induction false} UpdateKeepsCounts(bufs: map<BufferId, Buffer>, itemCount: int, allocCount: nat, removeCount: int,
                                             id: BufferId, b: Buffer)
    requires CountsOk(bufs, itemCount, allocCount, removeCount) && id in bufs
    ensures CountsOk(bufs[id := b], itemCount, allocCount, removeCount)
  {
    assert bufs[id := b].Keys == bufs.Keys;
    assert |bufs[id := b]| == |bufs.Keys|;
  }

  lemma {:induction false} UnrefKeeps(s: State, id: BufferId, extra: multiset<BufferId>)
    requires InvWith(s, extra + multiset{id}) && s.publishing.None?
    ensures Unrefable(s, id)
    ensures InvWith(Unref(s, id), extra) && Unref(s, id).publishing.None?
  {
    hide RefsOk, RolesOk, CountsOk, PublishedOk, OrderOk, DataOk, SizesOk, Owns, Refs, Spans, Removable, Free;
    var refs := Refs(s.consumers) + extra;
    assert Refs(s.consumers) + (extra + multiset{id}) == refs + multiset{id};
    DropKeepsRefs(s.buffers, refs, id);
    DropKeepsRoles(s.buffers, s.producers, |s.consumers|, id);
    DropKeepsData(s.mem, s.buffers, s.published, s.contents, id);
    RemoveKeepsPages(s, id);
    var b := s.buffers[id];
    if b.refcnt == 1 {
      RemoveKeepsCounts(s.buffers, s.itemCount, s.allocCount, s.removeCount, id);
    } else {
      UpdateKeepsCounts(s.buffers, s.itemCount, s.allocCount, s.removeCount, id, b.(refcnt := b.refcnt - 1));
      SpansSame(s, Unref(s, id));
    }
  }

  lemma {:induction false} UnrefAllKeeps(s: State, ids: seq<BufferId>)
    requires InvWith(s, multiset(ids)) && s.publishing.None?
    ensures AllUnrefable(s, ids) && Inv(UnrefAll(s, ids))
    decreases |ids|
  {
    hide RefsOk, RolesOk, CountsOk, PublishedOk, OrderOk, DataOk, Owns, Refs, Unrefable, Unref;
    if ids != [] {
      assert ids == [ids[0]] + ids[1..];
      assert multiset(ids) == multiset(ids[1..]) + multiset{ids[0]};
      UnrefKeeps(s, ids[0], multiset(ids[1..]));
      UnrefAllKeeps(Unref(s, ids[0]), ids[1..]);
    }
  }

  // ---- Steps of producers on their way to a buffer ----

  lemma {:induction false} NotHoldingKeepsRoles(bufs: map<BufferId, Buffer>, prods: map<nat, Producer>, pub: Option<Publish>,
                                                consumers: nat, published: seq<BufferId>, allocCount: nat, j: nat, p: Producer)
    requires RolesOk(bufs, prods, pub, consumers) && PublishedOk(published, allocCount, prods, pub)
    requires (j in prods ==> !prods[j].Holding?) && !p.Holding?
    ensures RolesOk(bufs, prods[j := p], pub, consumers) && PublishedOk(published, allocCount, prods[j := p], pub)
  {
    var prods' := prods[j := p];
    forall id | id in bufs && bufs[id].refcnt == 0
      ensures HasHolder(prods', id)
    {
      assert HasHolder(prods, id);
      var k :| k in prods && prods[k] == Holding(id);
      assert k in prods' && prods'[k] == Holding(id);
    }
  }

  lemma {:induction false} SpansUnpaged(s: State, s': State, j: nat, p: Producer)
    requires s'.buffers == s.buffers && s'.pageSize == s.pageSize && s'.producers == s.producers[j := p]
    requires (j in s.producers ==> !s.producers[j].Paged?) && !p.Paged?
    ensures Spans(s') == Spans(s)
  {
    assert Holders(s') == Holders(s);
    assert forall h :: h in Spans(s) ==> Spans(s')[h] == Spans(s)[h];
  }

  lemma {:induction false} MoveKeepsSizes(prods: map<nat, Producer>, size: nat, j: nat, p: Producer)
    requires SizesOk(prods, size) && !p.Holding? && (!p.Idle? ==> 0 < p.size <= size)
    ensures SizesOk(prods[j := p], size)
  {
  }

  lemma {:induction false} WaiterSize(prods: map<nat, Producer>, size: nat, j: nat)
    requires SizesOk(prods, size) && j in prods && !prods[j].Holding? && !prods[j].Idle?
    ensures 0 < prods[j].size <= size
  {
  }

  /** A producer moves between states in which it owns nothing. */
  lemma {:induction false} MoveKeeps(s: State, s': State, j: nat, p: Producer)
    requires Inv(s) && s' == s.(producers := s.producers[j := p], fullCount := s'.fullCount)
    requires (j in s.producers ==> !s.producers[j].Holding? && !s.producers[j].Paged?) && !p.Holding? && !p.Paged?
    requires !p.Idle? ==> 0 < p.size <= s.size
    ensures Inv(s')
  {
    hide RefsOk, RolesOk, CountsOk, PublishedOk, OrderOk, DataOk, Owns, Refs, SizesOk, Spans, Held;
    SpansUnpaged(s, s', j, p);
    MoveKeepsSizes(s.producers, s.size, j, p);
    NotHoldingKeepsRoles(s.buffers, s.producers, s.publishing, |s.consumers|, s.published, s.allocCount, j, p);
  }

  lemma {:induction false} SpansTaken(s: State, s': State, j: nat, size: nat, page: nat)
    requires s'.buffers == s.buffers && s'.pageSize == s.pageSize && s'.producers == s.producers[j := Paged(size, page)]
    requires j in s.producers && !s.producers[j].Paged?
    ensures WithProducer(j) !in Spans(s)
    ensures Spans(s') == Spans(s)[WithProducer(j) := Span(page * s.pageSize, size)]
  {
    assert Holders(s') == Holders(s) + {WithProducer(j)};
  }

  lemma {:induction false} PageKeeps(s: State, j: nat, page: nat)
    requires Inv(s) && Enabled(s, Page(j, page))
    ensures Inv(Apply(s, Page(j, page)))
  {
    hide RefsOk, RolesOk, CountsOk, PublishedOk, OrderOk, DataOk, Owns, Refs, SizesOk, Spans, OrderFor, Carve;
    var s' := Apply(s, Page(j, page));
    var size := s.producers[j].size;
    var k := OrderFor(size, s.pageSize);
    WaiterSize(s.producers, s.size, j);
    MoveKeepsSizes(s.producers, s.size, j, Paged(size, page));
    NotHoldingKeepsRoles(s.buffers, s.producers, s.publishing, |s.consumers|, s.published, s.allocCount, j, Paged(size, page));
    OrderForLeast(size, s.pageSize, k);
    SpansTaken(s, s', j, size, page);
    CarveOwns(NrPages(s), s.pageSize, s.blocks, Spans(s), WithProducer(j), page, k, size);
  }

  lemma {:induction false} SpansCommitted(s: State, s': State, j: nat, id: BufferId)
    requires j in s.producers && s.producers[j].Paged? && id !in s.buffers && s'.pageSize == s.pageSize
    requires s'.producers == s.producers[j := Holding(id)]
    requires s'.buffers == s.buffers[id := Buffer(s.producers[j].page * s.pageSize, s.producers[j].size, 0)]
    ensures WithProducer(j) in Spans(s) && InBuffer(id) !in Spans(s)
    ensures Spans(s') == (Spans(s) - {WithProducer(j)})[InBuffer(id) := Spans(s)[WithProducer(j)]]
  {
    assert Holders(s') == Holders(s) - {WithProducer(j)} + {InBuffer(id)};
  }

  lemma {:induction false} CommitKeepsRoles(bufs: map<BufferId, Buffer>, prods: map<nat, Producer>, consumers: nat,
                                            refs: multiset<BufferId>, j: nat, id: BufferId, b: Buffer)
    requires RolesOk(bufs, prods, None, consumers) && RefsOk(bufs, refs) && id !in bufs && b.refcnt == 0
    requires j in prods && !prods[j].Holding?
    ensures RolesOk(bufs[id := b], prods[j := Holding(id)], None, consumers) && RefsOk(bufs[id := b], refs)
  {
    var bufs', prods' := bufs[id := b], prods[j := Holding(id)];
    assert prods'[j] == Holding(id);
    forall x | x in bufs' && bufs'[x].refcnt == 0
      ensures HasHolder(prods', x)
    {
      if x != id {
        assert HasHolder(prods, x);
        var k :| k in prods && prods[k] == Holding(x);
        assert k in prods' && prods'[k] == Holding(x);
      }
    }
  }

  lemma {:induction false} CommitKeepsCounts(bufs: map<BufferId, Buffer>, itemCount: int, allocCount: nat, removeCount: int, b: Buffer)
    requires CountsOk(bufs, itemCount, allocCount, removeCount)
    ensures allocCount !in bufs && CountsOk(bufs[allocCount := b], itemCount + 1, allocCount + 1, removeCount)
  {
    assert bufs[allocCount := b].Keys == bufs.Keys + {allocCount};
    assert |bufs[allocCount := b]| == |bufs.Keys + {allocCount}|;
  }

  lemma {:induction false} CommitKeepsRest(mem: seq<Byte>, bufs: map<BufferId, Buffer>, prods: map<nat, Producer>,
                                           published: seq<BufferId>, contents: map<BufferId, seq<Byte>>, allocCount: nat,
                                           size: nat, j: nat, b: Buffer)
    requires PublishedOk(published, allocCount, prods, None) && DataOk(mem, bufs, published, contents) && SizesOk(prods, size)
    ensures PublishedOk(published, allocCount + 1, prods[j := Holding(allocCount)], None)
    ensures DataOk(mem, bufs[allocCount := b], published, contents)
    ensures SizesOk(prods[j := Holding(allocCount)], size)
  {
    assert allocCount !in published;
  }

  lemma {:induction false} CommitKeepsPages(s: State, s': State, j: nat, id: BufferId)
    requires s.pageSize > 0 && Owns(NrPages(s), s.pageSize, s.blocks, Spans(s))
    requires j in s.producers && s.producers[j].Paged? && id !in s.buffers && s'.pageSize == s.pageSize
    requires s'.size == s.size && s'.blocks == s.blocks && s'.producers == s.producers[j := Holding(id)]
    requires s'.buffers == s.buffers[id := Buffer(s.producers[j].page * s.pageSize, s.producers[j].size, 0)]
    ensures Owns(NrPages(s'), s'.pageSize, s'.blocks, Spans(s'))
  {
    hide Owns, Spans;
    SpansCommitted(s, s', j, id);
    RenameOwns(NrPages(s), s.pageSize, s.blocks, Spans(s), WithProducer(j), InBuffer(id));
  }

  lemma {:induction false} CommitKeeps(s: State, j: nat)
    requires Inv(s) && Enabled(s, Commit(j))
    ensures Inv(Apply(s, Commit(j)))
  {
    hide RefsOk, RolesOk, CountsOk, PublishedOk, OrderOk, DataOk, Owns, Refs, SizesOk, Spans, Held, NrPages;
    var s', id, p := Apply(s, Commit(j)), s.allocCount, s.producers[j];
    var b := s'.buffers[id];
    CommitKeepsCounts(s.buffers, s.itemCount, s.allocCount, s.removeCount, b);
    CommitKeepsRoles(s.buffers, s.producers, |s.consumers|, Refs(s.consumers) + multiset{}, j, id, b);
    CommitKeepsRest(s.mem, s.buffers, s.producers, s.published, s.contents, s.allocCount, s.size, j, b);
    CommitKeepsPages(s, s', j, id);
  }

  // ---- Filling and publishing a buffer ----

  lemma {:induction false} BufferInside(s: State, id: BufferId)
    requires s.pageSize > 0 && Owns(NrPages(s), s.pageSize, s.blocks, Spans(s)) && id in s.buffers
    ensures s.buffers[id].offset + s.buffers[id].size <= s.size
  {
    assert InBuffer(id) in Spans(s);
    SpanInside(s.size, NrPages(s), s.pageSize, s.blocks, Spans(s), InBuffer(id));
  }

  /** Live buffers occupy disjoint ranges of the shared memory. */
  lemma {:induction false} BuffersDisjoint(s: State, id: BufferId, other: BufferId)
    requires s.pageSize > 0 && Owns(NrPages(s), s.pageSize, s.blocks, Spans(s))
    requires id in s.buffers && other in s.buffers && id != other
    ensures var a, b := s.buffers[id], s.buffers[other];
            a.offset + a.size <= b.offset || b.offset + b.size <= a.offset
  {
    assert InBuffer(id) in Spans(s) && InBuffer(other) in Spans(s);
    SpansDisjoint(NrPages(s), s.pageSize, s.blocks, Spans(s), InBuffer(id), InBuffer(other));
  }

  lemma {:induction false} WriteKeepsData(s: State, id: BufferId, spot: nat, byte: Byte)
    requires DataOk(s.mem, s.buffers, s.published, s.contents) && id in s.buffers && id !in s.published
    requires s.pageSize > 0 && Owns(NrPages(s), s.pageSize, s.blocks, Spans(s))
    requires s.buffers[id].offset <= spot < s.buffers[id].offset + s.buffers[id].size && spot < |s.mem|
    ensures DataOk(s.mem[spot := byte], s.buffers, s.published, s.contents)
  {
    hide Owns, Spans;
    var mem := s.mem[spot := byte];
    forall x | x in s.buffers && x in s.published
      ensures x in s.contents && Unchanged(mem, s.buffers[x], s.contents[x])
    {
      BuffersDisjoint(s, id, x);
      var b := s.buffers[x];
      assert Unchanged(s.mem, b, s.contents[x]);
      assert mem[b.offset..b.offset + b.size] == s.mem[b.offset..b.offset + b.size];
    }
  }

  lemma {:induction false} WriteKeeps(s: State, j: nat, at: nat, byte: Byte)
    requires Inv(s) && Enabled(s, Write(j, at, byte))
    ensures Defined(s, Write(j, at, byte)) && Inv(Apply(s, Write(j, at, byte)))
  {
    hide RefsOk, RolesOk, CountsOk, PublishedOk, OrderOk, DataOk, Owns, Refs, SizesOk, Spans, Held;
    var id := s.producers[j].buffer;
    HeldBuffer(s.buffers, s.producers, s.publishing, |s.consumers|, s.published, s.allocCount, j);
    BufferInside(s, id);
    var s' := Apply(s, Write(j, at, byte));
    WriteKeepsData(s, id, s.buffers[id].offset + at, byte);
    SpansSame(s, s');
  }

  lemma {:induction false} BeginKeepsOrder(cs: seq<Consumer>, published: seq<BufferId>, j: nat, id: BufferId)
    requires OrderOk(cs, published, None)
    ensures OrderOk(cs, published + [id], Some(Publish(j, id, 0)))
  {
    forall i | 0 <= i < |cs|
      ensures InOrder(cs[i], published + [id], |published|)
    {
      assert InOrder(cs[i], published, Reached(published, None, i));
      assert (published + [id])[cs[i].start..|published|] == published[cs[i].start..|published|];
    }
  }

  lemma {:induction false} BeginKeepsRoles(bufs: map<BufferId, Buffer>, prods: map<nat, Producer>, consumers: nat,
                                           published: seq<BufferId>, itemCount: int, allocCount: nat, removeCount: int, j: nat)
    requires RolesOk(bufs, prods, None, consumers) && PublishedOk(published, allocCount, prods, None)
    requires CountsOk(bufs, itemCount, allocCount, removeCount) && j in prods && prods[j].Holding?
    ensures RolesOk(bufs, prods, Some(Publish(j, prods[j].buffer, 0)), consumers)
    ensures PublishedOk(published + [prods[j].buffer], allocCount, prods, Some(Publish(j, prods[j].buffer, 0)))
  {
  }

  lemma {:induction false} BeginKeepsData(mem: seq<Byte>, bufs: map<BufferId, Buffer>, published: seq<BufferId>,
                                          contents: map<BufferId, seq<Byte>>, id: BufferId)
    requires DataOk(mem, bufs, published, contents) && id in bufs && id !in published
    requires bufs[id].offset + bufs[id].size <= |mem|
    ensures DataOk(mem, bufs, published + [id], contents[id := mem[bufs[id].offset..bufs[id].offset + bufs[id].size]])
  {
    assert Unchanged(mem, bufs[id], mem[bufs[id].offset..bufs[id].offset + bufs[id].size]);
  }

  lemma {:induction false} PutBeginKeeps(s: State, j: nat)
    requires Inv(s) && Enabled(s, PutBegin(j)) && s.producers[j].Holding?
    ensures Defined(s, PutBegin(j)) && Inv(Apply(s, PutBegin(j)))
  {
    hide RefsOk, RolesOk, CountsOk, PublishedOk, OrderOk, DataOk, Owns, Refs, SizesOk, Spans, Held;
    var id := s.producers[j].buffer;
    HeldBuffer(s.buffers, s.producers, s.publishing, |s.consumers|, s.published, s.allocCount, j);
    BufferInside(s, id);
    BeginKeepsRoles(s.buffers, s.producers, |s.consumers|, s.published, s.itemCount, s.allocCount, s.removeCount, j);
    BeginKeepsData(s.mem, s.buffers, s.published, s.contents, id);
    BeginKeepsOrder(s.consumers, s.published, j, id);
    SpansSame(s, Apply(s, PutBegin(j)));
  }

  lemma {:induction false} NextKeepsOrder(cs: seq<Consumer>, published: seq<BufferId>, p: Publish)
    requires OrderOk(cs, published, Some(p)) && p.next < |cs|
    requires published != [] && published[|published| - 1] == p.buffer
    ensures OrderOk(cs[p.next := cs[p.next].(items := cs[p.next].items + [p.buffer])], published, Some(p.(next := p.next + 1)))
  {
    var c := cs[p.next];
    var c' := c.(items := c.items + [p.buffer]);
    var n := |published|;
    assert InOrder(c, published, Reached(published, Some(p), p.next));
    assert published[c.start..n] == published[c.start..n - 1] + [p.buffer];
    assert c'.taken + c'.items == (c.taken + c.items) + [p.buffer];
    forall i | 0 <= i < |cs| && i != p.next
      ensures InOrder(cs[i], published, Reached(published, Some(p.(next := p.next + 1)), i))
    {
      assert InOrder(cs[i], published, Reached(published, Some(p), i));
    }
  }

  lemma {:induction false} NextKeepsRefs(cs: seq<Consumer>, bufs: map<BufferId, Buffer>, p: Publish)
    requires RefsOk(bufs, Refs(cs) + multiset{}) && p.next < |cs| && p.buffer in bufs
    ensures var c, b := cs[p.next], bufs[p.buffer];
            RefsOk(bufs[p.buffer := b.(refcnt := b.refcnt + 1)],
                   Refs(cs[p.next := c.(items := c.items + [p.buffer])]) + multiset{})
  {
    hide Held, Refs;
    var c := cs[p.next];
    var c' := c.(items := c.items + [p.buffer]);
    RefsWithout(cs, p.next);
    RefsUpdate(cs, p.next, c');
    HeldQueued(c, p.buffer);
    assert Refs(cs[p.next := c']) == Refs(cs) + multiset{p.buffer};
  }

  lemma {:induction false} NextKeepsRoles(mem: seq<Byte>, bufs: map<BufferId, Buffer>, prods: map<nat, Producer>, p: Publish,
                                          consumers: nat, published: seq<BufferId>, contents: map<BufferId, seq<Byte>>,
                                          allocCount: nat)
    requires RolesOk(bufs, prods, Some(p), consumers) && PublishedOk(published, allocCount, prods, Some(p))
    requires DataOk(mem, bufs, published, contents) && p.next < consumers
    ensures p.buffer in bufs
    ensures var b := bufs[p.buffer];
            var bufs' := bufs[p.buffer := b.(refcnt := b.refcnt + 1)];
            && RolesOk(bufs', prods, Some(p.(next := p.next + 1)), consumers)
            && DataOk(mem, bufs', published, contents)
    ensures PublishedOk(published, allocCount, prods, Some(p.(next := p.next + 1)))
  {
    assert p.buffer in bufs;
    var b := bufs[p.buffer];
    var b' := b.(refcnt := b.refcnt + 1);
    assert p.buffer in contents ==> (Unchanged(mem, b, contents[p.buffer]) <==> Unchanged(mem, b', contents[p.buffer]));
  }

  lemma {:induction false} PutNextKeeps(s: State)
    requires Inv(s) && Enabled(s, PutNext)
    ensures Defined(s, PutNext) && Inv(Apply(s, PutNext))
  {
    hide RefsOk, RolesOk, CountsOk, PublishedOk, OrderOk, DataOk, Owns, Refs, SizesOk, Spans, Held;
    var p := s.publishing.value;
    PublishedBuffer(s.buffers, s.producers, p, |s.consumers|, s.published, s.allocCount);
    var b := s.buffers[p.buffer];
    NextKeepsRoles(s.mem, s.buffers, s.producers, p, |s.consumers|, s.published, s.contents, s.allocCount);
    NextKeepsRefs(s.consumers, s.buffers, p);
    NextKeepsOrder(s.consumers, s.published, p);
    UpdateKeepsCounts(s.buffers, s.itemCount, s.allocCount, s.removeCount, p.buffer, b.(refcnt := b.refcnt + 1));
    SpansSame(s, Apply(s, PutNext));
  }

  lemma {:induction false} EndKeepsOrder(cs: seq<Consumer>, published: seq<BufferId>, p: Publish)
    requires OrderOk(cs, published, Some(p)) && p.next == |cs|
    ensures OrderOk(cs, published, None)
  {
    assert forall i :: 0 <= i < |cs| ==> Reached(published, Some(p), i) == Reached(published, None, i);
  }

  /** The producer that published goes back to `Idle`; a buffer nobody took is gone. */
  lemma {:induction false} EndKeepsRoles(bufs: map<BufferId, Buffer>, bufs': map<BufferId, Buffer>, prods: map<nat, Producer>,
                                         p: Publish, consumers: nat, published: seq<BufferId>, allocCount: nat)
    requires RolesOk(bufs, prods, Some(p), consumers) && PublishedOk(published, allocCount, prods, Some(p))
    requires bufs' == if p.next == 0 then bufs - {p.buffer} else bufs
    ensures RolesOk(bufs', prods[p.producer := Idle], None, consumers)
    ensures PublishedOk(published, allocCount, prods[p.producer := Idle], None)
  {
    var prods' := prods[p.producer := Idle];
    forall id | id in bufs' && bufs'[id].refcnt == 0
      ensures HasHolder(prods', id)
    {
      assert HasHolder(prods, id);
      var k :| k in prods && prods[k] == Holding(id);
      assert k in prods' && prods'[k] == Holding(id);
    }
  }

  lemma {:induction false} RemoveKeepsRefs(bufs: map<BufferId, Buffer>, refs: multiset<BufferId>, id: BufferId)
    requires RefsOk(bufs, refs) && id in bufs && bufs[id].refcnt == 0
    ensures RefsOk(bufs - {id}, refs)
  {
  }

  lemma {:induction false} RemoveKeepsData(mem: seq<Byte>, bufs: map<BufferId, Buffer>, published: seq<BufferId>,
                                           contents: map<BufferId, seq<Byte>>, id: BufferId)
    requires DataOk(mem, bufs, published, contents)
    ensures DataOk(mem, bufs - {id}, published, contents)
  {
  }

  lemma {:induction false} PutEndKeeps(s: State)
    requires Inv(s) && Enabled(s, PutEnd)
    ensures Defined(s, PutEnd) && Inv(Apply(s, PutEnd))
  {
    hide RefsOk, RolesOk, CountsOk, PublishedOk, OrderOk, DataOk, Owns, Refs, SizesOk, Spans, Held;
    var p := s.publishing.value;
    var id := p.buffer;
    PublishedBuffer(s.buffers, s.producers, p, |s.consumers|, s.published, s.allocCount);
    RemoveKeepsPages(s, id);
    var s' := Apply(s, PutEnd);
    EndKeepsOrder(s.consumers, s.published, p);
    EndKeepsRoles(s.buffers, s'.buffers, s.producers, p, |s.consumers|, s.published, s.allocCount);
    IdleKeepsSizes(s.producers, s.size, p.producer);
    if p.next == 0 {
      RemoveKeepsRefs(s.buffers, Refs(s.consumers) + multiset{}, id);
      RemoveKeepsData(s.mem, s.buffers, s.published, s.contents, id);
      RemoveKeepsCounts(s.buffers, s.itemCount, s.allocCount, s.removeCount, id);
      SpansUnpaged(RemoveBuffer(s, id), s', p.producer, Idle);
    } else {
      SpansUnpaged(s, s', p.producer, Idle);
    }
  }

  lemma {:induction false} IdleKeepsSizes(prods: map<nat, Producer>, size: nat, j: nat)
    requires SizesOk(prods, size)
    ensures SizesOk(prods[j := Idle], size) && SizesOk(prods - {j}, size)
  {
  }

  // ---- Taking and returning items ----

  lemma {:induction false} TakeKeepsOrder(cs: seq<Consumer>, published: seq<BufferId>, pub: Option<Publish>, i: nat)
    requires OrderOk(cs, published, pub) && i < |cs| && cs[i].items != []
    ensures var c := cs[i];
            OrderOk(cs[i := c.(item := Some(c.items[0]), items := c.items[1..], taken := c.taken + [c.items[0]])], published, pub)
  {
    var c := cs[i];
    assert InOrder(c, published, Reached(published, pub, i));
    assert c.taken + [c.items[0]] + c.items[1..] == c.taken + c.items;
  }

  lemma {:induction false} ReturnKeepsOrder(cs: seq<Consumer>, published: seq<BufferId>, pub: Option<Publish>, i: nat)
    requires OrderOk(cs, published, pub) && i < |cs|
    ensures OrderOk(cs[i := cs[i].(item := None)], published, pub)
    ensures pub.None? ==> OrderOk(Without(cs, i), published, pub)
  {
    assert InOrder(cs[i], published, Reached(published, pub, i));
  }

  lemma {:induction false} GetItemKeeps(s: State, i: nat)
    requires Inv(s) && Enabled(s, GetItem(i))
    ensures Inv(Apply(s, GetItem(i)))
  {
    hide RefsOk, RolesOk, CountsOk, PublishedOk, OrderOk, DataOk, Owns, Refs, SizesOk, Spans, Held;
    var s', c := Apply(s, GetItem(i)), s.consumers[i];
    RefsWithout(s.consumers, i);
    RefsUpdate(s.consumers, i, s'.consumers[i]);
    HeldTaken(c, c.taken + [c.items[0]]);
    TakeKeepsOrder(s.consumers, s.published, s.publishing, i);
    SpansSame(s, s');
  }

  lemma {:induction false} PutItemKeeps(s: State, i: nat)
    requires Inv(s) && Enabled(s, PutItem(i))
    ensures Defined(s, PutItem(i)) && Inv(Apply(s, PutItem(i)))
  {
    hide RefsOk, RolesOk, CountsOk, PublishedOk, OrderOk, DataOk, Owns, Refs, SizesOk, Spans, Held;
    var c := s.consumers[i];
    var c' := c.(item := None);
    var s1 := s.(consumers := s.consumers[i := c']);
    var id := c.item.value;
    RefsWithout(s.consumers, i);
    RefsUpdate(s.consumers, i, c');
    HeldReturned(c);
    assert Refs(s.consumers) + multiset{} == Refs(s1.consumers) + (multiset{} + multiset{id});
    ReturnKeepsOrder(s.consumers, s.published, s.publishing, i);
    SpansSame(s, s1);
    UnrefKeeps(s1, id, multiset{});
  }

  // ---- Opening and closing ----

  lemma {:induction false} OpenKeepsOrder(cs: seq<Consumer>, published: seq<BufferId>)
    requires OrderOk(cs, published, None)
    ensures var c := Consumer([], None, |published|, []);
            OrderOk(cs + [c], published, None) && multiset(Held(c)) == multiset{}
  {
    assert InOrder(Consumer([], None, |published|, []), published, |published|);
  }

  lemma {:induction false} ConsumersKeepRoles(bufs: map<BufferId, Buffer>, prods: map<nat, Producer>, consumers: nat, others: nat)
    requires RolesOk(bufs, prods, None, consumers)
    ensures RolesOk(bufs, prods, None, others)
  {
  }

  lemma {:induction false} OpenConsumerKeeps(s: State)
    requires Inv(s) && Enabled(s, OpenConsumer)
    ensures Inv(Apply(s, OpenConsumer))
  {
    hide RefsOk, RolesOk, CountsOk, PublishedOk, OrderOk, DataOk, Owns, Refs, SizesOk, Spans, Held;
    var c := Consumer([], None, |s.published|, []);
    RefsAppend(s.consumers, c);
    OpenKeepsOrder(s.consumers, s.published);
    ConsumersKeepRoles(s.buffers, s.producers, |s.consumers|, |s.consumers| + 1);
    assert Refs(s.consumers + [c]) == Refs(s.consumers);
    SpansSame(s, Apply(s, OpenConsumer));
  }

  lemma {:induction false} CloseConsumerKeeps(s: State, i: nat)
    requires Inv(s) && Enabled(s, CloseConsumer(i))
    ensures Defined(s, CloseConsumer(i)) && Inv(Apply(s, CloseConsumer(i)))
  {
    hide RefsOk, RolesOk, CountsOk, PublishedOk, OrderOk, DataOk, Owns, Refs, SizesOk, Spans, Held;
    var c := s.consumers[i];
    var s1 := s.(consumers := Without(s.consumers, i));
    RefsWithout(s.consumers, i);
    assert Refs(s.consumers) + multiset{} == Refs(s1.consumers) + multiset(Held(c));
    ReturnKeepsOrder(s.consumers, s.published, s.publishing, i);
    ConsumersKeepRoles(s.buffers, s.producers, |s.consumers|, |s1.consumers|);
    SpansSame(s, s1);
    UnrefAllKeeps(s1, Held(c));
  }

  lemma {:induction false} SpansClosed(s: State, s': State, j: nat)
    requires s'.buffers == s.buffers && s'.pageSize == s.pageSize && s'.producers == s.producers - {j}
    requires j in s.producers ==> !s.producers[j].Paged?
    ensures Spans(s') == Spans(s)
  {
    assert Holders(s') == Holders(s);
    assert forall h :: h in Spans(s) ==> Spans(s')[h] == Spans(s)[h];
  }

  lemma {:induction false} CloseKeepsRoles(bufs: map<BufferId, Buffer>, bufs': map<BufferId, Buffer>, prods: map<nat, Producer>,
                                           consumers: nat, published: seq<BufferId>, allocCount: nat, j: nat)
    requires RolesOk(bufs, prods, None, consumers) && PublishedOk(published, allocCount, prods, None) && j in prods
    requires bufs' == if prods[j].Holding? then bufs - {prods[j].buffer} else bufs
    ensures RolesOk(bufs', prods - {j}, None, consumers) && PublishedOk(published, allocCount, prods - {j}, None)
  {
    var prods' := prods - {j};
    forall id | id in bufs' && bufs'[id].refcnt == 0
      ensures HasHolder(prods', id)
    {
      assert HasHolder(prods, id);
      var k :| k in prods && prods[k] == Holding(id);
      assert k in prods' && prods'[k] == Holding(id);
    }
  }

  lemma {:induction false} CloseProducerKeeps(s: State, j: nat)
    requires Inv(s) && Enabled(s, CloseProducer(j))
    ensures Defined(s, CloseProducer(j)) && Inv(Apply(s, CloseProducer(j)))
  {
    hide RefsOk, RolesOk, CountsOk, PublishedOk, OrderOk, DataOk, Owns, Refs, SizesOk, Spans, Held;
    var p := s.producers[j];
    if p.Holding? {
      HeldBuffer(s.buffers, s.producers, s.publishing, |s.consumers|, s.published, s.allocCount, j);
      RemoveKeepsPages(s, p.buffer);
      RemoveKeepsRefs(s.buffers, Refs(s.consumers) + multiset{}, p.buffer);
      RemoveKeepsData(s.mem, s.buffers, s.published, s.contents, p.buffer);
      RemoveKeepsCounts(s.buffers, s.itemCount, s.allocCount, s.removeCount, p.buffer);
    }
    var s' := Apply(s, CloseProducer(j));
    CloseKeepsRoles(s.buffers, s'.buffers, s.producers, |s.consumers|, s.published, s.allocCount, j);
    IdleKeepsSizes(s.producers, s.size, j);
    SpansClosed(if p.Holding? then RemoveBuffer(s, p.buffer) else s, s', j);
  }
}
