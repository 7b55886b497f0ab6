/** What holds of every run of the buffer manager, however its callers interleave. */
module VmqTheorems {
  import opened Arithmetic
  import opened Dyadic
  import opened BuddyBlocks
  import BuddyLayout
  import opened BuddyAllocation
  import opened VmqState
  import opened VmqPages
  import opened VmqProofs
  import opened Options
  import opened Sequences

  lemma {:induction false} InitKeeps(s: State)
    requires Init(s)
    ensures Inv(s)
  {
    DivBounds(s.size, s.pageSize);
    BuddyLayout.InitialCorrect(NrPages(s));
    assert forall p :: p in s.blocks ==> !s.blocks[p].inUse by {
      assert forall p :: p in s.blocks && s.blocks[p].inUse ==> p in Allocated(s.blocks);
    }
    assert Spans(s) == map[];
  }

  /** A step is defined exactly when it is no putbuf without a buffer, which the driver does
      not test for, and then it keeps the invariant. */
  lemma {:induction false} StepKeeps(s: State, e: Event)
    requires s.pageSize > 0 && Inv(s) && Enabled(s, e)
    ensures Defined(s, e) <==> PutsHeld(s, e)
    ensures Defined(s, e) ==> Inv(Apply(s, e))
  {
    hide Inv, Apply;
    if PutsHeld(s, e) {
      StepDefinedKeeps(s, e);
    }
  }

  /** A putbuf by a producer that has just been set up is let through, and dereferences null. */
  lemma {:induction false} PutbufWithoutBuffer(s: State, j: nat)
    requires Init(s)
    ensures Took(s, OpenProducer(j), Apply(s, OpenProducer(j)))
    ensures var s' := Apply(s, OpenProducer(j));
            Enabled(s', PutBegin(j)) && !Defined(s', PutBegin(j))
  {
  }

  lemma {:induction false} StepDefinedKeeps(s: State, e: Event)
    requires s.pageSize > 0 && Inv(s) && Enabled(s, e) && PutsHeld(s, e)
    ensures Defined(s, e) && Inv(Apply(s, e))
  {
    hide InvWith, NoFit, IsBestFit, Carve, UnrefAll, Unref;
    match e
    case OpenProducer(j) => MoveKeeps(s, Apply(s, e), j, Idle);
    case OpenConsumer => OpenConsumerKeeps(s);
    case Check(j, size) => MoveKeeps(s, Apply(s, e), j, Checked(size));
    case Full(j) => WaiterKeeps(s, j); MoveKeeps(s, Apply(s, e), j, Missed(s.producers[j].size));
    case CountFull(j) => WaiterKeeps(s, j); MoveKeeps(s, Apply(s, e), j, Waiting(s.producers[j].size));
    case Page(j, page) => PageKeeps(s, j, page);
    case Abort(j) => MoveKeeps(s, Apply(s, e), j, Idle);
    case Commit(j) => CommitKeeps(s, j);
    case Write(j, at, byte) => WriteKeeps(s, j, at, byte);
    case PutBegin(j) => PutBeginKeeps(s, j);
    case PutNext => PutNextKeeps(s);
    case PutEnd => PutEndKeeps(s);
    case GetItem(i) => GetItemKeeps(s, i);
    case PutItem(i) => PutItemKeeps(s, i);
    case CloseConsumer(i) => CloseConsumerKeeps(s, i);
    case CloseProducer(j) => CloseProducerKeeps(s, j);
  }

  lemma {:induction false} WaiterKeeps(s: State, j: nat)
    requires Inv(s) && j in s.producers && !s.producers[j].Idle? && !s.producers[j].Holding?
    ensures 0 < s.producers[j].size <= s.size
  {
    WaiterSize(s.producers, s.size, j);
  }

  /** Every state of every run satisfies the invariant as long as putbufs hold a buffer, and
      the next step is undefined only if it is one that does not. */
  lemma {:induction false} RunKeeps(es: seq<Event>, states: seq<State>, i: nat)
    requires IsRun(es, states) && i < |states| && Careful(es, states, i)
    ensures Inv(states[i]) && states[i].pageSize > 0
    ensures i < |es| ==> Enabled(states[i], es[i]) && (Defined(states[i], es[i]) <==> PutsHeld(states[i], es[i]))
    ensures i < |es| && PutsHeld(states[i], es[i]) ==> states[i + 1] == Apply(states[i], es[i])
  {
    hide InvWith, Enabled, Defined, Apply, PutsHeld;
    if i == 0 {
      InitKeeps(states[0]);
    } else {
      RunKeeps(es, states, i - 1);
      assert Step(states[i - 1], es[i - 1], states[i]);
      StepKeeps(states[i - 1], es[i - 1]);
    }
    PageSizePositive(states[i]);
    if i < |es| {
      assert Step(states[i], es[i], states[i + 1]);
      StepKeeps(states[i], es[i]);
    }
  }

  lemma {:induction false} PageSizePositive(s: State)
    requires Inv(s)
    ensures s.pageSize > 0
  {
  }

  // ---- References and lifetimes ----

  /** `refcnt` counts the queued and held items naming the buffer, at every step; a buffer
      being published is alive; the counters count live buffers. */
  lemma {:induction false} ExactReferences(es: seq<Event>, states: seq<State>, i: nat)
    requires IsRun(es, states) && i < |states| && Careful(es, states, i)
    ensures var s := states[i];
            && (forall id :: id in s.buffers ==> s.buffers[id].refcnt == Refs(s.consumers)[id])
            && (forall id :: id in Refs(s.consumers) ==> id in s.buffers)
            && (s.publishing.Some? ==> s.publishing.value.buffer in s.buffers)
            && s.itemCount == |s.buffers| == s.allocCount - s.removeCount
  {
    RunKeeps(es, states, i);
    var s := states[i];
    assert Refs(s.consumers) + multiset{} == Refs(s.consumers);
    assert forall id :: id in Refs(s.consumers) ==> id in Refs(s.consumers) + multiset{};
  }

  /** With every context closed no buffer is left, and the pages are as a new manager has
      them. */
  lemma {:induction false} AllClosed(es: seq<Event>, states: seq<State>, i: nat)
    requires IsRun(es, states) && i < |states| && Careful(es, states, i)
    requires states[i].consumers == [] && states[i].producers == map[]
    ensures states[i].buffers == map[] && states[i].itemCount == 0
    ensures states[i].pageSize > 0 && states[i].blocks == BuddyLayout.Initial(NrPages(states[i]))
  {
    RunKeeps(es, states, i);
    var s := states[i];
    assert forall id :: id in s.buffers ==> s.buffers[id].refcnt == (Refs(s.consumers) + multiset{})[id];
    assert forall id :: id in s.buffers ==> s.buffers[id].refcnt == 0;
    assert s.buffers.Keys == {};
    assert Spans(s) == map[];
    DivBounds(s.size, s.pageSize);
    NoOwners(NrPages(s), s.pageSize, s.blocks, Spans(s));
  }

  // ---- Order ----

  /** What a consumer has taken, followed by its queue, is every publication since it was set
      up, in the one order of publication, each once; only the publication in progress may
      be yet to come. */
  lemma {:induction false} TotalOrder(es: seq<Event>, states: seq<State>, i: nat, c: nat)
    requires IsRun(es, states) && i < |states| && Careful(es, states, i) && c < |states[i].consumers|
    ensures var s, con := states[i], states[i].consumers[c];
            var reached := if s.publishing.Some? && s.publishing.value.next <= c then |s.published| - 1 else |s.published|;
            && con.start <= reached && con.taken + con.items == s.published[con.start..reached]
            && (forall j, k :: 0 <= j < k < |s.published| ==> s.published[j] != s.published[k])
            && (con.item.Some? ==> con.taken != [] && con.item.value == con.taken[|con.taken| - 1])
  {
    RunKeeps(es, states, i);
    var s := states[i];
    assert InOrder(s.consumers[c], s.published, Reached(s.published, s.publishing, c));
  }

  // ---- Data ----

  lemma {:induction false} UnrefAllFrame(s: State, ids: seq<BufferId>)
    requires AllUnrefable(s, ids)
    ensures var s' := UnrefAll(s, ids);
            s' == s.(blocks := s'.blocks, buffers := s'.buffers, itemCount := s'.itemCount, removeCount := s'.removeCount)
            && s'.itemCount <= s.itemCount
    decreases |ids|
  {
    if ids != [] {
      UnrefAllFrame(Unref(s, ids[0]), ids[1..]);
    }
  }

  lemma {:induction false} StepKeepsContents(s: State, e: Event, id: BufferId)
    requires s.pageSize > 0 && Inv(s) && Enabled(s, e) && Defined(s, e) && id in s.published && id in s.contents
    ensures var s' := Apply(s, e);
            id in s'.published && id in s'.contents && s'.contents[id] == s.contents[id]
  {
    hide InvWith, NoFit, IsBestFit, Carve, AllUnrefable, UnrefAll;
    match e
    case PutBegin(j) => BeginFresh(s, j);
    case CloseConsumer(i) => UnrefAllFrame(s.(consumers := Without(s.consumers, i)), Held(s.consumers[i]));
    case _ =>
  }

  lemma {:induction false} BeginFresh(s: State, j: nat)
    requires Inv(s) && Enabled(s, PutBegin(j)) && s.producers[j].Holding?
    ensures s.producers[j].buffer !in s.published
  {
    HeldBuffer(s.buffers, s.producers, s.publishing, |s.consumers|, s.published, s.allocCount, j);
  }

  lemma {:induction false} ContentsFixed(es: seq<Event>, states: seq<State>, k: nat, m: nat, id: BufferId)
    requires IsRun(es, states) && k <= m < |states| && Careful(es, states, m) && id in states[k].published && id in states[k].contents
    ensures id in states[m].published && id in states[m].contents && states[m].contents[id] == states[k].contents[id]
    decreases m
  {
    hide Inv, Enabled, Defined, Apply;
    if k < m {
      ContentsFixed(es, states, k, m - 1, id);
      RunKeeps(es, states, m - 1);
      StepKeepsContents(states[m - 1], es[m - 1], id);
    }
  }

  /** End-to-end integrity: between getitem and putitem a consumer sees the bytes that were
      in the buffer at putbuf, whatever ran in between. */
  lemma {:induction false} Integrity(es: seq<Event>, states: seq<State>, k: nat, j: nat, m: nat, c: nat)
    requires IsRun(es, states) && k < |es| && es[k] == PutBegin(j) && k < m < |states| && Careful(es, states, m)
    requires c < |states[m].consumers| && j in states[k].producers && states[k].producers[j].Holding?
    requires states[m].consumers[c].item == Some(states[k].producers[j].buffer)
    ensures var id := states[k].producers[j].buffer;
            && id in states[k].buffers && id in states[m].buffers
            && states[k].buffers[id].offset + states[k].buffers[id].size <= |states[k].mem|
            && states[m].buffers[id].offset + states[m].buffers[id].size <= |states[m].mem|
            && Bytes(states[m], id) == Bytes(states[k], id)
  {
    hide Inv, Enabled, Refs;
    var id := states[k].producers[j].buffer;
    RunKeeps(es, states, k);
    var s := states[k + 1];
    assert s.published[|s.published| - 1] == id && s.contents[id] == Bytes(states[k], id);
    ContentsFixed(es, states, k + 1, m, id);
    RunKeeps(es, states, m);
    HeldItem(states[m], c);
  }

  lemma {:induction false} HeldItem(s: State, c: nat)
    requires Inv(s) && c < |s.consumers| && s.consumers[c].item.Some?
    ensures var id := s.consumers[c].item.value;
            && id in s.buffers
            && (id in s.published ==>
                  id in s.contents && s.buffers[id].offset + s.buffers[id].size <= |s.mem| && Bytes(s, id) == s.contents[id])
  {
    hide Owns, RolesOk, CountsOk, PublishedOk, OrderOk, SizesOk, Refs;
    var id := s.consumers[c].item.value;
    RefsWithout(s.consumers, c);
    assert id in multiset(Held(s.consumers[c])) by {
      assert Held(s.consumers[c])[0] == id;
    }
    assert id in Refs(s.consumers) + multiset{};
    assert id in s.published ==> Unchanged(s.mem, s.buffers[id], s.contents[id]);
  }

  /** Live buffers lie inside the shared memory and do not overlap. */
  lemma {:induction false} BuffersApart(es: seq<Event>, states: seq<State>, i: nat, id: BufferId, other: BufferId)
    requires IsRun(es, states) && i < |states| && Careful(es, states, i) && id in states[i].buffers && other in states[i].buffers && id != other
    ensures var a, b := states[i].buffers[id], states[i].buffers[other];
            && a.offset + a.size <= states[i].size
            && (a.offset + a.size <= b.offset || b.offset + b.size <= a.offset)
  {
    RunKeeps(es, states, i);
    BufferInside(states[i], id);
    BuffersDisjoint(states[i], id, other);
  }

  // ---- Admission ----

  /** Producers past the item-count check and not yet at the count. */
  function InFlight(prods: map<nat, Producer>): set<nat>
  {
    set j | j in prods && !prods[j].Idle? && !prods[j].Holding?
  }

  /** The bound on items, with `producers` the most producers open at once. */
  predicate Admitted(s: State, producers: nat)
  {
    s.maxItemCount > 0 ==> s.itemCount + |InFlight(s.producers)| <= s.maxItemCount - 1 + producers
  }

  lemma {:induction false} SubsetSize<T>(a: set<T>, b: set<T>)
    requires a <= b
    ensures |a| <= |b|
  {
    if a != {} {
      var x :| x in a;
      SubsetSize(a - {x}, b - {x});
    }
  }

  lemma {:induction false} CheckKeepsAdmitted(s: State, j: nat, size: nat, producers: nat)
    requires s.pageSize > 0 && Enabled(s, Check(j, size)) && |s.producers| <= producers
    ensures Admitted(Apply(s, Check(j, size)), producers)
  {
    var s' := Apply(s, Check(j, size));
    assert s'.producers.Keys == s.producers.Keys;
    SubsetSize(InFlight(s'.producers), s'.producers.Keys);
  }

  lemma {:induction false} CommitKeepsAdmitted(s: State, j: nat, producers: nat)
    requires s.pageSize > 0 && Enabled(s, Commit(j)) && Admitted(s, producers)
    ensures Admitted(Apply(s, Commit(j)), producers)
  {
    var s' := Apply(s, Commit(j));
    assert j in InFlight(s.producers);
    assert InFlight(s'.producers) == InFlight(s.producers) - {j};
  }

  /** But for the check and the commit, no item appears and no producer starts towards one. */
  lemma {:induction false} OtherAddsNone(s: State, e: Event)
    requires s.pageSize > 0 && Enabled(s, e) && Defined(s, e) && !e.Check? && !e.Commit?
    ensures var s' := Apply(s, e);
            && s'.itemCount <= s.itemCount && InFlight(s'.producers) <= InFlight(s.producers)
            && s'.maxItemCount == s.maxItemCount
  {
    hide Carve, Free, AllUnrefable, UnrefAll, Unrefable, Removable, Held, Bytes, BufferPage, NoFit, IsBestFit, OrderFor;
    if e.CloseConsumer? {
      UnrefAllFrame(s.(consumers := Without(s.consumers, e.consumer)), Held(s.consumers[e.consumer]));
    }
  }

  lemma {:induction false} SameProducers(s: State, e: Event)
    requires s.pageSize > 0 && Enabled(s, e) && Defined(s, e) && (e.Check? || e.Commit?)
    ensures Apply(s, e).producers.Keys == s.producers.Keys && Apply(s, e).maxItemCount == s.maxItemCount
  {
  }

  lemma {:induction false} StepKeepsAdmitted(s: State, e: Event, producers: nat)
    requires s.pageSize > 0 && Enabled(s, e) && Defined(s, e) && Admitted(s, producers)
    requires |s.producers| <= producers
    ensures Admitted(Apply(s, e), producers) && Apply(s, e).maxItemCount == s.maxItemCount
  {
    hide Enabled, Defined, Apply, InFlight;
    if e.Check? {
      SameProducers(s, e);
      CheckKeepsAdmitted(s, e.producer, e.size, producers);
    } else if e.Commit? {
      SameProducers(s, e);
      CommitKeepsAdmitted(s, e.producer, producers);
    } else {
      OtherAddsNone(s, e);
      SubsetSize(InFlight(Apply(s, e).producers), InFlight(s.producers));
    }
  }

  /** Although the check and the count are apart, items never exceed the limit by more than
      the producers open at once, less one. */
  lemma {:induction false} AdmissionBound(es: seq<Event>, states: seq<State>, i: nat, producers: nat)
    requires IsRun(es, states) && i < |states| && Careful(es, states, i) && states[0].maxItemCount > 0
    requires forall k :: 0 <= k <= i ==> |states[k].producers| <= producers
    ensures Admitted(states[i], producers) && states[i].maxItemCount == states[0].maxItemCount
    ensures states[i].itemCount <= states[0].maxItemCount - 1 + producers
  {
    hide Inv, Enabled, Defined, Apply;
    if i == 0 {
      assert InFlight(states[0].producers) == {};
    } else {
      AdmissionBound(es, states, i - 1, producers);
      RunKeeps(es, states, i - 1);
      StepKeepsAdmitted(states[i - 1], es[i - 1], producers);
    }
  }
}
