/** End to end over runs of the buffer manager: a producer gets a buffer of the size it asked
    for, a consumer is handed that size and the bytes written, and what is handed back goes. */
module VmqTransfer {
  import opened Arithmetic
  import opened BuddyBlocks
  import opened BuddyAllocation
  import opened VmqState
  import opened VmqPages
  import opened VmqProofs
  import opened VmqTheorems
  import opened Options
  import opened Sequences

  // ---- What single steps do to the fields ----

  lemma {:induction false} CommitEffect(s: State, j: nat, s': State)
    requires Took(s, Commit(j), s')
    ensures j in s.producers && s.producers[j].Paged? && s'.producers == s.producers[j := Holding(s.allocCount)]
    ensures s'.buffers == s.buffers[s.allocCount := Buffer(s.producers[j].page * s.pageSize, s.producers[j].size, 0)]
    ensures s'.itemCount == s.itemCount + 1 && s'.consumers == s.consumers
  {
  }

  lemma {:induction false} GetItemEffect(s: State, i: nat, s': State)
    requires Took(s, GetItem(i), s')
    ensures i < |s.consumers| && s.consumers[i].items != []
    ensures var c := s.consumers[i];
            s'.consumers == s.consumers[i := Consumer(c.items[1..], Some(c.items[0]), c.start, c.taken + [c.items[0]])]
    ensures s'.buffers == s.buffers && s'.mem == s.mem
  {
  }

  lemma {:induction false} PutItemEffect(s: State, i: nat, s': State)
    requires Took(s, PutItem(i), s')
    ensures i < |s.consumers| && s.consumers[i].item.Some? && s.consumers[i].item.value in s.buffers
    ensures var c := s.consumers[i];
            s'.consumers == s.consumers[i := Consumer(c.items, None, c.start, c.taken)]
    ensures var id := s.consumers[i].item.value;
            var b := s.buffers[id];
            if b.refcnt == 1 then id !in s'.buffers && s'.itemCount == s.itemCount - 1
            else b.refcnt > 0 && id in s'.buffers && s'.buffers[id] == Buffer(b.offset, b.size, b.refcnt - 1) && s'.itemCount == s.itemCount
    ensures forall x :: x != s.consumers[i].item.value ==>
              (x in s'.buffers <==> x in s.buffers) && (x in s.buffers ==> s'.buffers[x] == s.buffers[x])
  {
    hide Free;
  }

  /** The references of one consumer to a buffer: the queued ones and the held one. */
  function RefsBy(c: Consumer, id: BufferId): nat
  {
    multiset(c.items)[id] + HeldBy(c, id)
  }

  function HeldBy(c: Consumer, id: BufferId): nat
  {
    if c.item == Some(id) then 1 else 0
  }

  /** `n` references to the buffer are dropped: none was missing, and it goes with the last. */
  ghost predicate DroppedTo(bufs: map<BufferId, Buffer>, bufs': map<BufferId, Buffer>, id: BufferId, n: nat)
  {
    if id !in bufs then id !in bufs' && n == 0
    else
      var b := bufs[id];
      && n <= b.refcnt
      && (id in bufs' <==> n == 0 || n < b.refcnt)
      && (id in bufs' ==> bufs'[id] == Buffer(b.offset, b.size, b.refcnt - n))
  }

  lemma {:induction false} UnrefDrops(s: State, x: BufferId, id: BufferId)
    requires Unrefable(s, x)
    ensures DroppedTo(s.buffers, Unref(s, x).buffers, id, if x == id then 1 else 0)
  {
    hide Free, Removable, Tiling, Allocated;
  }

  /** Consumer `i` has handed its item back, and with it that one reference has gone. */
  ghost predicate HandedBack(cs: seq<Consumer>, bufs: map<BufferId, Buffer>, cs': seq<Consumer>, bufs': map<BufferId, Buffer>, i: nat)
  {
    && i < |cs| && cs' == cs[i := Consumer(cs[i].items, None, cs[i].start, cs[i].taken)]
    && (forall id :: DroppedTo(bufs, bufs', id, HeldBy(cs[i], id)))
  }

  lemma {:induction false} PutItemHands(s: State, i: nat, s': State)
    requires Took(s, PutItem(i), s')
    ensures HandedBack(s.consumers, s.buffers, s'.consumers, s'.buffers, i)
  {
    hide Unref, Unrefable, DroppedTo;
    PutItemEffect(s, i, s');
    var s0 := s.(consumers := s.consumers[i := s.consumers[i].(item := None)]);
    forall id
      ensures DroppedTo(s.buffers, s'.buffers, id, HeldBy(s.consumers[i], id))
    {
      UnrefDrops(s0, s.consumers[i].item.value, id);
    }
  }

  lemma {:induction false} UnrefAllDrops(s: State, ids: seq<BufferId>, id: BufferId)
    requires AllUnrefable(s, ids)
    ensures DroppedTo(s.buffers, UnrefAll(s, ids).buffers, id, multiset(ids)[id])
    decreases |ids|
  {
    hide Unref, Unrefable;
    if ids != [] {
      assert ids == [ids[0]] + ids[1..];
      UnrefDrops(s, ids[0], id);
      UnrefAllDrops(Unref(s, ids[0]), ids[1..], id);
    }
  }

  lemma {:induction false} CloseConsumerEffect(s: State, i: nat, s': State, id: BufferId)
    requires Took(s, CloseConsumer(i), s')
    ensures i < |s.consumers| && s'.consumers == s.consumers[..i] + s.consumers[i + 1..]
    ensures s'.producers == s.producers && s'.mem == s.mem && s'.published == s.published
    ensures DroppedTo(s.buffers, s'.buffers, id, RefsBy(s.consumers[i], id))
  {
    hide UnrefAll, AllUnrefable;
    var c, s0 := s.consumers[i], s.(consumers := Without(s.consumers, i));
    UnrefAllFrame(s0, Held(c));
    UnrefAllDrops(s0, Held(c), id);
    HeldRefs(c, id);
  }

  lemma {:induction false} HeldRefs(c: Consumer, id: BufferId)
    ensures multiset(Held(c))[id] == RefsBy(c, id)
  {
  }

  lemma {:induction false} CloseProducerEffect(s: State, j: nat, s': State)
    requires Took(s, CloseProducer(j), s')
    ensures j in s.producers && s'.producers == s.producers - {j} && s'.consumers == s.consumers
    ensures s'.buffers == if s.producers[j].Holding? then s.buffers - {s.producers[j].buffer} else s.buffers
  {
    hide Free;
  }

  // ---- The size asked for ----

  /** From its check on to the commit a producer is one of these. */
  predicate Asking(p: Producer, size: nat)
  {
    (p.Checked? || p.Missed? || p.Waiting? || p.Paged?) && p.size == size
  }

  /** The step ends or gives up a getbuf of `j`. */
  predicate EndsGetbuf(e: Event, j: nat)
  {
    e == Commit(j) || e == Abort(j) || e == CloseProducer(j)
  }

  lemma {:induction false} PublisherHolds(s: State)
    requires Inv(s) && s.publishing.Some?
    ensures s.publishing.value.producer in s.producers && s.producers[s.publishing.value.producer].Holding?
  {
  }

  lemma {:induction false} StepKeepsAsking(s: State, e: Event, j: nat, size: nat)
    requires s.pageSize > 0 && Inv(s) && Enabled(s, e) && Defined(s, e) && !EndsGetbuf(e, j)
    requires j in s.producers && Asking(s.producers[j], size)
    ensures var s' := Apply(s, e);
            && j in s'.producers && Asking(s'.producers[j], size)
            && (s.producers[j].Paged? ==> s'.producers[j] == s.producers[j])
            && (e.Page? && e.producer == j ==> s'.producers[j] == Paged(size, e.page))
  {
    hide Inv, Carve, Free, AllUnrefable, UnrefAll, NoFit, IsBestFit, OrderFor, Held, Unrefable, Removable;
    if s.publishing.Some? {
      PublisherHolds(s);
    }
    if e.CloseConsumer? {
      UnrefAllFrame(s.(consumers := Without(s.consumers, e.consumer)), Held(s.consumers[e.consumer]));
    }
  }

  lemma {:induction false} KeepsAsking(es: seq<Event>, states: seq<State>, c: nat, m: nat, j: nat, size: nat)
    requires IsRun(es, states) && c < m < |states| && Careful(es, states, m) && es[c] == Check(j, size)
    requires forall x :: c < x < m ==> !EndsGetbuf(es[x], j)
    ensures j in states[m].producers && Asking(states[m].producers[j], size)
    ensures forall g, page :: c < g < m && es[g] == Page(j, page) ==> states[m].producers[j] == Paged(size, page)
    decreases m
  {
    hide Inv, Enabled, Defined, Apply, EndsGetbuf;
    RunKeeps(es, states, m - 1);
    if m == c + 1 {
      CheckAsks(states[c], j, size);
    } else {
      KeepsAsking(es, states, c, m - 1, j, size);
      StepKeepsAsking(states[m - 1], es[m - 1], j, size);
    }
  }

  lemma CheckAsks(s: State, j: nat, size: nat)
    requires s.pageSize > 0 && Enabled(s, Check(j, size))
    ensures j in Apply(s, Check(j, size)).producers && Asking(Apply(s, Check(j, size)).producers[j], size)
  {
  }

  /** The getbuf of producer `j` whose check, page and commit are the events `c`, `g` and `k`. */
  ghost predicate Getbuf(es: seq<Event>, c: nat, g: nat, k: nat, j: nat, size: nat, page: nat)
  {
    && c < g < k < |es| && es[c] == Check(j, size) && es[g] == Page(j, page) && es[k] == Commit(j)
    && (forall x :: c < x < k ==> !EndsGetbuf(es[x], j))
  }

  /** The producer has the buffer it asked for: a new one, of that size, at its page. */
  lemma {:induction false} BufferAsAsked(es: seq<Event>, states: seq<State>, c: nat, g: nat, k: nat, j: nat, size: nat, page: nat)
    requires IsRun(es, states) && Getbuf(es, c, g, k, j, size, page) && Careful(es, states, k)
    ensures var s, s' := states[k], states[k + 1];
            && j in s'.producers && s'.producers[j].Holding?
            && var id := s'.producers[j].buffer;
               && id !in s.buffers && s'.buffers == s.buffers[id := Buffer(page * s.pageSize, size, 0)]
               && s'.itemCount == s.itemCount + 1
  {
    hide Inv, Enabled, Defined, Apply, EndsGetbuf;
    RunKeeps(es, states, k);
    KeepsAsking(es, states, c, k, j, size);
    CommitEffect(states[k], j, states[k + 1]);
    NextIsNew(states[k]);
  }

  lemma {:induction false} NextIsNew(s: State)
    requires Inv(s)
    ensures s.allocCount !in s.buffers
  {
    if s.allocCount in s.buffers {
      LiveIsCounted(s, s.allocCount);
    }
  }

  // ---- Buffers keep their shape ----

  /** What a step makes of a buffer: one that is there afterwards was there, of the same shape,
      unless it is new. */
  lemma {:induction false} StepKeepsShape(s: State, e: Event, id: BufferId)
    requires s.pageSize > 0 && Inv(s) && Enabled(s, e) && Defined(s, e)
    ensures var s' := Apply(s, e);
            && s.allocCount <= s'.allocCount && s'.pageSize == s.pageSize
            && (id in s'.buffers && id != s.allocCount ==>
                  id in s.buffers && s'.buffers[id].offset == s.buffers[id].offset && s'.buffers[id].size == s.buffers[id].size)
  {
    hide Inv, Carve, Free, AllUnrefable, UnrefAll, NoFit, IsBestFit, OrderFor, Held, Removable;
    if e.CloseConsumer? {
      var s0 := s.(consumers := Without(s.consumers, e.consumer));
      UnrefAllFrame(s0, Held(s.consumers[e.consumer]));
      UnrefAllDrops(s0, Held(s.consumers[e.consumer]), id);
    }
  }

  /** A buffer keeps its place and size until it is removed, and its name is not used again. */
  lemma {:induction false} BufferKeepsShape(es: seq<Event>, states: seq<State>, m: nat, n: nat, id: BufferId)
    requires IsRun(es, states) && m <= n < |states| && Careful(es, states, n)
    requires id < states[m].allocCount && id in states[n].buffers
    ensures id in states[m].buffers && id < states[n].allocCount && states[n].pageSize == states[m].pageSize
    ensures states[n].buffers[id].offset == states[m].buffers[id].offset && states[n].buffers[id].size == states[m].buffers[id].size
    decreases n
  {
    hide Inv, Enabled, Defined, Apply;
    if m < n {
      CountGrows(es, states, m, n - 1);
      RunKeeps(es, states, n - 1);
      StepKeepsShape(states[n - 1], es[n - 1], id);
      BufferKeepsShape(es, states, m, n - 1, id);
    }
  }

  lemma {:induction false} CountGrows(es: seq<Event>, states: seq<State>, m: nat, n: nat)
    requires IsRun(es, states) && m <= n < |states| && Careful(es, states, n)
    ensures states[m].allocCount <= states[n].allocCount && states[n].pageSize == states[m].pageSize
    decreases n
  {
    hide Inv, Enabled, Defined, Apply;
    if m < n {
      CountGrows(es, states, m, n - 1);
      RunKeeps(es, states, n - 1);
      StepKeepsShape(states[n - 1], es[n - 1], 0);
    }
  }

  lemma {:induction false} LiveIsCounted(s: State, id: BufferId)
    requires Inv(s) && id in s.buffers
    ensures id < s.allocCount
  {
  }

  /** As long as the buffer of a getbuf is there it is of the size asked for, and so it is for
      every consumer that is handed it. */
  lemma {:induction false} HandedAsAsked(es: seq<Event>, states: seq<State>, c: nat, g: nat, k: nat, n: nat, j: nat, size: nat, page: nat)
    requires IsRun(es, states) && Getbuf(es, c, g, k, j, size, page) && k < n < |states| && Careful(es, states, n)
    ensures j in states[k + 1].producers && states[k + 1].producers[j].Holding?
    ensures var id := states[k + 1].producers[j].buffer;
            && (id in states[n].buffers ==>
                  states[n].buffers[id].size == size && states[n].buffers[id].offset == page * states[0].pageSize)
            && (forall i :: 0 <= i < |states[n].consumers| && states[n].consumers[i].item == Some(id) ==> id in states[n].buffers)
  {
    hide Inv, Getbuf;
    assert c < k by { GetbufOrder(es, c, g, k, j, size, page); }
    BufferAsAsked(es, states, c, g, k, j, size, page);
    var id := states[k + 1].producers[j].buffer;
    RunKeeps(es, states, k + 1);
    LiveIsCounted(states[k + 1], id);
    CountGrows(es, states, 0, k);
    RunKeeps(es, states, n);
    if id in states[n].buffers {
      BufferKeepsShape(es, states, k + 1, n, id);
    }
    forall i | 0 <= i < |states[n].consumers| && states[n].consumers[i].item == Some(id)
      ensures id in states[n].buffers
    {
      HeldItem(states[n], i);
    }
  }

  lemma GetbufOrder(es: seq<Event>, c: nat, g: nat, k: nat, j: nat, size: nat, page: nat)
    requires Getbuf(es, c, g, k, j, size, page)
    ensures c < k < |es| && es[k] == Commit(j)
  {
  }

  // ---- Handing out and handing back ----

  /** In every run: a getitem takes the head of the queue, which is a live buffer. */
  lemma {:induction false} GetItemHands(es: seq<Event>, states: seq<State>, n: nat, i: nat)
    requires IsRun(es, states) && n < |es| && Careful(es, states, n + 1) && es[n] == GetItem(i)
    ensures i < |states[n].consumers| && states[n].consumers[i].items != []
    ensures var c := states[n].consumers[i];
            && states[n + 1].consumers == states[n].consumers[i := Consumer(c.items[1..], Some(c.items[0]), c.start, c.taken + [c.items[0]])]
            && c.items[0] in states[n + 1].buffers && states[n + 1].buffers == states[n].buffers
  {
    hide Inv, Enabled, Defined, Apply;
    RunKeeps(es, states, n);
    GetItemEffect(states[n], i, states[n + 1]);
    RunKeeps(es, states, n + 1);
    HeldItem(states[n + 1], i);
  }

  /** In every run: after a putitem the consumer has no item, the others are as before, and the
      buffer has one reference less, or is gone if it had but one. */
  lemma {:induction false} PutItemDrops(es: seq<Event>, states: seq<State>, n: nat, i: nat)
    requires IsRun(es, states) && n < |es| && Careful(es, states, n) && es[n] == PutItem(i)
    ensures i < |states[n].consumers| && states[n].consumers[i].item.Some? && states[n].consumers[i].item.value in states[n].buffers
    ensures var s, s', id := states[n], states[n + 1], states[n].consumers[i].item.value;
            && s'.consumers == s.consumers[i := s.consumers[i].(item := None)]
            && (id in s'.buffers <==> s.buffers[id].refcnt > 1)
            && (id in s'.buffers ==> s'.buffers[id] == s.buffers[id].(refcnt := s.buffers[id].refcnt - 1))
            && (forall x :: x != id ==> (x in s'.buffers <==> x in s.buffers) && (x in s.buffers ==> s'.buffers[x] == s.buffers[x]))
  {
    hide Inv, Enabled, Defined, Apply;
    RunKeeps(es, states, n);
    PutItemEffect(states[n], i, states[n + 1]);
  }

  /** In every run: the release of a consumer drops its references and no other, and frees the
      buffers that only it referred to. */
  lemma {:induction false} CloseConsumerDrops(es: seq<Event>, states: seq<State>, n: nat, i: nat, id: BufferId)
    requires IsRun(es, states) && n < |es| && Careful(es, states, n) && es[n] == CloseConsumer(i)
    ensures i < |states[n].consumers|
    ensures states[n + 1].consumers == states[n].consumers[..i] + states[n].consumers[i + 1..]
    ensures DroppedTo(states[n].buffers, states[n + 1].buffers, id, RefsBy(states[n].consumers[i], id))
  {
    hide Inv, Enabled, Defined, Apply;
    RunKeeps(es, states, n);
    CloseConsumerEffect(states[n], i, states[n + 1], id);
  }

  // ---- The history fields ----

  /** The buffer a step publishes, if any. */
  function Publishes(s: State, e: Event): seq<BufferId>
  {
    if e.PutBegin? && e.producer in s.producers && s.producers[e.producer].Holding? then [s.producers[e.producer].buffer] else []
  }

  /** Where a consumer of a state is in the one before the step. */
  function Before(e: Event, c: nat): nat
  {
    if e.CloseConsumer? && c >= e.consumer then c + 1 else c
  }

  lemma {:induction false} StepHistory(s: State, e: Event)
    requires s.pageSize > 0 && Enabled(s, e) && Defined(s, e)
    ensures var s' := Apply(s, e);
            && s'.published == s.published + Publishes(s, e)
            && |s'.consumers| == |s.consumers| + (if e.OpenConsumer? then 1 else 0) - (if e.CloseConsumer? then 1 else 0)
            && (e.OpenConsumer? ==> s'.consumers[|s.consumers|] == Consumer([], None, |s.published|, []))
    ensures forall c :: 0 <= c < |Apply(s, e).consumers| && Before(e, c) < |s.consumers| ==>
              var x, x' := s.consumers[Before(e, c)], Apply(s, e).consumers[c];
              && x'.start == x.start
              && x'.taken == (if e == GetItem(c) && x.items != [] then x.taken + [x.items[0]] else x.taken)
  {
    hide Carve, Free, AllUnrefable, UnrefAll, NoFit, IsBestFit, OrderFor, Held, Removable, Bytes;
    if e.CloseConsumer? {
      UnrefAllFrame(s.(consumers := Without(s.consumers, e.consumer)), Held(s.consumers[e.consumer]));
    }
  }

  /** In every run: `published` grows by the buffer each putbuf puts, `taken` by the one each
      getitem takes, and `start` is how many were published when the consumer was set up. */
  lemma {:induction false} HistoryIs(es: seq<Event>, states: seq<State>, n: nat)
    requires IsRun(es, states) && n < |es| && Careful(es, states, n + 1)
    ensures var s, s', e := states[n], states[n + 1], es[n];
            && s'.published == s.published + Publishes(s, e)
            && (e.OpenConsumer? ==>
                  |s'.consumers| == |s.consumers| + 1 && s'.consumers[|s.consumers|] == Consumer([], None, |s.published|, []))
    ensures forall c :: 0 <= c < |states[n + 1].consumers| && Before(es[n], c) < |states[n].consumers| ==>
              var x, x' := states[n].consumers[Before(es[n], c)], states[n + 1].consumers[c];
              && x'.start == x.start
              && x'.taken == (if es[n] == GetItem(c) && x.items != [] then x.taken + [x.items[0]] else x.taken)
  {
    hide Inv, Enabled, Defined, Apply;
    RunKeeps(es, states, n);
    assert PutsHeld(states[n], es[n]);
    StepHistory(states[n], es[n]);
  }

  // ---- The bytes written ----

  predicate WritesAt(e: Event, j: nat, at: nat)
  {
    e.Write? && e.producer == j && e.at == at
  }

  lemma {:induction false} OtherHolds(s: State, j: nat, k: nat)
    requires Inv(s) && j in s.producers && k in s.producers && j != k && s.producers[j].Holding? && s.producers[k].Holding?
    requires s.pageSize > 0
    ensures s.producers[j].buffer in s.buffers && s.producers[k].buffer in s.buffers
    ensures var a, b := s.buffers[s.producers[j].buffer], s.buffers[s.producers[k].buffer];
            && a.offset + a.size <= |s.mem|
            && (a.offset + a.size <= b.offset || b.offset + b.size <= a.offset)
  {
    hide Owns;
    BufferInside(s, s.producers[j].buffer);
    BuffersDisjoint(s, s.producers[j].buffer, s.producers[k].buffer);
  }

  lemma {:induction false} HeldIsInside(s: State, j: nat)
    requires Inv(s) && s.pageSize > 0 && j in s.producers && s.producers[j].Holding?
    ensures s.producers[j].buffer in s.buffers
    ensures var b := s.buffers[s.producers[j].buffer];
            b.offset + b.size <= |s.mem|
  {
    hide Owns;
    BufferInside(s, s.producers[j].buffer);
  }

  /** A write changes the one byte it is for; nothing else changes the shared memory. */
  lemma {:induction false} StepKeepsByte(s: State, e: Event, j: nat, at: nat)
    requires s.pageSize > 0 && Inv(s) && Enabled(s, e) && Defined(s, e) && j in s.producers && s.producers[j].Holding?
    requires s.producers[j].buffer in s.buffers && at < s.buffers[s.producers[j].buffer].size
    ensures var spot := s.buffers[s.producers[j].buffer].offset + at;
            && spot < |s.mem| == |Apply(s, e).mem|
            && Apply(s, e).mem[spot] == if WritesAt(e, j, at) then e.byte else s.mem[spot]
  {
    hide Inv, Carve, Free, AllUnrefable, UnrefAll, NoFit, IsBestFit, OrderFor, Held, Removable, Bytes;
    HeldIsInside(s, j);
    if e.Write? && e.producer != j {
      OtherHolds(s, j, e.producer);
    } else if e.CloseConsumer? {
      UnrefAllFrame(s.(consumers := Without(s.consumers, e.consumer)), Held(s.consumers[e.consumer]));
    }
  }

  lemma {:induction false} StepKeepsHolding(s: State, e: Event, j: nat)
    requires s.pageSize > 0 && Enabled(s, e) && Defined(s, e) && e != PutBegin(j) && e != CloseProducer(j)
    requires j in s.producers && s.producers[j].Holding? && (s.publishing.Some? ==> s.publishing.value.producer != j)
    ensures var s' := Apply(s, e);
            && j in s'.producers && s'.producers[j] == s.producers[j]
            && (s'.publishing.Some? ==> s'.publishing.value.producer != j)
  {
    hide Carve, Free, AllUnrefable, UnrefAll, NoFit, IsBestFit, OrderFor, Held, Removable, Bytes;
    if e.CloseConsumer? {
      UnrefAllFrame(s.(consumers := Without(s.consumers, e.consumer)), Held(s.consumers[e.consumer]));
    }
  }

  /** Producer `j` is filling buffer `id`, whose byte `at` is `byte`. */
  ghost predicate Filling(s: State, j: nat, id: BufferId, at: nat, byte: Byte)
  {
    && j in s.producers && s.producers[j] == Holding(id) && (s.publishing.Some? ==> s.publishing.value.producer != j)
    && id in s.buffers && at < s.buffers[id].size && s.buffers[id].offset + at < |s.mem|
    && s.mem[s.buffers[id].offset + at] == byte
  }

  lemma {:induction false} StepFills(s: State, e: Event, j: nat, id: BufferId, at: nat, byte: Byte)
    requires s.pageSize > 0 && Inv(s) && Enabled(s, e) && Defined(s, e)
    requires Filling(s, j, id, at, byte) || (e == Write(j, at, byte) && j in s.producers && s.producers[j] == Holding(id))
    requires e != PutBegin(j) && e != CloseProducer(j) && (WritesAt(e, j, at) ==> e == Write(j, at, byte))
    ensures Filling(Apply(s, e), j, id, at, byte)
  {
    hide Inv, Enabled, Defined, Apply, WritesAt;
    if e == Write(j, at, byte) {
      WriteIsHeld(s, j, at, byte);
    }
    assert WritesAt(Write(j, at, byte), j, at) by { WritesThere(j, at, byte); }
    StepKeeps(s, e);
    StepKeepsByte(s, e, j, at);
    StepKeepsHolding(s, e, j);
    LiveIsCounted(s, id);
    StepKeepsShape(s, e, id);
    HeldIsInside(Apply(s, e), j);
  }

  lemma WritesThere(j: nat, at: nat, byte: Byte)
    ensures WritesAt(Write(j, at, byte), j, at)
  {
  }

  lemma WriteIsHeld(s: State, j: nat, at: nat, byte: Byte)
    requires s.pageSize > 0 && Enabled(s, Write(j, at, byte)) && Defined(s, Write(j, at, byte))
    ensures j in s.producers && s.producers[j].Holding? && s.producers[j].buffer in s.buffers
    ensures at < s.buffers[s.producers[j].buffer].size && (s.publishing.Some? ==> s.publishing.value.producer != j)
  {
  }

  lemma {:induction false} FilledStays(es: seq<Event>, states: seq<State>, w: nat, k: nat, j: nat, id: BufferId, at: nat, byte: Byte)
    requires IsRun(es, states) && w < k < |states| && Careful(es, states, k) && es[w] == Write(j, at, byte)
    requires j in states[w].producers && states[w].producers[j] == Holding(id)
    requires forall m :: w < m < k ==> es[m] != PutBegin(j) && es[m] != CloseProducer(j) && !WritesAt(es[m], j, at)
    ensures Filling(states[k], j, id, at, byte)
    decreases k
  {
    hide Inv, Enabled, Defined, Apply, Filling;
    RunKeeps(es, states, k - 1);
    if w < k - 1 {
      FilledStays(es, states, w, k - 1, j, id, at, byte);
    }
    StepFills(states[k - 1], es[k - 1], j, id, at, byte);
  }

  /** What a producer last wrote at a place in its buffer before its putbuf is what any consumer
      finds there between getitem and putitem, whatever ran in between. */
  lemma {:induction false} WrittenIsRead(es: seq<Event>, states: seq<State>, w: nat, k: nat, m: nat, c: nat, j: nat, at: nat, byte: Byte)
    requires IsRun(es, states) && w < k < m < |states| && Careful(es, states, m)
    requires es[w] == Write(j, at, byte) && es[k] == PutBegin(j)
    requires forall x :: w < x < k ==> es[x] != PutBegin(j) && es[x] != CloseProducer(j) && !WritesAt(es[x], j, at)
    requires c < |states[m].consumers| && j in states[k].producers && states[k].producers[j].Holding?
    requires states[m].consumers[c].item == Some(states[k].producers[j].buffer)
    ensures var id := states[k].producers[j].buffer;
            && id in states[m].buffers && at < states[m].buffers[id].size
            && states[m].buffers[id].offset + at < |states[m].mem| && states[m].mem[states[m].buffers[id].offset + at] == byte
  {
    hide Inv, Defined, Apply;
    RunKeeps(es, states, w);
    FilledStays(es, states, w, k, j, states[w].producers[j].buffer, at, byte);
    Integrity(es, states, k, j, m, c);
    var id := states[k].producers[j].buffer;
    assert |Bytes(states[m], id)| == |Bytes(states[k], id)|;
    assert Bytes(states[m], id)[at] == Bytes(states[k], id)[at];
  }
}
