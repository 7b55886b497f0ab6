/** drivers/vmq/main.c: one buffer manager, its producers and its consumers, as steps that
    the threads calling into the driver may interleave. */
module VmqState {
  import opened Arithmetic
  import opened Dyadic
  import opened BuddyBlocks
  import opened BuddyLayout
  import opened BuddyAllocation
  import opened Options
  import opened Sequences

  type Byte = x: nat | x < 256

  /** A buffer is named by the number of buffers allocated before it. */
  type BufferId = nat

  datatype Buffer = Buffer(offset: nat, size: nat, refcnt: nat)

  /** `items` is the queue and `item` what getitem handed out; `start` and `taken` are history:
      the publications before this consumer was set up, and all it has taken. */
  datatype Consumer = Consumer(items: seq<BufferId>, item: Option<BufferId>, start: nat, taken: seq<BufferId>)

  /** Where a producer's thread is: outside getbuf, past the item-count check, turned away
      for want of pages, waiting for some, past the page allocation, or holding a buffer to
      fill. */
  datatype Producer =
    | Idle
    | Checked(size: nat)
    | Missed(size: nat)
    | Waiting(size: nat)
    | Paged(size: nat, page: nat)
    | Holding(buffer: BufferId)

  /** putbuf by producer `producer`, holding the manager's mutex, with consumers up to
      `next` served. */
  datatype Publish = Publish(producer: nat, buffer: BufferId, next: nat)

  /** `published` and `contents` are history: buffers in order of publication, and the bytes
      each held then. */
  datatype State = State(
    size: nat, pageSize: nat, maxItemCount: int,
    blocks: Blocks,
    mem: seq<Byte>,
    buffers: map<BufferId, Buffer>,
    consumers: seq<Consumer>,
    producers: map<nat, Producer>,
    publishing: Option<Publish>,
    itemCount: int, allocCount: nat, removeCount: int, fullCount: nat,
    published: seq<BufferId>, contents: map<BufferId, seq<Byte>>)

  datatype Event =
    | OpenProducer(producer: nat)
    | OpenConsumer
    | Check(producer: nat, size: nat)
    | Full(producer: nat)
    | CountFull(producer: nat)
    | Page(producer: nat, page: nat)
    | Abort(producer: nat)
    | Commit(producer: nat)
    | Write(producer: nat, at: nat, byte: Byte)
    | PutBegin(producer: nat)
    | PutNext
    | PutEnd
    | GetItem(consumer: nat)
    | PutItem(consumer: nat)
    | CloseConsumer(consumer: nat)
    | CloseProducer(producer: nat)

  function NrPages(s: State): nat
    requires s.pageSize > 0
  {
    s.size / s.pageSize
  }

  /** A manager as `create_buffer_manager` leaves it. */
  ghost predicate Init(s: State)
  {
    && MIN_PAGE_SIZE <= s.pageSize < INT_LIMIT && s.size < INT_LIMIT
    && s.blocks == Initial(NrPages(s)) && |s.mem| == s.size
    && s.buffers == map[] && s.consumers == [] && s.producers == map[] && s.publishing == None
    && s.itemCount == 0 && s.allocCount == 0 && s.removeCount == 0 && s.fullCount == 0
    && s.published == [] && s.contents == map[]
  }

  /** The page of a buffer, as `remove_buffer_item` computes it. */
  function BufferPage(s: State, id: BufferId): nat
    requires s.pageSize > 0 && id in s.buffers
  {
    s.buffers[id].offset / s.pageSize
  }

  /** The bytes of a buffer. */
  function Bytes(s: State, id: BufferId): seq<Byte>
    requires id in s.buffers && s.buffers[id].offset + s.buffers[id].size <= |s.mem|
  {
    s.mem[s.buffers[id].offset..s.buffers[id].offset + s.buffers[id].size]
  }

  /** The references a consumer holds. */
  function Held(c: Consumer): seq<BufferId>
  {
    (if c.item.Some? then [c.item.value] else []) + c.items
  }

  // ---- What the driver does to a buffer ----

  /** `remove_buffer_item` can be called on `id`: its page is an allocated block, not yet freed. */
  ghost predicate Removable(s: State, id: BufferId)
  {
    && s.pageSize > 0 && id in s.buffers
    && Tiling(s.blocks, NrPages(s)) && BufferPage(s, id) in Allocated(s.blocks)
  }

  ghost function RemoveBuffer(s: State, id: BufferId): State
    requires Removable(s, id)
  {
    s.(blocks := Free(s.blocks, NrPages(s), BufferPage(s, id)),
       buffers := s.buffers - {id}, itemCount := s.itemCount - 1, removeCount := s.removeCount + 1)
  }

  /** `unref_buffer` can be called on `id`. */
  ghost predicate Unrefable(s: State, id: BufferId)
  {
    id in s.buffers && s.buffers[id].refcnt > 0 && (s.buffers[id].refcnt == 1 ==> Removable(s, id))
  }

  ghost function Unref(s: State, id: BufferId): State
    requires Unrefable(s, id)
  {
    var b := s.buffers[id];
    if b.refcnt == 1 then RemoveBuffer(s, id) else s.(buffers := s.buffers[id := b.(refcnt := b.refcnt - 1)])
  }

  ghost predicate AllUnrefable(s: State, ids: seq<BufferId>)
    decreases |ids|
  {
    ids != [] ==> Unrefable(s, ids[0]) && AllUnrefable(Unref(s, ids[0]), ids[1..])
  }

  ghost function UnrefAll(s: State, ids: seq<BufferId>): State
    requires AllUnrefable(s, ids)
    decreases |ids|
  {
    if ids == [] then s else UnrefAll(Unref(s, ids[0]), ids[1..])
  }

  // ---- The steps ----

  /** When a thread can take the step: the driver's own tests, who is calling, and whether
      the manager's mutex, which `publishing` holds, is free where the step needs it. */
  ghost predicate Enabled(s: State, e: Event)
    requires s.pageSize > 0
  {
    match e
    case OpenProducer(j) => j !in s.producers && s.publishing.None?
    case OpenConsumer => s.publishing.None?
    case Check(j, size) =>
      j in s.producers && s.producers[j].Idle? && 0 < size <= s.size
      && !(s.maxItemCount > 0 && s.itemCount >= s.maxItemCount)
    case Full(j) =>
      j in s.producers && s.producers[j].Checked? && NoFit(s.blocks, OrderFor(s.producers[j].size, s.pageSize))
    case CountFull(j) => j in s.producers && s.producers[j].Missed? && s.publishing.None?
    case Page(j, page) =>
      j in s.producers && (s.producers[j].Checked? || s.producers[j].Waiting?)
      && IsBestFit(s.blocks, OrderFor(s.producers[j].size, s.pageSize), page)
    case Abort(j) => j in s.producers && s.producers[j].Waiting?
    case Commit(j) => j in s.producers && s.producers[j].Paged? && s.publishing.None?
    case Write(j, at, byte) =>
      && j in s.producers && s.producers[j].Holding?
      && (s.publishing.Some? ==> s.publishing.value.producer != j)
      && (s.producers[j].buffer in s.buffers ==> at < s.buffers[s.producers[j].buffer].size)
    case PutBegin(j) => j in s.producers && s.publishing.None?
    case PutNext => s.publishing.Some? && s.publishing.value.next < |s.consumers|
    case PutEnd => s.publishing.Some? && s.publishing.value.next >= |s.consumers|
    case GetItem(i) => i < |s.consumers| && s.consumers[i].item.None? && s.consumers[i].items != []
    case PutItem(i) => i < |s.consumers| && s.publishing.None? && s.consumers[i].item.Some?
    case CloseConsumer(i) => i < |s.consumers| && s.publishing.None?
    case CloseProducer(j) =>
      j in s.producers && s.publishing.None? && (s.producers[j].Idle? || s.producers[j].Holding?)
  }

  /** What the step takes for granted and nobody tests: that a producer that publishes has a
      buffer, that the buffers it names are still there, that references are there to drop,
      and that freed pages are block heads. */
  ghost predicate Defined(s: State, e: Event)
    requires s.pageSize > 0 && Enabled(s, e)
  {
    match e
    case Write(j, at, byte) =>
      s.producers[j].buffer in s.buffers && s.buffers[s.producers[j].buffer].offset + at < |s.mem|
    case PutBegin(j) =>
      s.producers[j].Holding? &&
      var id := s.producers[j].buffer;
      id in s.buffers && s.buffers[id].offset + s.buffers[id].size <= |s.mem|
    case PutNext => s.publishing.value.buffer in s.buffers
    case PutEnd =>
      && s.publishing.value.producer in s.producers
      && (s.publishing.value.next == 0 ==> Removable(s, s.publishing.value.buffer))
    case PutItem(i) =>
      Unrefable(s.(consumers := s.consumers[i := s.consumers[i].(item := None)]), s.consumers[i].item.value)
    case CloseConsumer(i) =>
      AllUnrefable(s.(consumers := Without(s.consumers, i)), Held(s.consumers[i]))
    case CloseProducer(j) => s.producers[j].Holding? ==> Removable(s, s.producers[j].buffer)
    case _ => true
  }

  ghost function Apply(s: State, e: Event): State
    requires s.pageSize > 0 && Enabled(s, e) && Defined(s, e)
  {
    match e
    case OpenProducer(j) => s.(producers := s.producers[j := Idle])
    case OpenConsumer => s.(consumers := s.consumers + [Consumer([], None, |s.published|, [])])
    case Check(j, size) => s.(producers := s.producers[j := Checked(size)])
    case Full(j) => s.(producers := s.producers[j := Missed(s.producers[j].size)])
    case CountFull(j) =>
      s.(producers := s.producers[j := Waiting(s.producers[j].size)], fullCount := s.fullCount + 1)
    case Page(j, page) =>
      s.(producers := s.producers[j := Paged(s.producers[j].size, page)],
         blocks := Carve(s.blocks, page, OrderFor(s.producers[j].size, s.pageSize)))
    case Abort(j) => s.(producers := s.producers[j := Idle])
    case Commit(j) =>
      var p := s.producers[j];
      s.(producers := s.producers[j := Holding(s.allocCount)],
         buffers := s.buffers[s.allocCount := Buffer(p.page * s.pageSize, p.size, 0)],
         itemCount := s.itemCount + 1, allocCount := s.allocCount + 1)
    case Write(j, at, byte) =>
      s.(mem := s.mem[s.buffers[s.producers[j].buffer].offset + at := byte])
    case PutBegin(j) =>
      var id := s.producers[j].buffer;
      s.(publishing := Some(Publish(j, id, 0)),
         published := s.published + [id], contents := s.contents[id := Bytes(s, id)])
    case PutNext =>
      var p := s.publishing.value;
      var b, c := s.buffers[p.buffer], s.consumers[p.next];
      s.(publishing := Some(p.(next := p.next + 1)),
         buffers := s.buffers[p.buffer := b.(refcnt := b.refcnt + 1)],
         consumers := s.consumers[p.next := c.(items := c.items + [p.buffer])])
    case PutEnd =>
      var p := s.publishing.value;
      var s' := if p.next == 0 then RemoveBuffer(s, p.buffer) else s;
      s'.(publishing := None, producers := s'.producers[p.producer := Idle])
    case GetItem(i) =>
      var c := s.consumers[i];
      s.(consumers := s.consumers[i := c.(item := Some(c.items[0]), items := c.items[1..], taken := c.taken + [c.items[0]])])
    case PutItem(i) =>
      var c := s.consumers[i];
      Unref(s.(consumers := s.consumers[i := c.(item := None)]), c.item.value)
    case CloseConsumer(i) => UnrefAll(s.(consumers := Without(s.consumers, i)), Held(s.consumers[i]))
    case CloseProducer(j) =>
      var s' := if s.producers[j].Holding? then RemoveBuffer(s, s.producers[j].buffer) else s;
      s'.(producers := s'.producers - {j})
  }

  /** `s'` is what the driver makes of `s` by taking the step `e`. */
  ghost predicate Took(s: State, e: Event, s': State)
  {
    s.pageSize > 0 && Enabled(s, e) && Defined(s, e) && s' == Apply(s, e)
  }

  /** One step of a run. Where the driver's step is undefined, anything may follow. */
  ghost predicate Step(s: State, e: Event, s': State)
    requires s.pageSize > 0
  {
    Enabled(s, e) && (Defined(s, e) ==> s' == Apply(s, e))
  }

  /** The states of a run, from a new manager on. */
  ghost predicate IsRun(es: seq<Event>, states: seq<State>)
  {
    && |states| == |es| + 1 && Init(states[0])
    && forall i :: 0 <= i < |es| ==> states[i].pageSize > 0 ==> Step(states[i], es[i], states[i + 1])
  }

  /** A putbuf comes from a producer that holds a buffer: it follows a getbuf, once. */
  ghost predicate PutsHeld(s: State, e: Event)
  {
    e.PutBegin? ==> e.producer in s.producers && s.producers[e.producer].Holding?
  }

  /** So do the putbufs among the first `i` steps of a run. */
  ghost predicate Careful(es: seq<Event>, states: seq<State>, i: nat)
    requires i < |states| == |es| + 1
  {
    forall k :: 0 <= k < i ==> PutsHeld(states[k], es[k])
  }
}
