/** drivers/vmq/main.c: the buffer manager itself. Each method is what one thread does between
    two points where another may run; `View` is the state the theorems speak of. */
module VmqManagement {
  import opened BuddyBlocks
  import BuddyLayout
  import opened BuddyAllocation
  import opened VmqState
  import opened VmqPages
  import opened VmqProofs
  import opened VmqTheorems
  import opened VmqTransfer
  import opened Options
  import opened Sequences

  datatype Status = Ok | Invalid | Busy | Fault | NoEntry | WouldBlock | Crash

  // ---- What the steps of a putbuf do to the queues ----

  lemma {:induction false} PutBeginEffect(s: State, j: nat, s': State)
    requires Took(s, PutBegin(j), s')
    ensures j in s.producers && s.producers[j].Holding? && s.producers[j].buffer in s.buffers
    ensures var id := s.producers[j].buffer;
            && s'.publishing == Some(Publish(j, id, 0)) && s'.published == s.published + [id]
            && s'.consumers == s.consumers && s'.buffers == s.buffers
  {
  }

  lemma {:induction false} PutNextEffect(s: State, s': State)
    requires Took(s, PutNext, s')
    ensures s.publishing.Some? && s.publishing.value.next < |s.consumers|
    ensures var p := s.publishing.value;
            var c := s.consumers[p.next];
            && s'.publishing == Some(p.(next := p.next + 1)) && s'.published == s.published
            && s'.consumers == s.consumers[p.next := c.(items := c.items + [p.buffer])] && p.buffer in s'.buffers
  {
  }

  lemma {:induction false} PutEndEffect(s: State, s': State)
    requires Took(s, PutEnd, s') && s.publishing.value.buffer in s.buffers
    ensures s'.publishing.None? && s'.published == s.published && s'.consumers == s.consumers
    ensures s'.producers == s.producers[s.publishing.value.producer := Idle]
    ensures s.publishing.value.buffer in s'.buffers <==> s.publishing.value.next > 0
  {
  }

  class VmqManager {
    const size: nat
    const pageSize: nat
    const maxItemCount: int
    const ba: BuddyAllocator
    const shm: array<Byte>
    var buffers: map<BufferId, Buffer>
    var consumers: seq<Consumer>
    var producers: map<nat, Producer>
    var publishing: Option<Publish>
    var bufItemCount: int
    var bufItemAllocCount: nat
    var bufItemRemoveCount: int
    var bufFullCount: nat
    /** History, which no other field depends on: what was published, and the bytes then. */
    var published: seq<BufferId>
    var contents: map<BufferId, seq<Byte>>

    ghost function View(): State
      reads this, shm, ba
    {
      State(size, pageSize, maxItemCount, ba.blocks, shm[..], buffers, consumers, producers, publishing,
            bufItemCount, bufItemAllocCount, bufItemRemoveCount, bufFullCount, published, contents)
    }

    /** The allocator is sound, and the entry past the end of its bitmap stops coalescing. */
    ghost predicate Linked()
      reads this, ba, ba.bitmap
    {
      && ba.Valid() && ba.size == size && ba.pageSize == pageSize && 0 < pageSize
      && BuddyLayout.StopsCoalescing(ba.nrPages, ba.bitmap[ba.nrPages])
    }

    ghost predicate Valid()
      reads this, shm, ba, ba.bitmap
    {
      Linked() && Inv(View())
    }

    constructor (size: nat, pageSize: nat, maxItemCount: int, ba: BuddyAllocator, shm: array<Byte>)
      requires ba.Valid() && ba.size == size && ba.pageSize == pageSize && MIN_PAGE_SIZE <= pageSize
      requires ba.blocks == BuddyLayout.Initial(ba.nrPages) && shm.Length == size
      requires BuddyLayout.StopsCoalescing(ba.nrPages, ba.bitmap[ba.nrPages])
      ensures Valid() && Init(View()) && this.ba == ba && this.shm == shm && this.maxItemCount == maxItemCount
    {
      this.size, this.pageSize, this.maxItemCount, this.ba, this.shm := size, pageSize, maxItemCount, ba, shm;
      buffers, consumers, producers, publishing := map[], [], map[], None;
      bufItemCount, bufItemAllocCount, bufItemRemoveCount, bufFullCount := 0, 0, 0, 0;
      published, contents := [], map[];
      new;
      InitKeeps(View());
    }

    // ---- vmq_setup ----

    method SetupProducer(j: nat)
      requires Valid() && publishing.None? && j !in producers
      modifies this`producers
      ensures Valid() && Took(old(View()), OpenProducer(j), View())
      ensures producers == old(producers)[j := Idle]
    {
      hide InvWith;
      StepDefinedKeeps(View(), OpenProducer(j));
      producers := producers[j := Idle];
    }

    method SetupConsumer()
      requires Valid() && publishing.None?
      modifies this`consumers
      ensures Valid() && Took(old(View()), OpenConsumer, View())
      ensures consumers == old(consumers) + [Consumer([], None, |published|, [])]
    {
      hide InvWith;
      StepDefinedKeeps(View(), OpenConsumer);
      consumers := consumers + [Consumer([], None, |published|, [])];
    }

    // ---- vmq_getbuf ----

    method GetbufCheck(j: nat, reqSize: int) returns (status: Status)
      requires Valid() && j in producers && (producers[j].Idle? || producers[j].Holding?)
      modifies this`producers
      ensures Valid()
      ensures status == if old(producers[j]).Holding? then Busy
                        else if reqSize <= 0 || reqSize > size then Fault
                        else if maxItemCount > 0 && bufItemCount >= maxItemCount then WouldBlock
                        else Ok
      ensures if status.Ok? then Took(old(View()), Check(j, reqSize), View()) else View() == old(View())
      ensures status.Ok? ==> reqSize > 0 && producers == old(producers)[j := Checked(reqSize)]
    {
      hide InvWith;
      if producers[j].Holding? {
        return Busy;
      }
      if reqSize <= 0 || reqSize > size {
        return Fault;
      }
      if maxItemCount > 0 && bufItemCount >= maxItemCount {
        return WouldBlock;
      }
      StepDefinedKeeps(View(), Check(j, reqSize));
      producers := producers[j := Checked(reqSize)];
      status := Ok;
    }

    /** `alloc_shared_memory` for producer `j`, the first time or on waking. */
    method GetbufAlloc(j: nat) returns (status: Status, page: int)
      requires Valid() && j in producers && (producers[j].Checked? || producers[j].Waiting?)
      modifies this`producers, ba`blocks, ba.bitmap
      ensures Valid()
      ensures status.Ok? ==> page >= 0 && Took(old(View()), Page(j, page), View())
      ensures status != Ok ==> status == WouldBlock && NoFit(old(ba.blocks), OrderFor(old(producers[j]).size, pageSize))
      ensures status != Ok ==>
                if old(producers[j]).Checked? then Took(old(View()), Full(j), View()) else View() == old(View())
      ensures var size := old(producers[j]).size;
              producers == if status.Ok? then old(producers)[j := Paged(size, page)]
                           else if old(producers[j]).Checked? then old(producers)[j := Missed(size)] else old(producers)
    {
      hide InvWith, BuddyLayout.Represents, Tiling, Canonical, OrderFor, Carve, NoFit, IsBestFit;
      var reqSize := producers[j].size;
      WaiterKeeps(View(), j);
      assert ToUnsigned(reqSize) == reqSize;
      page := ba.Alloc(reqSize);
      if page < 0 {
        if producers[j].Checked? {
          StepDefinedKeeps(old(View()), Full(j));
          producers := producers[j := Missed(reqSize)];
        }
        return WouldBlock, page;
      }
      StepDefinedKeeps(old(View()), Page(j, page));
      producers := producers[j := Paged(reqSize, page)];
      status := Ok;
    }

    method GetbufCountFull(j: nat)
      requires Valid() && publishing.None? && j in producers && producers[j].Missed?
      modifies this`producers, this`bufFullCount
      ensures Valid() && Took(old(View()), CountFull(j), View())
      ensures producers == old(producers)[j := Waiting(old(producers[j]).size)] && bufFullCount == old(bufFullCount) + 1
    {
      hide InvWith;
      StepDefinedKeeps(View(), CountFull(j));
      producers := producers[j := Waiting(producers[j].size)];
      bufFullCount := bufFullCount + 1;
    }

    method GetbufInterrupted(j: nat)
      requires Valid() && j in producers && producers[j].Waiting?
      modifies this`producers
      ensures Valid() && Took(old(View()), Abort(j), View())
      ensures producers == old(producers)[j := Idle]
    {
      hide InvWith;
      StepDefinedKeeps(View(), Abort(j));
      producers := producers[j := Idle];
    }

    method GetbufCommit(j: nat) returns (offset: nat)
      requires Valid() && publishing.None? && j in producers && producers[j].Paged?
      modifies this`producers, this`buffers, this`bufItemCount, this`bufItemAllocCount
      ensures Valid() && Took(old(View()), Commit(j), View())
      ensures offset == old(producers[j]).page * pageSize && producers == old(producers)[j := Holding(old(bufItemAllocCount))]
      ensures buffers == old(buffers)[old(bufItemAllocCount) := Buffer(offset, old(producers[j]).size, 0)]
      ensures old(bufItemAllocCount) !in old(buffers) && bufItemCount == old(bufItemCount) + 1
    {
      hide InvWith;
      StepDefinedKeeps(View(), Commit(j));
      NextIsNew(View());
      var id := bufItemAllocCount;
      bufItemCount := bufItemCount + 1;
      bufItemAllocCount := bufItemAllocCount + 1;
      offset := producers[j].page * pageSize;
      buffers := buffers[id := Buffer(offset, producers[j].size, 0)];
      producers := producers[j := Holding(id)];
    }

    /** A producer fills the buffer it holds. */
    method WriteByte(j: nat, at: nat, byte: Byte)
      requires Valid() && j in producers && producers[j].Holding? && producers[j].buffer in buffers
      requires at < buffers[producers[j].buffer].size
      requires publishing.Some? ==> publishing.value.producer != j
      modifies shm
      ensures Valid() && Took(old(View()), Write(j, at, byte), View())
      ensures shm[..] == old(shm[..])[buffers[producers[j].buffer].offset + at := byte]
    {
      hide InvWith;
      StepDefinedKeeps(View(), Write(j, at, byte));
      shm[buffers[producers[j].buffer].offset + at] := byte;
    }

    // ---- vmq_putbuf ----

    /** `Crash` is the null dereference of a producer that holds no buffer. */
    method PutbufBegin(j: nat, offset: int) returns (status: Status)
      requires Valid() && publishing.None? && j in producers
      modifies this`publishing, this`published, this`contents
      ensures Valid()
      ensures producers[j].Holding? ==> producers[j].buffer in buffers
      ensures status == if !producers[j].Holding? then Crash
                        else if buffers[producers[j].buffer].offset != offset then Invalid
                        else Ok
      ensures status.Ok? ==> Took(old(View()), PutBegin(j), View())
      ensures !status.Ok? ==> View() == old(View())
    {
      hide InvWith;
      if !producers[j].Holding? {
        return Crash;
      }
      PutBeginKeeps(View(), j);
      var id := producers[j].buffer;
      if buffers[id].offset != offset {
        return Invalid;
      }
      publishing := Some(Publish(j, id, 0));
      contents := contents[id := shm[buffers[id].offset..buffers[id].offset + buffers[id].size]];
      published := published + [id];
      status := Ok;
    }

    /** One round of the loop over the consumers. */
    method PutbufNext()
      requires Valid() && publishing.Some? && publishing.value.next < |consumers|
      modifies this`publishing, this`buffers, this`consumers
      ensures Valid() && Took(old(View()), PutNext, View())
    {
      hide InvWith;
      StepDefinedKeeps(View(), PutNext);
      var p := publishing.value;
      var con := consumers[p.next];
      buffers := buffers[p.buffer := buffers[p.buffer].(refcnt := buffers[p.buffer].refcnt + 1)];
      consumers := consumers[p.next := con.(items := con.items + [p.buffer])];
      publishing := Some(p.(next := p.next + 1));
    }

    method PutbufEnd()
      requires Valid() && publishing.Some? && publishing.value.next >= |consumers|
      modifies this`publishing, this`producers, this`buffers, this`bufItemCount, this`bufItemRemoveCount, ba`blocks, ba.bitmap
      ensures Valid() && Took(old(View()), PutEnd, View())
    {
      hide InvWith, Free, Removable;
      StepDefinedKeeps(View(), PutEnd);
      var p := publishing.value;
      if p.next == 0 {
        RemoveBufferItem(p.buffer);
      }
      publishing := None;
      producers := producers[p.producer := Idle];
    }

    /** putbuf with nobody interrupting: every consumer's queue gains the buffer, which is
        removed when there is no consumer. */
    method Putbuf(j: nat, offset: int) returns (status: Status)
      requires Valid() && publishing.None? && j in producers
      modifies this, ba`blocks, ba.bitmap
      ensures Valid() && publishing.None? && |consumers| == |old(consumers)|
      ensures old(producers)[j].Holding? ==> old(producers)[j].buffer in old(buffers)
      ensures status == if !old(producers)[j].Holding? then Crash
                        else if old(buffers)[old(producers)[j].buffer].offset != offset then Invalid
                        else Ok
      ensures status != Ok ==> View() == old(View())
      ensures status.Ok? ==> published == old(published) + [old(producers)[j].buffer]
      ensures status.Ok? ==> producers == old(producers)[j := Idle]
      ensures status.Ok? ==> forall i :: 0 <= i < |consumers| ==>
                consumers[i] == old(consumers)[i].(items := old(consumers)[i].items + [old(producers)[j].buffer])
      ensures status.Ok? ==> (old(producers)[j].buffer in buffers <==> old(consumers) != [])
    {
      hide Valid, Took;
      ghost var before := View();
      status := PutbufBegin(j, offset);
      if !status.Ok? {
        return;
      }
      PutBeginEffect(before, j, View());
      ghost var id := before.producers[j].buffer;
      var i := 0;
      while i < |consumers|
        invariant Valid() && publishing == Some(Publish(j, id, i)) && 0 <= i <= |consumers| == |old(consumers)|
        invariant published == old(published) + [id] && id in buffers && producers == old(producers)
        invariant forall c :: 0 <= c < |consumers| ==>
                    consumers[c] == if c < i then old(consumers)[c].(items := old(consumers)[c].items + [id]) else old(consumers)[c]
      {
        before := View();
        PutbufNext();
        PutNextEffect(before, View());
        i := i + 1;
      }
      before := View();
      PutbufEnd();
      PutEndEffect(before, View());
    }

    // ---- Dropping buffers ----

    method RemoveBufferItem(id: BufferId)
      requires Linked() && Removable(View(), id)
      modifies this`buffers, this`bufItemCount, this`bufItemRemoveCount, ba`blocks, ba.bitmap
      ensures Linked() && View() == RemoveBuffer(old(View()), id)
    {
      var index := buffers[id].offset / pageSize;
      var strayed := ba.Free(index);
      bufItemCount := bufItemCount - 1;
      bufItemRemoveCount := bufItemRemoveCount + 1;
      buffers := buffers - {id};
    }

    method UnrefBuffer(id: BufferId) returns (removed: bool)
      requires Linked() && Unrefable(View(), id)
      modifies this`buffers, this`bufItemCount, this`bufItemRemoveCount, ba`blocks, ba.bitmap
      ensures Linked() && View() == Unref(old(View()), id) && (removed <==> old(buffers[id].refcnt) == 1)
    {
      if buffers[id].refcnt == 1 {
        RemoveBufferItem(id);
        return true;
      }
      buffers := buffers[id := buffers[id].(refcnt := buffers[id].refcnt - 1)];
      return false;
    }

    // ---- vmq_getitem, vmq_putitem ----

    method GetItem(i: nat) returns (status: Status, offset: nat, length: nat)
      requires Valid() && i < |consumers|
      modifies this`consumers
      ensures Valid()
      ensures status == if old(consumers[i]).item.Some? then Busy
                        else if old(consumers[i]).items == [] then WouldBlock else Ok
      ensures status.Ok? ==> Took(old(View()), VmqState.GetItem(i), View())
      ensures status.Ok? ==>
                var c := old(consumers[i]);
                consumers == old(consumers)[i := Consumer(c.items[1..], Some(c.items[0]), c.start, c.taken + [c.items[0]])]
      ensures status.Ok? ==> old(consumers[i]).items[0] in buffers
                             && offset == buffers[old(consumers[i]).items[0]].offset
                             && length == buffers[old(consumers[i]).items[0]].size
      ensures !status.Ok? ==> View() == old(View())
    {
      hide InvWith;
      var con := consumers[i];
      if con.item.Some? {
        return Busy, 0, 0;
      }
      if con.items == [] {
        return WouldBlock, 0, 0;
      }
      StepDefinedKeeps(View(), VmqState.GetItem(i));
      var id := con.items[0];
      consumers := consumers[i := con.(item := Some(id), items := con.items[1..], taken := con.taken + [id])];
      HeldItem(View(), i);
      return Ok, buffers[id].offset, buffers[id].size;
    }

    method PutItem(i: nat) returns (status: Status)
      requires Valid() && publishing.None? && i < |consumers|
      modifies this`consumers, this`buffers, this`bufItemCount, this`bufItemRemoveCount, ba`blocks, ba.bitmap
      ensures Valid()
      ensures status == if old(consumers[i]).item.None? then NoEntry else Ok
      ensures status.Ok? ==> HandedBack(old(consumers), old(buffers), consumers, buffers, i)
      ensures status.Ok? ==> Took(old(View()), VmqState.PutItem(i), View())
      ensures !status.Ok? ==> View() == old(View())
    {
      hide InvWith, HandedBack;
      var con := consumers[i];
      if con.item.None? {
        return NoEntry;
      }
      StepDefinedKeeps(View(), VmqState.PutItem(i));
      consumers := consumers[i := con.(item := None)];
      var _ := UnrefBuffer(con.item.value);
      status := Ok;
      PutItemHands(old(View()), i, View());
    }

    // ---- vmq_release ----

    method ReleaseConsumer(i: nat)
      requires Valid() && publishing.None? && i < |consumers|
      modifies this`consumers, this`buffers, this`bufItemCount, this`bufItemRemoveCount, ba`blocks, ba.bitmap
      ensures Valid() && Took(old(View()), CloseConsumer(i), View())
      ensures consumers == old(consumers)[..i] + old(consumers)[i + 1..]
      ensures forall id :: DroppedTo(old(buffers), buffers, id, RefsBy(old(consumers[i]), id))
    {
      hide InvWith, UnrefAll, AllUnrefable, DroppedTo, RefsBy;
      ghost var s := View();
      StepDefinedKeeps(s, CloseConsumer(i));
      var con := consumers[i];
      consumers := consumers[..i] + consumers[i + 1..];
      DropReferences(con);
      forall id
        ensures DroppedTo(s.buffers, buffers, id, RefsBy(con, id))
      {
        CloseConsumerEffect(s, i, View(), id);
      }
    }

    /** Drops what the consumer holds and what is queued for it. */
    method DropReferences(con: Consumer)
      requires Linked() && AllUnrefable(View(), Held(con))
      modifies this`buffers, this`bufItemCount, this`bufItemRemoveCount, ba`blocks, ba.bitmap
      ensures Linked() && View() == UnrefAll(old(View()), Held(con))
    {
      ghost var s1, rest := View(), Held(con);
      if con.item.Some? {
        assert rest[0] == con.item.value && rest[1..] == con.items;
        var _ := UnrefBuffer(con.item.value);
        rest := rest[1..];
      }
      assert rest == con.items;
      var items := con.items;
      while items != []
        invariant Linked() && AllUnrefable(View(), items)
        invariant UnrefAll(View(), items) == UnrefAll(s1, Held(con))
        decreases |items|
      {
        var _ := UnrefBuffer(items[0]);
        items := items[1..];
      }
    }

    method ReleaseProducer(j: nat)
      requires Valid() && publishing.None? && j in producers && (producers[j].Idle? || producers[j].Holding?)
      modifies this`producers, this`buffers, this`bufItemCount, this`bufItemRemoveCount, ba`blocks, ba.bitmap
      ensures Valid() && Took(old(View()), CloseProducer(j), View())
      ensures producers == old(producers) - {j}
      ensures buffers == if old(producers[j]).Holding? then old(buffers) - {old(producers[j]).buffer} else old(buffers)
    {
      hide InvWith;
      StepDefinedKeeps(View(), CloseProducer(j));
      if producers[j].Holding? {
        RemoveBufferItem(producers[j].buffer);
      }
      producers := producers - {j};
    }
  }
}
