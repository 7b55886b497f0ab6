# PiFrame's algorithmic cores, modelled and proved in Dafny

PiFrame is a C framework for embedded devices. This project models the parts of it whose correctness is not
obvious, step for step as the C code takes them, and proves what they are for.

- **Buddy allocator** (`drivers/vmq/balloc.c`; `Dyadic`, `BuddyBlocks`, `BuddyLayout`, `BuddyAllocator`). The class
  `BuddyAllocator` works in place on one bitmap of `{inUse, order}` entries, in which only block heads mean anything.
  It is proved against a map from block heads to entries. The pages are always tiled by size-aligned blocks, fully
  coalesced, and such a tiling is determined by its allocated blocks alone: so frees commute, a free undoes an
  allocation, and history does not show.
- **VMQ broadcast queue** (`drivers/vmq/main.c`; `VmqState`, `VmqPages`, `VmqProofs`, `VmqTheorems`,
  `VmqTransfer`, `VmqManager`).
  A state machine whose steps are what one thread does between two points at which others may run: getbuf is a check, a
  page allocation and a commit; putbuf takes a step for each consumer, and consumers may take items in between. The
  class `VmqManager` runs on the verified allocator and a byte array, and each method is proved to take exactly its
  step. A step is undefined only if it is a putbuf without a buffer; as long as there is none, reference counts are
  exact at each step, all consumers see one order, a buffer has the size asked for, and each byte a consumer sees is the
  one its producer wrote last.
- **Timing wheel** (`lib/util/utilTimer.c`; `TimerSpec`, `WheelSlots`, `TimerWheel`). `TimerSpec` is a plain set of
  timers with runs of ticks; the class `TimerWheel` is the five levels of slots with lazy cascading and the list that
  queues what is armed while a tick runs. Each tick of the wheel is proved to be a tick of the plain set.
- **Configuration files** (`service/config/`, `scripts/pf-getConfig`; `ConfigFiles`, `ConfigStore`). Saves alternate
  between two files and end with a time stamp; a restart loads the file with the later stamp, as the script reads it
  with grep, awk and the shell's integers, and deletes a chosen file that does not parse. Power may be cut after any
  byte of any save, any number of times. The parser is a parameter; what is assumed of the texts saved is `IsText`.
- **Request and reply** (`lib/pfquery/pfquery.c` and the key counter of `drivers/vmq/main.c`; `QueryState`, `Query`).
- **Watchdog** (`service/watchdog/watchdog.c`; `WatchdogState`, `Watchdog`).
- **Linked lists** (`include/list.h`; `ListHeads`): `next` and `prev` on a heap of nodes.
- **CRC** (`lib/util/utilAvcrc.c`; `CrcBits`, `CrcTable`, `Crc`): the table form refines the bit-serial shift register
  of Annex A of ISO/IEC 13818-1.

Each stateful source file has a class whose methods change their fields as the C code does, loops included, and are
proved against functions on values; what the code promises is then proved about those functions and about whole runs.
`Arithmetic`, `Options` and `Sequences` are shared helpers. Fields called history (`log`, `published`, `contents`, `last`, `start`
and the like) are read by no step; they let a state say what has happened, and the theorems about runs tie them to the
events.

Six promises turned out to hold only under a condition; the exact condition is proved in each case, with an input at
which it fails.

- `ba_free` may read, and then write, the entry one past the end of the bitmap. It reads it exactly when the free
  makes the last of the blocks laid down at creation whole (`BuddyLayout.LooksPastEnd`), and goes on to merge with it
  exactly when that entry then looks like a free block of the same order (`BuddyLayout.PastEndIsNoBuddy`,
  `BuddyLayout.PastEndIsMerged` and `BuddyAllocation.BuddyAllocator.Free`; `BuddyLayout.PastEndExample` is an instance
  with one page).
- A putbuf by a producer that holds no buffer dereferences null, which the driver does not test for; every other step
  that a thread can take is defined (`VmqTheorems.StepKeeps`, `VmqTheorems.PutbufWithoutBuffer`). What holds of whole
  runs is stated for runs whose putbufs hold a buffer (`Careful`).
- Of two stamped files the newer is chosen only if its second is later, or equal and its suffix is 0
  (`ConfigFiles.NewestChosenIff`, `ConfigFiles.OlderChosen`); otherwise a restart loads the text before it (`ConfigStore.SavedIsLoadedIff`).
- A setting whose text contains `LastTime:`, as a free-text setting may, spoils the stamp of its own file
  (`ConfigFiles.StampIff`, `ConfigFiles.MarkedCutStamp`). Saved whole, it is loaded again exactly when the other file
  has no stamp (`ConfigStore.SavedIsLoadedIff`); a save of it cut short happened wholly or not at all exactly when what
  was written of the text has no marker or the other file no stamp (`ConfigStore.CutIsAtomicIff`). Otherwise the
  default is loaded, and everything saved before is lost (`ConfigFiles.MarkedSaveLost`, `ConfigFiles.MarkedCutLost`).
- Every reply finds the request it is for exactly while no two waiting requests are a multiple of 2^32 - 1 keys apart
  (`QueryState.RepliesFindAllIff`). `QueryState.SharedKeyLosesReply` is a run of 2^32 grants in which a requester
  returns without the reply that was processed while it waited.
- The updates after a START or ALIVE act on a service at the right second exactly when `timeout + 1` fits an `int`
  (`WatchdogState.TimelyIff`). With a timeout of -1, passed on as `uint32_t`, one second of silence is enough, and with
  one of 2^31 - 1 none is needed (`WatchdogState.TimeoutTooLong`).

The comment on `PFQueryReplyProcess` (`lib/pfquery/pfquery.c:152-157`) promises 0 for a delivered reply and -1
otherwise; the code returns 1 and 0, and the model follows the code.

## Model

| member | source | states |
|---|---|---|
| BuddyAllocation.ComputeOrder | drivers/vmq/balloc.c:58-67 | the order loop, over 32-bit unsigned arithmetic, ends with the order of the request, at most 32 |
| BuddyAllocation.OrderForLeast | drivers/vmq/balloc.c:58-67 | for a positive request the order is the least k with len <= 2^k pages: any j holds the request iff order <= j |
| BuddyAllocation.OrderForEmpty | drivers/vmq/balloc.c:58-67 | a request of 0 bytes wraps around to order 32, which no allocator can meet |
| BuddyAllocation.TooLarge | drivers/vmq/balloc.c:115-117 | refusing orders above max_order is right: no free block could have met them |
| BuddyAllocation.BuddyAllocator.LayOut | drivers/vmq/balloc.c:88-97 | the loop over the binary digits of nr_pages lays out a bitmap that represents the initial blocks |
| BuddyAllocation.BuddyAllocator.Make | drivers/vmq/balloc.c:82-97 | the new bitmap represents the binary decomposition of nr_pages, whatever that number is; the memory past it is untouched |
| BuddyAllocation.BuddyAllocator.Create | drivers/vmq/balloc.c:69-100 | a page size that is no multiple of 128 is refused, one of zero divides by zero; otherwise a sound allocator with the initial layout |
| BuddyAllocation.BuddyAllocator.Scan | drivers/vmq/balloc.c:119-131 | the scan ends with the first of the smallest sufficient free blocks, or -1 when there is none |
| BuddyAllocation.BuddyAllocator.SplitTo | drivers/vmq/balloc.c:136-141 | the split loop ends, and leaves the bitmap of the block list split down to the order, stale interior entries included |
| BuddyAllocation.BuddyAllocator.Alloc | drivers/vmq/balloc.c:108-146 | best fit carved from the old block list, or -1 with nothing changed exactly when no free block is large enough |
| BuddyAllocation.BuddyAllocator.RaiseOrders | drivers/vmq/balloc.c:158-159 | both entries of a pair go up one order |
| BuddyAllocation.BuddyAllocator.CoalesceFrom | drivers/vmq/balloc.c:154-165 | the coalescing loop ends with the bitmap of the fully coalesced block list and the entry past the end not written, unless it strays there, which it does exactly when that entry is read and looks like a free buddy |
| BuddyAllocation.BuddyAllocator.Free | drivers/vmq/balloc.c:148-166 | freeing an allocated block keeps the bitmap sound and gives the block list of the specification, unless it strays past the bitmap; it strays iff it completes the last block and the entry there looks like a free buddy, and then writes that entry |
| BuddyBlocks.BuddyIsBlock | drivers/vmq/balloc.c:38-38 | the buddy of a head is a head of no larger order, or the index nr_pages |
| BuddyBlocks.SplitKeepsTiling | drivers/vmq/balloc.c:136-141 | halving a block keeps an aligned tiling, and its new buddy is a stale interior entry |
| BuddyBlocks.CoalesceCorrect | drivers/vmq/balloc.c:154-165 | coalescing from one block keeps the tiling and the allocated blocks, and leaves no two free buddies of equal order |
| BuddyBlocks.FreeCorrect | drivers/vmq/balloc.c:148-166 | a free removes exactly that block from the allocated ones and leaves a fully coalesced tiling |
| BuddyBlocks.CarveCorrect | drivers/vmq/balloc.c:136-142 | an allocation adds exactly one block, inside the free block it was carved from, and disturbs no other |
| BuddyBlocks.FreeStretch | drivers/vmq/balloc.c:154-165 | fully coalesced means that every aligned stretch of free pages lies in one free block |
| BuddyBlocks.Uniqueness | drivers/vmq/balloc.c:148-166 | the whole block list is determined by the set of allocated (index, order) pairs |
| BuddyBlocks.Completeness | drivers/vmq/balloc.c:119-134 | when the scan finds nothing, no aligned window of 2^k pages is wholly free |
| BuddyBlocks.FitIsClear | drivers/vmq/balloc.c:119-134 | conversely a free block that fits is such a window |
| BuddyBlocks.FreesCommute | drivers/vmq/balloc.c:148-166 | two frees give the same block list in either order |
| BuddyBlocks.FreeUndoesCarve | drivers/vmq/balloc.c:108-166 | allocating and freeing restores the block list |
| BuddyLayout.InitialCorrect | drivers/vmq/balloc.c:92-97 | the initial layout tiles the pages with free, aligned, fully coalesced blocks |
| BuddyLayout.OrderFits | drivers/vmq/balloc.c:41-44 | every order is below 31, so fits its seven bits and `1 << order` fits an int |
| BuddyLayout.WalkListsBlocks | drivers/vmq/balloc.c:36-36 | the walk by NEXT_INDEX meets every block head once, by rising page, and ends at nr_pages |
| BuddyLayout.CanonicalForm | drivers/vmq/balloc.c:36-36 | two fully coalesced bitmaps with the same allocated blocks walk the same block list, whatever their stale entries |
| BuddyLayout.RunStaysCanonical | drivers/vmq/balloc.c:69-166 | every state of every run of allocations and frees is a fully coalesced aligned tiling |
| BuddyLayout.RunsAgree | drivers/vmq/balloc.c:69-166 | two runs that leave the same blocks allocated leave the same block list; with all freed it is the initial one |
| BuddyLayout.LooksPastEnd | drivers/vmq/balloc.c:155-157 | a free ends by reading bitmap[nr_pages] iff it makes the last of the initial blocks whole |
| BuddyLayout.PastEndIsNoBuddy | drivers/vmq/balloc.c:155-157 | if the entry there is allocated or of another order, no round merges with it |
| BuddyLayout.PastEndIsMerged | drivers/vmq/balloc.c:155-160 | otherwise the loop merges the already complete block with it: it writes past the end and leaves a block of no tiling |
| BuddyLayout.PastEndExample | drivers/vmq/balloc.c:155-160 | one page, allocated, and zeroed memory after the bitmap meet that condition |
| BuddyLayout.RoundReads | drivers/vmq/balloc.c:155-163 | each round reads at an index at most nr_pages; below nr_pages what it reads decides the round as the block list would, and at nr_pages coalescing is already complete |
| VmqPages.CarveOwns | drivers/vmq/main.c:157-166 | an allocated page gets one owner, whose bytes fit its block; all others keep theirs |
| VmqPages.FreeOwns | drivers/vmq/main.c:212-218 | a removed buffer frees exactly its own block |
| VmqPages.SpansDisjoint | drivers/vmq/main.c:264-310 | the byte ranges of any two owners of pages are disjoint |
| VmqPages.NoOwners | drivers/vmq/main.c:212-218 | with no owner left the allocator has its initial block list |
| VmqTheorems.StepKeeps | drivers/vmq/main.c:264-387 | a step a thread can take is defined (no dead buffer is named, no count goes below zero, no page freed twice) iff it is no putbuf without a buffer, and then it keeps the invariant |
| VmqTheorems.PutbufWithoutBuffer | drivers/vmq/main.c:754-757 | a putbuf by a producer that has just been set up is let through and undefined |
| VmqTheorems.RunKeeps | drivers/vmq/main.c:264-387 | the invariant holds in every state of every run, from a new manager on, whose putbufs so far held a buffer; the next step is undefined iff it is a putbuf without one |
| VmqTheorems.ExactReferences | drivers/vmq/main.c:200-227 | in every state a buffer's refcnt is the number of queued and held items naming it, a buffer being published is alive, and the item counters count the live buffers |
| VmqTheorems.AllClosed | drivers/vmq/main.c:872-934 | with all contexts released there are no buffers and the allocator is back to its initial block list |
| VmqTheorems.TotalOrder | drivers/vmq/main.c:312-354 | items a consumer has taken followed by its queue are the publications since it was set up, in the one global order, even midway through a putbuf |
| VmqTheorems.ContentsFixed | drivers/vmq/main.c:312-340 | the recorded bytes of a publication never change |
| VmqTheorems.Integrity | drivers/vmq/main.c:312-387 | the bytes a consumer holds between getitem and putitem are those the buffer had at putbuf, over any interleaving |
| VmqTheorems.BuffersApart | drivers/vmq/main.c:305-307 | live buffers lie inside the shared memory in disjoint ranges |
| VmqTheorems.AdmissionBound | drivers/vmq/main.c:271-302 | with maxItemCount M > 0 and at most P producers open, items never exceed M - 1 + P although check and count are apart |
| VmqTransfer.BufferAsAsked | drivers/vmq/main.c:264-310 | in every run, the commit of a getbuf gives the producer a new buffer of exactly the size its check was asked for, at the page it was given, whatever ran in between |
| VmqTransfer.BufferKeepsShape | drivers/vmq/main.c:264-387 | in every run a buffer keeps its offset and size until it is removed, and its name is not used again |
| VmqTransfer.HandedAsAsked | drivers/vmq/main.c:767-809 | in every run, as long as the buffer of a getbuf is there, and for every consumer it is handed to, it has the size asked for and the offset of its page |
| VmqTransfer.WrittenIsRead | drivers/vmq/main.c:673-836 | end to end: what a producer last wrote at a place in its buffer before putbuf is what every consumer finds there between getitem and putitem, over any interleaving |
| VmqTransfer.StepKeepsByte | drivers/vmq/main.c:673-733 | a write sets the one byte it is for; no other step changes a byte of a buffer that is being filled |
| VmqTransfer.GetItemHands | drivers/vmq/main.c:344-354 | in every run a getitem takes the head of the queue, which is a live buffer, and changes no other consumer |
| VmqTransfer.PutItemDrops | drivers/vmq/main.c:376-387 | in every run, after a putitem the consumer has no item, the others are as before, and the buffer is gone iff its refcnt was 1, else has one reference less |
| VmqTransfer.CloseConsumerDrops | drivers/vmq/main.c:885-910 | in every run, the release of a consumer takes it off the list, drops exactly its references, and frees the buffers only it referred to |
| VmqTransfer.HistoryIs | drivers/vmq/main.c:312-354 | in every run the history fields follow the events: published grows by what each putbuf puts, taken by what each getitem takes, start is set when the consumer is |
| VmqProofs.UnrefKeeps | drivers/vmq/main.c:220-227 | dropping one reference is defined and keeps the invariant; the last one frees the buffer |
| VmqProofs.PageKeeps | drivers/vmq/main.c:279-291 | taking pages for a producer keeps the invariant |
| VmqProofs.CommitKeeps | drivers/vmq/main.c:293-307 | turning the page into a buffer keeps the invariant |
| VmqProofs.WriteKeeps | drivers/vmq/main.c:673-733 | a producer that writes only the buffer it holds changes no published bytes |
| VmqProofs.PutBeginKeeps | drivers/vmq/main.c:735-765 | the start of a putbuf by a producer that holds a buffer is defined and keeps the invariant |
| VmqProofs.PutNextKeeps | drivers/vmq/main.c:320-333 | each round of the publish loop is defined and keeps the invariant, whatever consumers took before it |
| VmqProofs.PutEndKeeps | drivers/vmq/main.c:335-339 | the end of the loop is defined and keeps the invariant; with no consumers the buffer goes |
| VmqProofs.GetItemKeeps | drivers/vmq/main.c:344-354 | taking an item, with or without a putbuf under way, keeps the invariant |
| VmqProofs.PutItemKeeps | drivers/vmq/main.c:376-387 | returning an item is defined and keeps the invariant |
| VmqProofs.CloseConsumerKeeps | drivers/vmq/main.c:885-910 | releasing a consumer drops exactly its references |
| VmqProofs.CloseProducerKeeps | drivers/vmq/main.c:911-930 | releasing a producer frees the buffer it holds, if any |
| VmqManagement.VmqManager.constructor | drivers/vmq/main.c:391-432 | a manager over a new allocator and its shared memory starts in the initial state |
| VmqManagement.VmqManager.SetupProducer | drivers/vmq/main.c:630-643 | takes exactly the step that opens a producer, which is idle; the others are as before |
| VmqManagement.VmqManager.SetupConsumer | drivers/vmq/main.c:644-655 | takes exactly the step that opens a consumer, at the end of the list, with an empty queue and no item |
| VmqManagement.VmqManager.GetbufCheck | drivers/vmq/main.c:271-277 | which requests are refused, in order of the tests, and the step of those let past the count |
| VmqManagement.VmqManager.GetbufAlloc | drivers/vmq/main.c:279-291 | takes the best-fitting page, or would block exactly when none fits |
| VmqManagement.VmqManager.GetbufCountFull | drivers/vmq/main.c:281-283 | the failed attempt is counted, once |
| VmqManagement.VmqManager.GetbufInterrupted | drivers/vmq/main.c:285-289 | a producer interrupted while it waits for pages is as before its getbuf |
| VmqManagement.VmqManager.GetbufCommit | drivers/vmq/main.c:293-307 | makes a buffer at the page's offset, of the size asked for, with no references, held by the producer, and counts it; all other buffers are as before |
| VmqManagement.VmqManager.WriteByte | drivers/vmq/main.c:673-733 | a producer writes one byte of the buffer it holds; every other byte is as before |
| VmqManagement.VmqManager.PutbufBegin | drivers/vmq/main.c:735-765 | a producer without a buffer crashes, an offset that is not the held buffer's is refused with nothing changed, and otherwise the putbuf begins |
| VmqManagement.VmqManager.PutbufNext | drivers/vmq/main.c:320-333 | one round: the next consumer's queue gains the buffer and its count goes up by one |
| VmqManagement.VmqManager.PutbufEnd | drivers/vmq/main.c:335-339 | the loop's end, which frees the buffer if nobody got it |
| VmqManagement.VmqManager.Putbuf | drivers/vmq/main.c:312-340 | uninterrupted, every consumer's queue gains the buffer, which stays iff there was a consumer; without a buffer to put it crashes |
| VmqManagement.VmqManager.RemoveBufferItem | drivers/vmq/main.c:200-218 | frees the buffer's pages and takes it off the count |
| VmqManagement.VmqManager.UnrefBuffer | drivers/vmq/main.c:220-227 | drops a reference and removes the buffer iff it was the last |
| VmqManagement.VmqManager.GetItem | drivers/vmq/main.c:767-809 | hands out the head of the queue with its offset and length, and takes it off the queue, or says why not with nothing changed |
| VmqManagement.VmqManager.PutItem | drivers/vmq/main.c:811-836 | the consumer has no item any more, the others are as before, and the buffer has one reference less, or is gone if it had but one; refuses when there is no item |
| VmqManagement.VmqManager.ReleaseConsumer | drivers/vmq/main.c:885-910 | takes exactly the step that closes a consumer: it goes from the list, and each buffer loses the references it had and goes with the last |
| VmqManagement.VmqManager.ReleaseProducer | drivers/vmq/main.c:911-930 | takes exactly the step that closes a producer: it goes, and with it the buffer it holds |
| TimerSpec.Period | lib/util/utilTimer.c:237-240 | for 50 <= msec < 2^31 the period p is the number of ticks of 50 ms with 50 p <= msec < 50 p + 50; below 50 it is 1; a negative msec counts as 2^32 more |
| TimerSpec.TakeAllTakes | lib/util/utilTimer.c:192-213 | a tick takes each due timer once, leaves the rest armed as they were, and re-arms only for later than the clock |
| TimerSpec.TakeAllRearms | lib/util/utilTimer.c:276-293 | a repeating timer is armed its own period after the clock |
| TimerSpec.NoCallbackTwice | lib/util/utilTimer.c:192-213 | in every run no callback runs twice on one tick, although callbacks add and re-arm timers |
| TimerSpec.TickLeavesNoneDue | lib/util/utilTimer.c:176-228 | after its tick no timer that was there before is overdue |
| TimerSpec.DeletedNeverRuns | lib/util/utilTimer.c:417-433 | in every run, after a delete of any timer added before it, no callback of it runs, however the callbacks of later ticks behave |
| TimerSpec.CallbackDeletedNeverRuns | lib/util/utilTimer.c:192-213 | the same for a delete by a callback: no entry of the log after that callback is of the deleted timer, neither on that tick nor on any later one |
| TimerSpec.KeepsExpiry | lib/util/utilTimer.c:242-253 | between the ticks that take it a timer keeps its expiry, and no tick passes it by |
| TimerSpec.NoDrift | lib/util/utilTimer.c:237-240 | consecutive callbacks of a repeating timer are exactly max(1, msec / 50) ticks apart (`IsPeriod`) |
| TimerSpec.AddedRuns | lib/util/utilTimer.c:380-392 | in every run, a timer added and not deleted runs first exactly max(1, msec / 50) ticks after the reading of the clock, or on the next tick if that one has passed; until then it is armed for that tick and unmarked |
| TimerSpec.AskedPeriod | lib/util/utilTimer.c:434-450 | from an add, or a change of its period, on and until the next change, a timer that runs and is armed again runs next exactly max(1, msec / 50) ticks later |
| TimerSpec.CallbackAdds | lib/util/utilTimer.c:380-392 | a timer a callback adds is there after it, its period after the clock the callback read |
| TimerSpec.CallbackSetsMsec | lib/util/utilTimer.c:276-293 | a period that its own callback sets is the one a timer is armed with again |
| TimerSpec.TakeTakes | lib/util/utilTimer.c:205-213 | taking one timer runs its callback iff it is not marked deleted, and leaves it armed iff that says so; no other timer is removed or armed anew |
| WheelSlots.SlotForBelongs | lib/util/utilTimer.c:100-140 | the slot a timer is put in satisfies the cascade invariant, before or after the tick's cascades |
| WheelSlots.CascadeGoesDown | lib/util/utilTimer.c:153-175 | a cascaded timer goes to a lower level, so never re-enters the slot being emptied |
| WheelSlots.CascadeLeaves | lib/util/utilTimer.c:153-175 | what a cascade leaves in the level satisfies the invariant for the next span |
| WheelSlots.DueSlot | lib/util/utilTimer.c:188-192 | after the cascades a timer is due iff it is in the slot of this tick |
| WheelSlots.NextLevel | lib/util/utilTimer.c:182-187 | testing `index == 1` after the cascade finds exactly the levels whose span starts at this tick |
| TimerWheels.SlotIsDue | lib/util/utilTimer.c:188-192 | the tv1 slot holds exactly the timers with expires <= T, each once |
| TimerWheels.NextTick | lib/util/utilTimer.c:214-216 | with that slot empty the wheel satisfies the invariant for T + 1 |
| TimerWheels.TimerWheel.constructor | lib/util/utilTimer.c:83-98 | an empty wheel at tick 0 |
| TimerWheels.TimerWheel.InternalAddTimer | lib/util/utilTimer.c:100-140 | files a timer at the tail of its slot, of the next tick's slot when overdue, or of the side list while a tick runs |
| TimerWheels.TimerWheel.MoveDown | lib/util/utilTimer.c:164-171 | one round of the cascade moves one timer down |
| TimerWheels.TimerWheel.CascadeTimers | lib/util/utilTimer.c:153-175 | empties the level's current slot into lower levels and moves its index on |
| TimerWheels.TimerWheel.Cascade | lib/util/utilTimer.c:182-187 | cascades every level whose turn it is and no other |
| TimerWheels.TimerWheel.Detach | lib/util/utilTimer.c:146-152 | takes the head of the tick's slot out of the wheel |
| TimerWheels.TimerWheel.TakeFirst | lib/util/utilTimer.c:192-213 | one turn of the repeat loop is one take of the plain set |
| TimerWheels.TimerWheel.Finish | lib/util/utilTimer.c:276-293 | re-arms the timer, to the side list, or frees it |
| TimerWheels.TimerWheel.Requeue | lib/util/utilTimer.c:217-226 | what was armed during the tick goes to the wheel, and the side list is empty |
| TimerWheels.TimerWheel.RunTick | lib/util/utilTimer.c:176-228 | refinement: a tick of the wheel takes exactly the due timers and is a tick of the plain set |
| TimerWheels.TimerWheel.TimerProcess | lib/util/utilTimer.c:230-234 | the clock moves on by one and the ticks up to it run: one, or two the first time |
| TimerWheels.TimerWheel.Perform | lib/util/utilTimer.c:380-450 | adding, deleting and setting a period, from callbacks or other threads, act as on the plain set |
| TimerWheels.TimerWheel.TimerAdd | lib/util/utilTimer.c:380-392 | a new key and a timer with that msec, unmarked, its period after the reading of the clock or the clock, whichever is earlier; all others as before |
| TimerWheels.TimerWheel.TimerDelete | lib/util/utilTimer.c:417-433 | marks the timer deleted, if there is one, and changes no other |
| TimerWheels.TimerWheel.TimerSetMsec | lib/util/utilTimer.c:434-450 | gives the timer, if there is one, the new msec, and changes nothing else |
| ConfigFiles.ValueOfDecimal | service/config/config-util.c:100-100 | a printed second reads back as itself |
| ConfigFiles.NewestChosenIff | scripts/pf-getConfig:29-45 | of two stamped files the one written last is chosen iff its second is later, or equal and its suffix is 0 |
| ConfigFiles.OlderChosen | scripts/pf-getConfig:29-45 | with the clock set back between two saves, the file written first is chosen |
| ConfigFiles.StampOfPrefix | scripts/pf-getConfig:15-27 | a save cut short, with no marker in what is written of its text, reads as unstamped until the first digit of its stamp is there, and then holds its whole text and a stamp no later than its second |
| ConfigFiles.StampIff | scripts/pf-getConfig:15-27 | the stamp of a completed save reads as its second iff no line of its text with the marker has a field that is not blank, as when there is no such line; otherwise it reads as nothing that compares |
| ConfigFiles.MarkedSaveLost | scripts/pf-getConfig:29-45 | any setting with the marker, saved whole beside any stamped file, makes the script choose neither |
| ConfigFiles.MarkedCutStamp | scripts/pf-getConfig:15-27 | a save of a text that has the marker only on lines of keys, cut anywhere after the marker, reads as nothing that compares |
| ConfigFiles.MarkedCutLost | scripts/pf-getConfig:29-45 | a setting with the marker, cut anywhere after it beside any stamped file, makes the script choose neither |
| ConfigFiles.ShapedMarked | scripts/pf-getConfig:15-27 | for the texts that are saved, the stamp is spoilt iff the text contains the marker |
| ConfigFiles.TextOfStamped | service/config/config-util.c:100-102 | the text of a saved file is what stands before its last line |
| ConfigFiles.StampedUnique | service/config/config-util.c:100-102 | the text of a stamped file is determined by the file |
| ConfigStore.CutKeeps | service/config/config-util.c:93-104 | wherever a save is cut, with no marker in what is written of its text, the restart chooses the text before it or the text being saved, whole |
| ConfigStore.SaveKeeps | service/config/config.c:471-498 | a completed save, later than all before it and with no marker in its text, is what a restart chooses, and the next save writes the other file |
| ConfigStore.StepKeeps | service/config/config.c:339-365 | boots, power-offs, regular saves, and cuts with no marker written keep the invariant |
| ConfigStore.RestartLoads | service/config/config.c:339-381 | in every regular run a restart finds a whole text at its first choice and deletes nothing; while up it is the current text, and the next save never overwrites the chosen file |
| ConfigStore.CutIsAtomic | service/config/config-util.c:77-111 | over regular runs, with any number of cuts, a cut save happened wholly or not at all, and not at all before its stamp is begun |
| ConfigStore.SavedIsLoaded | service/config/config.c:471-498 | in regular runs and with nothing cut short, a restart loads what was last saved or loaded |
| ConfigStore.SaveChosenIff | service/config/config-util.c:77-111 | in any state a completed save is chosen iff its text has no marker and the other stamp is a number not newer, or it has the marker and the other file no stamp; otherwise a marker makes neither chosen |
| ConfigStore.SavedIsLoadedIff | service/config/config.c:339-381 | save, power off, restart after any regular run: exactly when the text saved is loaded, when the text before it, and when the default |
| ConfigStore.CutAtomicIff | service/config/config-util.c:93-104 | per cut: a restart would load the text before or the one being saved iff what is written of that text has no marker or the other file no stamp |
| ConfigStore.CutIsAtomicIff | service/config/config-util.c:77-111 | the same over runs: after any regular run, a save cut at any byte happened wholly or not at all iff what was written of its text has no marker or the other file no stamp |
| ConfigStore.SafeIff | service/config/config-util.c:93-104 | every cut of every save of a text is atomic iff the text does not contain the marker |
| ConfigStore.KeptIsLoaded | service/config/config.c:384-460 | a start from a sound pair of files loads what they keep and deletes nothing |
| ConfigStore.Database.GetValidDBFile | service/config/config.c:339-365 | the script's choice between the two files, and its suffix as the save count |
| ConfigStore.Database.Boot | service/config/config.c:384-460 | a new process takes exactly the boot step, whatever the files hold: it deletes chosen files that do not parse, loads the first that does or the default, and will save to the other file |
| ConfigStore.Database.PowerOff | service/config/config.c:440-453 | with the power off only the files are left |
| ConfigStore.Database.SaveFile | service/config/config-util.c:77-111 | writes the file of the count's parity byte by byte up to where power lasts, and no other |
| ConfigStore.Database.Put | service/config/config.c:552-567 | a put marks the database dirty and counts the revision |
| ConfigStore.Database.Sync | service/config/config.c:471-498 | saves iff dirty or forced, and then takes exactly the save or the cut step, whatever the text and the second; regular ones keep the invariant |
| QueryState.KeysDistinct | drivers/vmq/main.c:838-848 | keys are never zero, and equal iff a multiple of 2^32 - 1 grants apart |
| QueryState.ReplyFindsIts | lib/pfquery/pfquery.c:57-88 | while waiting keys are distinct, a reply finds the request it is for |
| QueryState.RepliesFindAllIff | lib/pfquery/pfquery.c:57-88 | every waiting request is found by its replies iff no two are a multiple of 2^32 - 1 grants apart |
| QueryState.ReplyGoesToFirst | lib/pfquery/pfquery.c:57-88 | of two waiting requests with one key, the first on the list gets the second's reply |
| QueryState.SharedKeyLosesReply | lib/pfquery/pfquery.c:105-150 | a run of 2^32 grants in which a requester registers and leaves without a reply although one with its key was processed in between |
| QueryState.OnlyOwnReplies | lib/pfquery/pfquery.c:57-150 | in every run a requester that registers and leaves only returns a reply with its own key, processed in between |
| QueryState.ReturnsItsReply | lib/pfquery/pfquery.c:105-150 | in every run, from the events: a requester that registers and leaves, with no other request with its key waiting in between, returns a reply iff one with its key was processed in between, and then the last of those |
| QueryState.LeavesSoonAfterReply | lib/pfquery/pfquery.c:119-134 | in every run a requester waits at most once more after its reply is stored |
| QueryState.RoundsFor | lib/pfquery/pfquery.c:101-119 | the rounds are (timeout or 86400) * 4 - 1; a negative timeout, as unsigned, gives 2^32 more |
| QueryState.ReturnsInTime | lib/pfquery/pfquery.c:105-150 | in every run, a request registered with a timeout waits no more than (timeout or 86400) * 4 - 1 times |
| QueryState.WaitsItsTime | lib/pfquery/pfquery.c:105-150 | and exactly that often if it returns without a reply: it does not give up early |
| QueryState.NeverStuck | lib/pfquery/pfquery.c:105-150 | in every run a registered requester that has not returned can publish, wait once more or leave |
| QueryState.LogIsReplies | lib/pfquery/pfquery.c:158-169 | in every run the log is the replies of the events so far that process one with a key |
| QueryState.ReturnedStays | lib/pfquery/pfquery.c:136-149 | what a requester returns with is settled when it leaves |
| QueryState.StepKeeps | lib/pfquery/pfquery.c:57-150 | while waiting keys are distinct, each step keeps the invariant that ties stored replies, phases and wait counts to the replies processed |
| Queries.QueryTable.GetKey | drivers/vmq/main.c:838-848 | the counter steps over zero and grants the key of its number |
| Queries.QueryTable.Wait | lib/pfquery/pfquery.c:107-115 | lists the request at the tail, before it is published, with its wait count from the timeout, negative ones included |
| Queries.QueryTable.PutRequest | lib/pfquery/pfquery.c:117-117 | publishes the request once it is listed |
| Queries.QueryTable.WaitRound | lib/pfquery/pfquery.c:119-134 | one turn of the loop, with `--waitCount` in unsigned arithmetic; the loop goes on iff no reply is stored |
| Queries.QueryTable.Leave | lib/pfquery/pfquery.c:136-149 | takes the request, and no other, off the list and returns the last reply with its key processed since it was listed, if there is one |
| Queries.QueryTable.ReplyProcess | lib/pfquery/pfquery.c:158-169 | gives the reply to the first request with its key and changes no other; delivered iff it is a reply with a key on the list |
| WatchdogState.NamesStayDistinct | service/watchdog/watchdog.c:152-199 | over all runs no two registered services share a base name |
| WatchdogState.CountedSubsExact | service/watchdog/watchdog.c:578-602 | the sub-services' walk reports expiry iff some sub-service has been silent for more than its grace |
| WatchdogState.VisitExact | service/watchdog/watchdog.c:604-641 | a service's turn acts iff its process has gone, it has been silent for more than its grace, or a sub-service has; the countdown is exact however many updates ran in between |
| WatchdogState.UpdateExact | service/watchdog/watchdog.c:604-641 | an update acts on exactly the services due and keeps the rest, each visited once |
| WatchdogState.ActsWhenSilent | service/watchdog/watchdog.c:387-430 | in every run, from the events: with a START, STOP or ALIVE the last one of a service, its process alive and its sub-services heard, an update acts on it iff it was started and more than timeout + 1 whole seconds have passed since that event |
| WatchdogState.ActsInTime | service/watchdog/watchdog.c:643-660 | in every run, a service that a START or ALIVE reaches and that is then left alone is acted on, and its name gone, by the second of that event + timeout + 1 + G, where no stretch of G seconds lacks an update |
| WatchdogState.CallSets | service/watchdog/watchdog.c:387-430 | in every run, START, STOP and ALIVE make the service active or not, from that second on, with timeout + 1 for a countdown, and change no other service |
| WatchdogState.CallIgnored | service/watchdog/watchdog.c:387-430 | if the first service with the pid has another name, or there is none, they change nothing |
| WatchdogState.LeftAloneStays | service/watchdog/watchdog.c:604-641 | in every run a service neither touched nor acted on stays, with what it was last given |
| WatchdogState.UpdateDecides | service/watchdog/watchdog.c:604-641 | in every run an update acts on a service, and its name is gone, iff it is due, and else keeps it |
| WatchdogState.SubRegisterSets | service/watchdog/watchdog.c:274-308 | in every run a registered sub-service is the last of its service, with its timeout as an int for a countdown from that second on; nothing else changes |
| WatchdogState.SubAliveSets | service/watchdog/watchdog.c:432-458 | in every run an ALIVE of a sub-service sets its countdown, from that second on, to its timeout plus one as an int; nothing else changes |
| WatchdogState.SubActsWhenSilent | service/watchdog/watchdog.c:578-602 | in every run, with one of these the last event of a sub-service, an update acts on its service if more seconds than that countdown have passed since |
| WatchdogState.TimeoutsAsRegistered | service/watchdog/watchdog.c:152-199 | in every run a service has the pid, name and timeout of an event that registered it |
| WatchdogState.KeptInOrder | service/watchdog/watchdog.c:604-641 | an update works on the services one after another, in order |
| WatchdogState.BasenameIs | service/watchdog/watchdog.c:245-257 | a base name is what stands after the last slash |
| WatchdogState.UpdateActsOrKeeps | service/watchdog/watchdog.c:604-641 | an update either acts on a service, and then none of its base name is left, or keeps it with its last START or ALIVE |
| WatchdogState.UntouchedStays | service/watchdog/watchdog.c:152-199 | no event but an update, a START, STOP or ALIVE of it, its removal or its replacement changes or removes a service |
| WatchdogState.TimelyIff | service/watchdog/watchdog.c:387-430 | the updates after a START or ALIVE act exactly when more than timeout + 1 seconds have passed iff timeout + 1 fits an int |
| WatchdogState.TimeoutTooLong | service/watchdog/watchdog.c:387-430 | a timeout of 2^32 - 1 is acted on after one second of silence, one of 2^31 - 1 at once |
| Watchdogs.Watchdog.GetServiceWithPid | service/watchdog/watchdog.c:232-243 | the first service with the pid, or none |
| Watchdogs.Watchdog.GetServiceWithName | service/watchdog/watchdog.c:245-257 | the first service with the base name, or none |
| Watchdogs.Watchdog.GetSubService | service/watchdog/watchdog.c:259-272 | the first sub-service with the id, or none |
| Watchdogs.Watchdog.AddService | service/watchdog/watchdog.c:152-199 | a live service of that name stays and keeps the newcomer out; a dead one goes, and the newcomer is at the end, not active, with its pid, name and timeout |
| Watchdogs.Watchdog.RemoveService | service/watchdog/watchdog.c:200-221 | removes the first service with both pid and name, and no other |
| Watchdogs.Watchdog.ServiceStartStop | service/watchdog/watchdog.c:387-404 | sets the activity of the matching service, and its countdown to timeout + 1 from now on; no other changes |
| Watchdogs.Watchdog.ServiceAlive | service/watchdog/watchdog.c:406-430 | activates the matching service and sets its countdown to timeout + 1 from now on; no other changes |
| Watchdogs.Watchdog.AddSubService | service/watchdog/watchdog.c:274-308 | adds a sub-service with its timeout for a countdown, or drops the service when its process has gone; nothing else changes |
| Watchdogs.Watchdog.RemoveSubService | service/watchdog/watchdog.c:310-331 | removes the first sub-service with the id of the first service with the pid, and nothing else |
| Watchdogs.Watchdog.ServiceSubAlive | service/watchdog/watchdog.c:432-458 | sets the countdown of the matching sub-service to its timeout plus one from now on; nothing else changes |
| Watchdogs.Watchdog.SubServiceUpdate | service/watchdog/watchdog.c:578-602 | counts sub-services down up to the first expired |
| Watchdogs.Watchdog.VisitService | service/watchdog/watchdog.c:610-637 | one service's turn, no other touched |
| Watchdogs.Watchdog.ServiceUpdate | service/watchdog/watchdog.c:604-641 | the walk that deletes as it goes leaves exactly the kept services in order, and acts on the others in order; the pointer step back is in ListHeads.ListForEachDeleting |
| Watchdogs.Watchdog.ProcessUpdate | service/watchdog/watchdog.c:643-660 | at most one update a period |
| ListHeads.AddBetween | include/list.h:57-65 | links one node between two neighbours and nothing else |
| ListHeads.ListAdd | include/list.h:80-83 | the cycle with the node right after the head |
| ListHeads.ListAddTail | include/list.h:94-97 | the cycle with the node right before the head |
| ListHeads.ListDel | include/list.h:106-126 | the cycle without the entry, whose own links stay |
| ListHeads.ListMove | include/list.h:169-174 | out of one cycle and to the front of another, disjoint one, or to the front of its own |
| ListHeads.ListMoveTail | include/list.h:180-185 | out of one cycle and to the tail of another, disjoint one, or to the tail of its own |
| ListHeads.ListEmpty | include/list.h:202-205 | true iff the head is alone |
| ListHeads.ListIsSingular | include/list.h:230-233 | true iff there is exactly one entry |
| ListHeads.ListForEach | include/list.h:371-373 | meets every entry once, in order |
| ListHeads.ListForEachDeleting | service/watchdog/watchdog.c:610-639 | a walk that deletes entries and steps back to the previous node meets every entry once, in order, and leaves the cycle of those to keep, in order |
| ListHeads.ListSplice | include/list.h:275-300 | all entries of one list right after the head of another, in order |
| ListHeads.ListSpliceTail | include/list.h:306-311 | all entries of one list right before the head of another, in order |
| ListHeads.CutAfter | include/list.h:235-245 | relinks the entries up to and including the given one into the new list's cycle, and the rest into the old one's |
| ListHeads.ListCutPosition | include/list.h:235-273 | the entries up to the given one move to the new list, the rest stay; from an empty list nothing is touched |
| ListHeads.CutThenSplice | include/list.h:235-300 | cutting into an empty list and splicing back restores the list |
| CrcTable.TableCorrect | lib/util/utilAvcrc.c:6-51 | every one of the 256 constants is eight steps of the shift register, byte-swapped |
| CrcBits.FeedByteIsSteps | lib/util/utilAvcrc.c:53-64 | feeding a byte bit by bit is eight free steps of the register with the byte at its top |
| Crc.TurnFeedsByte | lib/util/utilAvcrc.c:61-61 | one turn of the loop does to the swapped register what the byte's eight bits do |
| Crc.FastIsSerial | lib/util/utilAvcrc.c:53-64 | for every start value and message the table form is the bit-serial CRC up to byte order |
| Crc.FastComposes | lib/util/utilAvcrc.c:53-64 | a message may be checked in pieces, whatever the table |
| Crc.ResidueIsZero | lib/util/utilAvcrc.c:86-95 | a message and four more bytes check to 0 iff those are its own check in little-endian order |
| Crc.StaysApart | lib/util/utilAvcrc.c:53-64 | different start values never lead to the same check |
| Crc.SerialAdds | lib/util/utilAvcrc.c:53-64 | the check is linear in start value and message |
| Crc.BurstDetected | lib/util/utilAvcrc.c:53-64 | messages that differ only within up to four neighbouring bytes have different checks |
| Crc.AvCrc | lib/util/utilAvcrc.c:53-64 | the loop computes the table form, and with the built-in table the bit-serial one |

## Left out

- Free: what the C code does after its first write past the bitmap is undefined, and the model stops there.
- AllocatorAccess: requests to the allocator are one step, under its own mutex; `ba_remove`, the dumps and the near-copy `drivers/vmq/algorithm/balloc.c` are not modelled.
- Create: negative sizes and page sizes, which `vmq_create` passes on untested, are not modelled; orders are unbounded and proved below 31, so the seven-bit field needs no wrap.
- Kernel plumbing: ioctl dispatch, mmap, poll, procfs, module and manager reference counts, user-copy faults and signals other than the one that ends a wait for pages.
- Allocation failure: slab and heap allocations succeed; when they do not, `get_buffer_item` does not return its page.
- Wake-ups: the wait queues and condition variables only decide when a step is taken; no liveness is claimed. `PFQueryWakeUpAll` changes no state that is modelled.
- VmqManager: assumes that the entry past its allocator's bitmap stops coalescing, which `ba_free` needs of it; buffers and items are named by allocation numbers, not pointers, and the counters are unbounded; one getbuf at a time per producer, as its library lock ensures.
- GetItem: each consumer context is used by one thread at a time; `vmq_getitem` tests for a held item, waits and stores the next without a lock.
- WriteByte: producers write only through it, that is only the buffer they hold; nothing in the kernel enforces that.
- Timer arithmetic: jiffies are mathematical integers, so the branch for a negative difference is the test for an overdue timer, and the branch for differences of 2^32 and more cannot be reached from 32-bit milliseconds.
- Timer registry: keys are the keys of a map and do not wrap around; the registry entry that a freed, deleted timer leaves behind, and freeing the user's parameter, are not modelled.
- TimerWheel: the five arrays of slots and the side list are one array of sequences; the order of callbacks within one tick is whatever the slot holds, and no order is promised.
- JSON: `cJSON_Print` and `cJSON_Parse` are not part of this model; of a text saved it assumes that its file parses exactly from its last byte on, and that the stamp marker is in it only on the line of a key (`IsText`; `ConfigStore.TextsExist` shows that parsers with such texts exist). The default file is taken to parse, and copying it is not modelled.
- ConfigStore: completed saves are durable and writes reach the disk in order; saves are made after the first second of 1970; the semaphore used as a reader/writer lock is left out.
- Watchdog: `alive` answers and the clock are inputs; restarts, kills and exits are logged as `acted`; the aliveCount statistics, debug mode and reboot requests are left out, as are names that end in a slash.
- ActsWhenSilent: an `int` countdown that wraps because more than 2^31 seconds pass between two updates is not modelled.
- Query: a second reply to a request replaces the first in the model as in the code, which leaks it.
- RoundsFor: stated while timeout * 4 fits an `int`, beyond which the C product is undefined; the length of one wait is not modelled.
- ReplyProcess: keeps the invariant while waiting keys are distinct; otherwise only its effect is stated.
- ListHeads: the `_init` variants, `list_replace`, the hash lists and the iteration macros other than the plain one.
- ListCutPosition: with an empty `head` the new list is left as it was, as in the code.
- AvCrc: the buffer is an array and its length, and a table has at least 256 entries; the 257th entry of the built-in one is never read.
- Easy members: the FIFO of `utilFifo`, event id packing, shared-memory reference counts, mounts, networking, signals, the command line and the media configuration.
- Nothing was executed: everything stated is proved by the verifier.
