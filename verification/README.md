# Phaser payload buffers, verified

Phaser messages live in a `PayloadBuffer`: one run of bytes that holds a header, a heap and, allocated
from that heap, the message, its strings and its vectors. The bytes up to the high-water mark are the
serialized form: they are sent as they are and read in place. This project models that buffer in Dafny,
imperatively over an array of bytes, and proves it against a specification of the heap; on top of it the
containers, the reset of a buffer for reuse, the image a new buffer is copied from, reading received
bytes that may be hostile, and the two generator algorithms that lay out field tables and order messages.

- `Bytes`, `Layout`, `HeapSpec`: memory as words; the heap as tiles, a free list and four class lists; the
  operations as functions on that. `HeapMemory`: how the heap lies in the bytes.
- `PayloadBuffer`: the class, every method proved equal to its specification with all contents accounted for.
- `HeapLaws`: what allocating, resizing and freeing do, told by where blocks lie and how long they are, with no word of
  how the lists are walked. `ImageLaws`, `VectorLaws`, `PushRuns`: the same for new buffers and for growing vectors.
- `HeapRuns`, `CoalescedHeap`, `SentBytes`: theorems over all runs of operations. `ReachedStates`: runs from a new
  buffer to the states of the findings.
- `ResetSpec`, `ControlGrowth`, `MessageRuntime`: the mark of a new buffer and freeing back to it.
- `NewBufferImage`, `NewBufferReset`: constructing a new buffer, copying its image instead, and resetting either.
- `VectorChunks`, `VectorMemory`, `VectorGrowth`, `VectorOutcomes`, `MessageVector`: chunked vectors of messages.
- `AllocatedBlocks`, `StringFields`, `PrimitiveVectors`: strings and vectors of numbers.
- `FieldTables`, `DependencyOrder`: the generator's table of fields and order of messages.
- `ReceivedBuffers`, `SentMessages`: reading untrusted bytes, and reading back what was written.
- `RosWire`: the ROS serialization buffer and its reader.

`dafny verify dfyconfig.toml` checks all of it.

## Assumptions

- A buffer's size is a multiple of 8 and below 2^31, so that no length has the small block flag's bit, and it
  has room for its header and one free block header.
- The resizer gives the size it is asked for with the old bytes first, or ends the process; `limit` in `Config`
  says from which size on, and is below 2^31.
- Offsets stand for addresses. That the whole buffer moves when it grows shows as a new array.
- Offsets passed to `Free` and `Realloc` are 0 or those of allocated blocks.
- Lists the reader walks were written by this code. Received bytes, on the other hand, may hold anything.

## Findings

What the code does differently from what its comments or names say, each with an input and an exact condition.
The inputs are new buffers or reached from one by a run: `TightIsReached`, `TwoBlocksAreReached`,
`FourBlocksAreReached` and `FirstBlockIsReached` lead to the states that the other witnesses start from.

- The bytes `Size()` counts can leave out blocks in use. Taking the whole last free block raises the mark to
  `block->next + 8` with `next` 0 (payload_buffer.cc:366), and a rest of 8 bytes at the very end does not raise it
  either, because the address past it is none (payload_buffer.cc:355). `StepCovered` says exactly when,
  `FullBufferIsCut` gives a buffer whose message is not sent at all.
- For the same reason `ResetFor` can skip freeing while a block is allocated past the mark:
  `SkippingCanKeepBlock`, `SkippingIsExact`, and `SkippingWithControlIsExact` for runs in which the control block grows.
- Freeing a block behind the last free block, with none above, loses 8 bytes: `FreeingCanLoseBytes`, `ReleaseBytes`;
  `RunConservesBytes` counts them over a run.
- `InsertElement` does not look at whether `AddElement` failed. Then the last element is lost, or bytes outside
  the vector move: `InsertionCanLose`, `InsertionIsExact`.
- Moving a block down can leave two free blocks touching: `ResizingCanLeaveTouching`, `StepCoalesced`.
- Requests above 0xFFFFFFF8 round up to 0 and are granted: `WrappedGetsNoRoom`, `GivenRoomExactly`. Resizing to so
  many bytes leaves the block with none: `ResizingCanEmpty`, `ResizedRoomExactly`.
- `VectorResize` does not clear new elements that lie within the recorded size of the block, also when it moves the
  block: `ResizeCanBringBack`, `ShrinkAndRegrow`, `AddedAreZero`.

## Model

| member | source | states |
|---|---|---|
| PayloadBuffers.PayloadBuffer.constructor | phaser/runtime/payload_buffer.cc:322-335 | A new buffer is one free block from the end of its header to its end, with the high-water mark at that block and no failure. |
| PayloadBuffers.PayloadBuffer.TakeStartOfFreeBlock | phaser/runtime/payload_buffer.cc:337-369 | A free block gives up its first bytes; the rest stays in its place on the list, or, with less than a header left, the whole block is taken and its whole length recorded. No byte of another block changes. |
| PayloadBuffers.PayloadBuffer.FindFit | phaser/runtime/payload_buffer.cc:388-467 | The walk ends at the first free block long enough, with its predecessor, or at the end of the list. |
| PayloadBuffers.PayloadBuffer.CarveFirst | phaser/runtime/payload_buffer.h:750-775 | The first free block is carved exactly if a header still fits past the new block; then heap state, block and cleared bytes are those of the general carve, and otherwise nothing changes. |
| PayloadBuffers.PayloadBuffer.TryAllocateInPlace | phaser/runtime/payload_buffer.h:714-775 | The inline path serves a request exactly if the class list or the first free block does; its block and state are those of the specified allocation, and a miss changes nothing. |
| PayloadBuffers.PayloadBuffer.GrowBuffer | phaser/runtime/payload_buffer.cc:389-444 | The resizer is asked for the size doubled at least once and no more often than the request takes; the old bytes stay, and the new ones extend a free block that ended the buffer or are a free block of their own. |
| PayloadBuffers.PayloadBuffer.AddNewMemory | phaser/runtime/payload_buffer.cc:407-443 | Whether the last free block ended the old buffer decides between lengthening it and appending a block; the list stays ascending and every other block keeps its bytes. |
| PayloadBuffers.PayloadBuffer.MarkAllocationFailed | phaser/runtime/payload_buffer.h:460-468 | The free list and all four class lists are emptied, and the failure is recorded. |
| PayloadBuffers.PayloadBuffer.AllocateSlow | phaser/runtime/payload_buffer.cc:376-468 | First fit, growing while nothing fits: block, size word, lists, high-water mark, failure and abort are those of the specified allocation; allocated bytes are kept, and the new ones cleared if asked. No block in a buffer of fixed size means the failure is recorded and all lists are empty; a buffer that can grow gives none only for more than 0xFFFFFFF8 bytes. |
| PayloadBuffers.PayloadBuffer.AllocateSmallBlock | phaser/runtime/payload_buffer.cc:810-834 | A small request takes the head of its class list, or a block of the class size, and records the size asked for. |
| PayloadBuffers.PayloadBuffer.Allocate | phaser/runtime/payload_buffer.h:699-712 | Inline path and general path together give exactly the specified outcome, and no allocated byte changes. No block in a buffer of fixed size, with free blocks left or not, means the failure is recorded and all lists are empty. |
| HeapLaws.AllocationServes | phaser/runtime/payload_buffer.cc:376-468 | Which block a request is given, by geometry alone: the head of its class list; else the start of the lowest free block with room for it and a header, the rest free, every other block as it was, and the mark as high as the header of the rest or of the next free block; else, in a buffer that can grow, the same after growing. Its size is the least class, or the next multiple of 8. |
| HeapLaws.NoBlockFails | phaser/runtime/payload_buffer.cc:389-400 | From any unfailed state, an allocation that gives no block in a buffer of fixed size leaves it failed with every list empty, however many free blocks there were; in one that can grow none is given only for more than 0xFFFFFFF8 bytes. |
| HeapLaws.NoBlockIsFinal | phaser/runtime/payload_buffer.h:460-468 | After such an allocation, whatever is freed, resized or allocated, every allocation of every run gives none. |
| HeapLaws.CarveGrows | phaser/runtime/payload_buffer.cc:389-447 | Where nothing fits, a buffer that can grow always gives a block: its size is doubled once, or more often to less than four times what is needed, and is within its limit; or such a size is past the limit and the process ends. |
| HeapLaws.DoubledIsLeast | phaser/runtime/payload_buffer.cc:400-406 | Doubling stops at the first power of two times the size that is enough. |
| HeapLaws.AllocationWithin | phaser/runtime/payload_buffer.cc:389-447 | No allocation makes the buffer larger than its limit. |
| PayloadBuffers.PayloadBuffer.MergeWithBelowIfPossible | phaser/runtime/payload_buffer.cc:521-531 | The lower block takes over length and link exactly if it ends where the other starts; otherwise no byte changes. |
| PayloadBuffers.PayloadBuffer.MergeWithAboveIfPossible | phaser/runtime/payload_buffer.cc:498-519 | The freed block goes before free block i, joined with it if they touch, and the link to it is put right. |
| PayloadBuffers.PayloadBuffer.InsertAtEnd | phaser/runtime/payload_buffer.cc:533-543 | With no free block above, the freed block goes last, or joins the last free block, which leaves 8 bytes unlisted. |
| PayloadBuffers.PayloadBuffer.FreeSlow | phaser/runtime/payload_buffer.cc:545-609 | The freed block is inserted in address order and joined with both neighbours it touches; no allocated byte changes. |
| PayloadBuffers.PayloadBuffer.FreeSmallBlock | phaser/runtime/payload_buffer.cc:836-840 | A small block becomes the head of the list of its class, by the size it recorded. |
| PayloadBuffers.PayloadBuffer.Free | phaser/runtime/payload_buffer.h:777-794 | Freeing is the specified release, whichever path serves it; in a failed buffer the block is dropped. |
| HeapLaws.FreedIsFree | phaser/runtime/payload_buffer.cc:533-609 | After freeing a regular block all its bytes are in one free block, but for the last 8 exactly if it joins the last free block behind it; mark, failure and class lists stay. |
| HeapLaws.FreedSmallIsNext | phaser/runtime/payload_buffer.cc:810-840 | A small block that is freed is the next one given for its class, in the same place, and everything else is as it was before. |
| PayloadBuffers.PayloadBuffer.FreeAt | phaser/runtime/payload_buffer.h:321-326 | Freeing by offset is freeing, unless the offset is outside the buffer, and then nothing changes. |
| PayloadBuffers.PayloadBuffer.DecodeSize | phaser/runtime/payload_buffer.h:265-272 | The size word of a block leads back to the size it was given. |
| PayloadBuffers.PayloadBuffer.ShrinkBlock | phaser/runtime/payload_buffer.cc:611-625 | The tail of a block is freed as a block of its own; the bytes that remain are kept. |
| PayloadBuffers.PayloadBuffer.FindRoom | phaser/runtime/payload_buffer.cc:716-777 | The walk finds the free block above if it has more than enough, or else the one below if that is enough and there is a free block above, or neither. |
| PayloadBuffers.PayloadBuffer.ExpandIntoFreeBlockAbove | phaser/runtime/payload_buffer.cc:627-645 | The block grows into the free block above it; all contents are kept, and the new bytes cleared if asked. |
| PayloadBuffers.PayloadBuffer.MergeWithFreeBlockBelow | phaser/runtime/payload_buffer.cc:647-681 | The block moves down to the free block before it: its contents arrive there whole although the two overlap, and no other block changes. |
| PayloadBuffers.PayloadBuffer.ResizeInClass | phaser/runtime/payload_buffer.cc:683-714 | A small block resized within its class keeps its place and contents, and records the new size. |
| PayloadBuffers.PayloadBuffer.MoveBlock | phaser/runtime/payload_buffer.cc:779-804 | The block moves by allocate, copy and free; with no space the old block is untouched. |
| PayloadBuffers.PayloadBuffer.Realloc | phaser/runtime/payload_buffer.cc:683-804 | All six routes (null, in class, shrink, grow up, move down, move away): the specified outcome, contents carried to the new place up to the lesser size, other blocks untouched, and on failure nothing lost. |
| HeapLaws.RegularReroutes | phaser/runtime/payload_buffer.cc:727-804 | Which way a regular block is resized, by what lies beside it: cut short, with the tail free and joined with a free block after it; grown into the free block that follows if that has more than enough, the rest free; slid down to the start of a free block before it if that is enough and there is a free block above; or else a new block and the old one freed. |
| HeapLaws.SmallReroutes | phaser/runtime/payload_buffer.cc:683-726 | A small block is resized where it is, and only its size changes, exactly if small blocks are asked for and the class is the same; otherwise it gives way to a new one. |
| HeapLaws.ReallocationWithin | phaser/runtime/payload_buffer.cc:683-804 | Nor does resizing make the buffer larger than its limit. |
| HeapSpec.AllocationIsOk | phaser/runtime/payload_buffer.cc:376-468 | Every allocation keeps the partition of the buffer and all allocated blocks; a block it gives was not allocated before and has the aligned or class size. |
| HeapSpec.ReleaseIsOk | phaser/runtime/payload_buffer.cc:545-609 | Freeing keeps the partition, removes exactly that block from the allocated ones and leaves the rest as they are. |
| HeapSpec.ReallocationIsOk | phaser/runtime/payload_buffer.cc:683-804 | Resizing keeps the partition and every other allocated block, and records the size asked for, as it is or rounded up. |
| HeapSpec.Align8Covers | phaser/runtime/payload_buffer.cc:371-374 | Rounding up in 32 bits covers the request exactly up to 0xFFFFFFF8, and past that gives 0. |
| HeapRuns.RunKeepsBlocksApart | phaser/runtime/payload_buffer.cc:311-840 | In every state a run of allocations, releases and resizes can reach from a new buffer: blocks of all kinds are aligned, inside the buffer and disjoint, the free list ascends, and a small size word leads to the block's class. |
| HeapRuns.RunConservesBytes | phaser/runtime/payload_buffer.cc:498-609 | Over every run, header, free, allocated, class-list and lost bytes add up to the buffer; until a failure, what is lost is 8 bytes for each tail merge of the run. |
| HeapRuns.AllocationBytes | phaser/runtime/payload_buffer.cc:376-468 | Allocating moves bytes from free or class list to allocated and loses none. |
| HeapRuns.ReleaseBytes | phaser/runtime/payload_buffer.cc:533-609 | Freeing takes the block's bytes from the allocated ones and loses 8 exactly in a tail merge. |
| ReachedStates.FreeingCanLoseBytes | phaser/runtime/payload_buffer.cc:533-609 | Two blocks fill a new buffer of 88 bytes; freeing the first and then the second is one tail merge, and 8 bytes are lost. |
| ReachedStates.TightIsReached | phaser/runtime/payload_buffer.cc:337-369 | One allocation in a new buffer of 128 bytes gives the marked state of the witness for the idle shortcut. |
| ReachedStates.FirstBlockIsReached | phaser/runtime/payload_buffer.cc:337-369 | One allocation in a new buffer of 4096 bytes gives the state of the witness for resizing to nothing. |
| ReachedStates.TwoBlocksAreReached | phaser/runtime/payload_buffer.cc:337-369 | Two allocations in a new buffer of 96 bytes give the full buffer of the witness for inserting. |
| ReachedStates.FourBlocksAreReached | phaser/runtime/payload_buffer.cc:337-609 | Four allocations and two releases in a new buffer of 168 bytes give the four blocks of the witness for touching free blocks. |
| HeapRuns.ReallocationBytes | phaser/runtime/payload_buffer.cc:683-804 | Resizing changes the allocated bytes by the change of the block, and loses only what freeing the old place loses. |
| HeapRuns.FailureIsSticky | phaser/runtime/payload_buffer.h:460-468 | After a failure, whatever is freed or resized, every allocation gives null and all lists stay empty. |
| HeapRuns.InlineIsFirstFit | phaser/runtime/payload_buffer.h:714-775 | Where the inline path serves a request, the general path would have given the same block and the same lists; only the high-water mark can differ, by an 8-byte rest that ends the buffer. |
| HeapRuns.InlineMissChangesNothing | phaser/runtime/payload_buffer.h:704-712 | Where it does not, having tried it makes no difference. |
| HeapRuns.TwoGrowthsSuffice | phaser/runtime/payload_buffer.cc:389-447 | However little is free, after two growths the request fits: the recursion of the allocator ends. |
| AllocatedBlocks.GivenRoomExactly | phaser/runtime/payload_buffer.cc:371-389 | A block that is given has room for the n bytes asked for if and only if n is at most 0xFFFFFFF8. |
| AllocatedBlocks.ResizedRoomExactly | phaser/runtime/payload_buffer.cc:683-804 | After any resize that gives a block, small or regular, there is room for the n bytes asked for if and only if n is at most 0xFFFFFFF8; past that the block has no bytes at all. |
| AllocatedBlocks.ResizingCanEmpty | phaser/runtime/payload_buffer.cc:727-740 | A block of 16 bytes resized to 0xFFFFFFFC stays where it is, with no bytes. |
| AllocatedBlocks.WrappedGetsNoRoom | phaser/runtime/payload_buffer.cc:371-389 | A request for 0xFFFFFFFC bytes is granted in a buffer of 4096. |
| CoalescedHeap.StepCoalesced | phaser/runtime/payload_buffer.cc:683-777 | From a heap in which no two free blocks touch, an operation leads to one in which two do if and only if it is a resize that moves a block down and leaves a rest next to a free block. |
| CoalescedHeap.RunCoalesced | phaser/runtime/payload_buffer.cc:498-609 | In a run without such a resize no two free blocks ever touch. |
| CoalescedHeap.SlideDownTouches | phaser/runtime/payload_buffer.cc:647-681 | After a block moves down nothing touches if and only if it leaves no rest or no free block follows it. |
| CoalescedHeap.ResizingCanLeaveTouching | phaser/runtime/payload_buffer.cc:757-777 | Four blocks in 168 bytes where growing one by 16 bytes leaves two free blocks touching. |
| SentBytes.StepCovered | phaser/runtime/payload_buffer.cc:337-369 | If the first Size() bytes hold every block in use, they still do after an operation if and only if the operation does not place a block at the end of the buffer, past the high-water mark, with no free block header after it to raise the mark. |
| SentBytes.RunCovered | phaser/runtime/payload_buffer.h:201 | In every run without such an operation, what is sent holds every block in use, and the high-water mark stays inside the buffer. |
| SentBytes.FullBufferIsCut | phaser/runtime/payload_buffer.cc:357-368 | A main message that fills its buffer exactly lies wholly past the high-water mark: none of it is among the Size() bytes. |
| MessageRuntimes.MessageRuntime.constructor | phaser/runtime/message.h:555-563 | A readonly runtime trusts exactly its size, except that 0 becomes 1 and 2^32 or more becomes 2^32 - 1; a mutable one has no mark yet. |
| MessageRuntimes.MessageRuntime.MarkNewBuffer | phaser/runtime/message.h:599-619 | The mark is the offset of the free block exactly if the buffer is new: one free block to the end, the high-water mark just past its header, no class list, no failure. |
| MessageRuntimes.MessageRuntime.KeepEntries | phaser/runtime/message.h:672-678 | Moving entries to the front in place keeps exactly those whose tables lie below the mark, in order, and writes nothing else. |
| MessageRuntimes.KeptIsFilter | phaser/runtime/message.h:672-678 | Of any list of entries, one is kept if and only if the word for its table is below the mark, and those kept stay in their order. |
| MessageRuntimes.MessageRuntime.FilterEntries | phaser/runtime/message.h:663-679 | The control block's count and entries become those below the mark; nothing outside them is written. |
| MessageRuntimes.MessageRuntime.FreePast | phaser/runtime/message.h:680-689 | Everything from the mark on becomes one free block, the class lists empty and the failure cleared; 8 bytes are written. |
| MessageRuntimes.MessageRuntime.MayFreeSinceMark | phaser/runtime/message.h:656-669 | Refuses exactly if the buffer was finalized, or the metadata starts at or past the mark, or the control block reaches past it, or the user metadata starts at or past it; a failed allocation does not refuse. |
| MessageRuntimes.MessageRuntime.FreeSinceMark | phaser/runtime/message.h:655-690 | Does nothing at all when it refuses. It goes on exactly if the lists were not given up, there is room for a free block at the mark, and metadata, end of the control block and user metadata word are below it; then everything past the mark is freed and the metadata filtered. Every block below the mark stays, and all but the control block with their bytes: the user metadata, where it is one, among them. |
| MessageRuntimes.MessageRuntime.ResetFor | phaser/runtime/message.h:636-651 | After any run since the mark, in which the control block may have grown as well, returning true means: the heap is the marked one with the control block at its present size, wholly below the mark, the main message is zero past its metadata word, and nothing else below the mark is written but the filtered entries. With a mark, and for this message, it returns true exactly if the buffer is idle or what has to stay is below the mark, user metadata included; then a user metadata block that was allocated still is, and every block below the mark but message and control block holds what it held. Returning false means nothing changed. The buffer it leaves is again one a run can start from and be reset, with the same mark and message. |
| MessageRuntimes.MessageRuntime.GrowControl | phaser/runtime/message.h:697-709 | Doubling the control block is the specified resize; its entries arrive intact, and on failure it is as it was. |
| MessageRuntimes.MessageRuntime.AddMetadata | phaser/runtime/message.h:692-713 | The entry is appended after the known ones, doubling a full block first; with no control block or no space nothing is added. |
| ResetSpec.FreeingSinceMarkRestores | phaser/runtime/message.h:655-690 | After any run past the mark, whatever was allocated, freed, resized or failed, freeing past the mark gives the marked state back. |
| ResetSpec.SkippingRestores | phaser/runtime/message.h:636-651 | If no allocation of the run took the end of the buffer, a free list at the mark and a high-water mark just past it say that nothing is allocated past the mark. |
| ResetSpec.SkippingIsExact | phaser/runtime/message.h:636-651 | Without that hypothesis: skipping restores the marked state if and only if the free block at the mark reaches the end of the buffer. |
| ResetSpec.SkippingCanKeepBlock | phaser/runtime/message.h:636-651 | A run of four operations in a full buffer after which the shortcut is taken with a block still allocated. |
| ControlGrowth.MetaStepKeeps | phaser/runtime/message.h:692-713 | Every step since the mark, doubling the control block among them, leaves that block either below the mark with all others there unchanged, or past the mark. |
| ControlGrowth.FreeingWithControlRestores | phaser/runtime/message.h:655-690 | If the control block has not strayed past the mark, freeing past the mark gives the marked state with that block at its present size, over every run. |
| ControlGrowth.SkippingWithControlRestores | phaser/runtime/message.h:636-651 | If no allocation took the end, the idle test cannot pass once the control block has moved, and when it passes nothing is to be freed. |
| ControlGrowth.SkippingWithControlIsExact | phaser/runtime/message.h:636-651 | Without that hypothesis, over every run in which the control block may grow and stray: when the idle test passes, the free block at the mark reaches the end of the buffer if and only if that block has not strayed and skipping leaves the marked state. |
| ControlGrowth.ResetBeginsAgain | phaser/runtime/message.h:655-690 | The state that freeing past the mark leaves, control block at its present size, meets all that the theorems ask of the state a run starts from: resets can be repeated. |
| MessageRuntimes.ResetAgain | phaser/runtime/message.h:636-690 | The same of the bytes: the filtered entries and the cleared message are a control block and a main message with which the next reset can be made. |
| ControlGrowth.TooBigStrays | phaser/runtime/message.h:663-669 | A control block too big for its old place reaches past the mark, wherever below it it starts. |
| ControlGrowth.ExtensionIsExact | phaser/runtime/message.h:697-709 | Doubling the control block gives a block of just 24 bytes and 16 for each of twice as many entries, placed as any resized block is, or fails only for want of memory. |
| NewBufferResets.NewBufferBegins | phaser/runtime/message.h:599-651 | A new buffer, constructed or copied from its image, with a mark and more than a header past it, meets all that the theorems about ResetFor ask of the state a run starts from. |
| NewBufferImages.SameAtEverySize | phaser/runtime/message.cc:50-62 | A run of allocations gives, in a buffer of any size with room left for a free block header, the same blocks at the same offsets and the same state but for the size. |
| NewBufferImages.MakeFixedBuffer | phaser/runtime/message.h:1837-1862 | A new buffer with its main message and metadata, null exactly if they do not fit; what it holds is what its parts say. |
| NewBufferImages.AddControl | phaser/runtime/message.h:436-450 | The control block is allocated, only if there is more than one type, and cleared; the message is kept. |
| NewBufferImages.AddTables | phaser/runtime/message.h:491-536 | The tables follow, and message, control block and entries lead to them. |
| NewBufferImages.NewBufferImage.constructor | phaser/runtime/message.cc:28-48 | The image is kept exactly if the parts fit a scratch buffer of doubling size and are not too long; it is a prefix of the buffer made there. |
| NewBufferImages.NewBufferImage.CopyTo | phaser/runtime/message.cc:50-62 | Copying the image into a buffer of any size gives the buffer that constructing it there would have made, bytes, heap and mark; null exactly if there is no image or it does not fit. |
| ImageLaws.FitsExactly | phaser/runtime/message.h:1837-1858 | A new buffer holds its parts if and only if their blocks, each with its header and rounded up or of its class, end inside it. |
| ImageLaws.PartsInARow | phaser/runtime/message.h:1837-1858 | They lie one after the other from offset 48 on. |
| ImageLaws.MarkedExactly | phaser/runtime/message.h:599-619 | A new buffer has a mark, where its parts end, if and only if 8 bytes are left past them. |
| ImageLaws.ScratchIs | phaser/runtime/message.cc:28-41 | The scratch memory the image is made in is the least power of two from 4096 to 131072 bytes in which the parts fit. |
| ImageLaws.HasImageExactly | phaser/runtime/message.cc:28-47 | There is an image if and only if the parts and a free block header take at most 64 KiB and the parts do not fill the scratch memory. |
| ImageLaws.ImageSizeExactly | phaser/runtime/message.cc:49-62 | The image is the parts and the free block header past them, so that a copy fits wherever those do. |
| VectorChunks.ChunksMeet | phaser/runtime/vectors.h:1242-1245 | Each chunk begins where the one before ends, and chunk k > 0 doubles the capacity. |
| VectorChunks.InOneChunk | phaser/runtime/vectors.h:1242-1253 | No element is in two chunks. |
| VectorChunks.ChunkBelow | phaser/runtime/vectors.h:1246-1253 | The chunk of element i is among the first n + 1 exactly if i is less than their capacity. |
| VectorChunks.ShiftFindsChunk | phaser/runtime/message.h:1136-1141 | The chunk found with leading zeros in 32 bits is the chunk that holds the element, for every first capacity and index. |
| MessageVectors.MessageVector.Of | phaser/runtime/vectors.h:1246-1253 | The walk from the first chunk finds the chunk of the element, among those there are. |
| MessageVectors.MessageVector.Further | phaser/runtime/message.h:1136-1158 | The leading-zeros route gives the same offset as the definition by chunks. |
| MessageVectors.MessageVector.ElementAt | phaser/runtime/message.h:1127-1158 | The offset of every element within the capacity. |
| MessageVectors.MessageVector.ElementOffset | phaser/runtime/vectors.h:2039-2060 | The offset of an element, or 0 exactly if the index is not below the count. |
| MessageVectors.MessageVector.Offsets | phaser/runtime/ros_direct.h:90-139 | Walking the chunks visits the same offsets, in order, as looking up each index. |
| MessageVectors.MessageVector.OpenElementAt | phaser/runtime/vectors.h:1273-1302 | Moving elements up across chunk boundaries inserts an empty element and drops the last one, as a sequence operation. |
| MessageVectors.MessageVector.CloseElementsAt | phaser/runtime/vectors.h:1303-1319 | Moving elements down across chunk boundaries removes exactly the given range. |
| MessageVectors.MessageVector.Start | phaser/runtime/vectors.h:1398-1418 | The first chunk: success, failure and abort as the allocation decides, and no other change on failure. |
| MessageVectors.MessageVector.AddChunk | phaser/runtime/vectors.h:1427-1466 | Another chunk and a resized directory; if the directory fails the chunk is freed again. Elements and their offsets stay. |
| MessageVectors.MessageVector.Grow | phaser/runtime/vectors.h:1392-1468 | Capacity for n elements without moving one; outcome, heap state and layout are those of the specified growth. |
| MessageVectors.MessageVector.MakePlace | phaser/runtime/vectors.h:1331-1390 | There is room for one more element exactly if there was, or the growth succeeds. |
| MessageVectors.MessageVector.AddElement | phaser/runtime/vectors.h:1331-1364 | Appends an empty element at its place; outcome, heap, layout and elements all equal the specified addition. A first chunk has the most elements that take 64 bytes, but at least 1 and at most 16. |
| MessageVectors.MessageVector.Reserve | phaser/runtime/vectors.h:1116-1123 | Room for n elements, in a first chunk of just n if there was none; outcome as the growth, nothing changed if there already is. |
| MessageVectors.MessageVector.Fill | phaser/runtime/vectors.h:1150-1196 | The bulk loop stores each value at the offset of its index, across chunks. |
| MessageVectors.MessageVector.AppendElements | phaser/runtime/vectors.h:1125-1217 | Appends n finished elements, or none; outcome, heap, layout and elements equal the specified append; a first chunk is of just n, and a count past 32 bits fails and empties the lists. |
| MessageVectors.MessageVector.InsertElement | phaser/runtime/vectors.h:2026-2032 | What inserting does in every case in which its moves stay in the vector: an exact insertion, or the loss of the last element when there was no space. |
| MessageVectors.MessageVector.Erase | phaser/runtime/vectors.h:1823-1841 | Erasing is removing the range from the sequence of elements. |
| MessageVectors.MessageVector.ReleaseVector | phaser/runtime/message.h:1182-1195 | Frees each chunk, the directory and the block once, in that order: exactly those are no longer allocated, every other block is as it was, and the vector is empty. |
| VectorLaws.GrowsExactly | phaser/runtime/vectors.h:1391-1468 | What a vector that grew has got: a first block and chunks of just the bytes of their elements, a directory of one word more than chunks, and no chunk more than n elements need; what it had stays. |
| VectorLaws.GrowsOrOutOfMemory | phaser/runtime/vectors.h:1391-1468 | A vector that is not too long for its words to count fails to grow only for want of memory. |
| VectorLaws.DirectoryIsExact | phaser/runtime/vectors.h:1448-1460 | The directory is allocated, or resized as any block is, to just one word more than there will be chunks. |
| VectorOutcomes.PlacedFirst | phaser/runtime/vectors.h:1321-1329 | An element added to an empty vector is given a first chunk of the most elements that take 64 bytes, between 1 and 16. |
| VectorOutcomes.ReservedFirst | phaser/runtime/vectors.h:1116-1123 | Reserving for n elements in an empty vector gives a first chunk of n. |
| MessageVectors.ExtendedAt | phaser/runtime/vectors.h:1472-1473 | Growing moves no element: every offset stays. |
| VectorGrowth.PassedHolds | phaser/runtime/vectors.h:1472-1473 | A vector none of whose blocks an operation touched is held as before, with all its elements. |
| VectorGrowth.DirectoryResized | phaser/runtime/vectors.h:1448-1460 | Resizing the directory, even to another place, leaves all elements and other words of the vector. |
| VectorGrowth.ChunkAdded | phaser/runtime/vectors.h:1461-1466 | The three words written after that are the vector with one more chunk. |
| VectorOutcomes.RoomAlready | phaser/runtime/vectors.h:1433-1436 | Asking for capacity that is there succeeds and changes nothing. |
| VectorOutcomes.FixedGrows | phaser/runtime/payload_buffer.cc:389-396 | In a buffer of fixed size growth fails at worst, it never ends the process. |
| VectorOutcomes.AppendIsAdds | phaser/runtime/vectors.h:1125-1217 | In reserved storage, appending n elements at once equals adding them one by one: the same elements, offsets, layout and heap. |
| VectorOutcomes.ReservedAppendIsAdds | phaser/runtime/vectors.h:1116-1217 | Reserving room for them first makes that so whenever it succeeds. |
| MessageVectors.MessageVector.AppendAllAttached | phaser/runtime/vectors.h:1125-1213 | Appends elements each of which is given a block of its own before the next, stopping at the first for which there is no space; heap, layout, elements and outcome equal the specification, though every step may grow the buffer. |
| VectorOutcomes.AttachingIsAdding | phaser/runtime/vectors.h:1093-1102 | In reserved storage that bulk append equals adding each element and giving it its block before the next is added. |
| VectorOutcomes.AttachingKeeps | phaser/runtime/vectors.h:1199-1213 | Whatever happens, the elements there were stay, in front and in place. |
| VectorOutcomes.InsertionIsExact | phaser/runtime/vectors.h:2026-2032 | Insertion inserts and keeps all elements if and only if there is capacity for one more or the growth for it succeeds. |
| VectorOutcomes.InsertionCanLose | phaser/runtime/vectors.h:2026-2032 | In a full buffer, inserting before a single element replaces it, and inserting into an empty vector goes astray. |
| StringFields.CopyString | phaser/runtime/payload_buffer.h:634-670 | Copying in overlapping pieces of fixed size copies the string, whatever its length and the old contents. |
| StringFields.StringField.NewString | phaser/runtime/payload_buffer.cc:40-79 | A string with none before gets a block and its bytes; outcome as the allocation, and on failure it stays empty. |
| StringFields.StringField.SetString | phaser/runtime/payload_buffer.cc:131-137 | The field holds the source's bytes afterwards, also when the source lies in the same buffer and the buffer moves; outcome pinned to the allocation or resize, other contents kept. |
| StringFields.StringField.ReplaceString | phaser/runtime/payload_buffer.cc:81-129 | The same for a field that holds one, also when the source is part of the old string. |
| StringFields.StringField.ResizeString | phaser/runtime/payload_buffer.cc:95-129 | Resizing and storing, when the source is outside the old string. |
| StringFields.SettingIsExact | phaser/runtime/payload_buffer.cc:40-129 | Setting a string allocates or resizes a block for just its four length bytes and its own, placed as any block of that size is; it fails only for want of memory. |
| StringFields.SetRoomExactly | phaser/runtime/payload_buffer.cc:40-129 | The block that setting a string gives has room for it if and only if its size is at most 0xFFFFFFF8. |
| StringFields.OtherStringStays | phaser/runtime/payload_buffer.cc:81-129 | Setting a string leaves every other string in the buffer. |
| PrimitiveVectors.PrimitiveVector.PushInPlace | phaser/runtime/payload_buffer.h:806-834 | Pushes without allocating exactly if the block, by its recorded or class size, has room. |
| PrimitiveVectors.PrimitiveVector.PushSlow | phaser/runtime/payload_buffer.h:839-899 | Otherwise a first block of two elements, or one that is recorded to have what is needed, twice what it had and two elements, and no more than the greatest of those; outcome pinned to the allocation or resize. |
| PrimitiveVectors.PrimitiveVector.Push | phaser/runtime/payload_buffer.h:806-899 | Appends the value, or leaves the vector; success, failure and heap are those of the specified push. A block with room stays; any other is at least doubled. |
| PrimitiveVectors.PushGrows | phaser/runtime/payload_buffer.h:838-899 | The bytes recorded after a push are at least twice those before unless the block had room, in which case it is the same block; no block means memory was not to be had. |
| PrimitiveVectors.PushRoutes | phaser/runtime/payload_buffer.h:838-899 | A push with room leaves place, mark, free list and class lists; without, it is the allocation of two elements or the resize to the greatest of what is needed, twice what there is and two elements. |
| PushRuns.PushesMoveRarely | phaser/runtime/payload_buffer.h:838-899 | Over any run of n pushes onto an empty vector, if blocks are given or resized k > 0 times then 2^(k - 1) <= n. |
| PrimitiveVectors.PrimitiveVector.Reserve | phaser/runtime/payload_buffer.h:902-954 | Room for n values, contents kept; outcome pinned. |
| PrimitiveVectors.ReservingIsExact | phaser/runtime/payload_buffer.h:902-954 | Reserving leaves a block that is long enough; otherwise the block is given, or resized as any block is, for just the bytes asked for, and fails only for want of memory or past 32 bits. |
| PrimitiveVectors.PrimitiveVector.Resize | phaser/runtime/payload_buffer.h:957-1003 | The vector has n values: the old ones, then whatever the old block held in its recorded bytes, then zeros, whether or not the block is resized or moved; all new ones are zero if and only if those bytes were. Within the recorded bytes nothing but the header is written. |
| PrimitiveVectors.AddedAreZero | phaser/runtime/payload_buffer.h:981-1001 | All elements that resizing adds are zero if and only if the bytes recorded for them in the old block are; an empty vector has none. |
| PrimitiveVectors.ResizeCanBringBack | phaser/runtime/payload_buffer.h:986-1001 | A vector of one number, in whose block a 7 follows, gets that 7 as its new element. |
| PrimitiveVectors.PrimitiveVector.ShrinkAndRegrow | phaser/runtime/payload_buffer.h:957-1003 | Resizing to fewer elements and back brings all of them back, whatever they were. |
| PrimitiveVectors.PrimitiveVector.KeepItems | phaser/runtime/payload_buffer.h:986-1001 | Where the recorded bytes suffice, only the count is written: the elements are what the block holds. |
| PrimitiveVectors.ReservedRoomExactly | phaser/runtime/payload_buffer.h:902-954 | After a reservation that gives a block there is room for the bytes asked for if and only if they are at most 0xFFFFFFF8. |
| PrimitiveVectors.PrimitiveVector.Clear | phaser/runtime/payload_buffer.h:1006-1013 | The block is released and the vector empty; nothing else changes. |
| ReceivedBuffers.ToAddress | phaser/runtime/payload_buffer.h:471-545 | An offset is an address exactly if the magic is right and all its bytes are inside the trusted ones. |
| ReceivedBuffers.FindField | phaser/runtime/message.h:1645-1683 | In bytes that may hold anything, every table access stays inside; a table or list that is well-formed is searched exactly, and no location is made up without one. |
| ReceivedBuffers.LoadReceivedLayout | phaser/runtime/message.h:1072-1105 | The layout is the claimed one exactly if block, first chunk and directory are inside the trusted bytes. |
| ReceivedBuffers.MessageVectorElement | phaser/runtime/message.h:1127-1158 | The offset of the element in its chunk, or 0 exactly if the chunk is missing or the element not inside. |
| ReceivedBuffers.BoundedString | phaser/runtime/payload_buffer.cc:189-217 | Where a received string is and how long, cut to the trusted bytes, or none; exactly determined. |
| ReceivedBuffers.ClampElementCount | phaser/runtime/message.h:869-880 | The most elements, up to the claimed count, that fit. |
| ReceivedBuffers.AllocatedCapacity | phaser/runtime/message.h:886-896 | The size word is read only if it and the data are inside. |
| ReceivedBuffers.IsPresent | phaser/runtime/message.h:853-865 | A presence bit is read exactly where its byte, computed in 32 bits, is inside. |
| SentMessages.LayoutIsReadBack | phaser/runtime/message.h:1072-1105 | From the Size() bytes that are sent, if they hold every block in use, a reader loads the layout of the vector the writer built. |
| SentMessages.ElementIsReadBack | phaser/runtime/message.h:1127-1158 | And finds every element at the offset where it was put, with the bytes put there. |
| SentMessages.StringIsReadBack | phaser/runtime/payload_buffer.cc:189-217 | A reader gets all of a string that was set. |
| SentMessages.CapacityIsReadBack | phaser/runtime/message.h:886-896 | For every allocated block, small or regular, a reader computes from its size word the capacity the writer recorded. |
| SentMessages.NumbersAreReadBack | phaser/runtime/message.h:869-880 | A reader gets all numbers that were pushed: the clamp takes none away. |
| SentMessages.FieldIsReadBack | phaser/runtime/message.h:1645-1683 | With the generated table in the buffer, a reader finds for every number the declared field, or none exactly if none is declared. |
| RosWires.RosBuffer.EnsureSpace | phaser/runtime/ros_wireformat.h:254-262 | There is room for the bytes, which are not written, or the status says why there cannot be; contents stay, and a buffer with room already is not moved. |
| RosWires.RosBuffer.EnsureSpaceSlow | phaser/runtime/ros_wireformat.h:462-500 | The capacity becomes the old one, or 16, doubled no more often than it takes, unless that would overflow; a buffer in the memory of others, a missing one and a failed one are refused, and failing to grow is kept. |
| RosWires.NewCapacityIsLeast | phaser/runtime/ros_wireformat.h:483-490 | The new capacity is the least of the old one times powers of two that is enough, or the bytes needed themselves where doubling would overflow. |
| RosWires.RosBuffer.StoreLittleEndian | phaser/runtime/ros_wireformat.h:509-525 | On either kind of host the bytes written are the number lowest byte first, and no other byte changes. |
| RosWires.RosBuffer.WriteRaw | phaser/runtime/ros_wireformat.h:311-325 | All bytes are appended, or none with the status saying why; none are always accepted. |
| RosWires.RosBuffer.WriteZeros | phaser/runtime/ros_wireformat.h:327-338 | All zeros are appended, or none. |
| RosWires.RosBuffer.Write | phaser/runtime/ros_wireformat.h:418-450 | A number is appended whole or not at all, and where there was room it is. |
| RosWires.RosBuffer.WriteSequenceLength | phaser/runtime/ros_wireformat.h:409-416 | A length past 32 bits is refused, any other appended whole or not at all. |
| RosWires.RosBuffer.WriteString | phaser/runtime/ros_wireformat.h:392-407 | Length and bytes are appended together or not at all, although they are written one after the other. |
| RosWires.RosBuffer.WriteArray | phaser/runtime/ros_wireformat.h:340-390 | All numbers of an array are appended or none, copied whole or one by one, and a byte size past 64 bits is refused. |
| RosWires.RosBuffer.WriteItem | phaser/runtime/ros_wireformat.h:311-450 | Every kind of item is appended whole or not at all, exactly if there is space for its bytes: a flag as one byte 1 or 0, byte k of a number as value / 256^k % 256, a string as its length and then its bytes, element i of an array at i times its width. |
| RosWires.ItemOnWire | phaser/runtime/ros_wireformat.h:340-450 | The bytes specified for every item are those, told byte by byte. |
| RosWires.RosBuffer.WriteItems | phaser/runtime/ros_wireformat.h:311-450 | A sequence of writes appends the items up to the first for which there is no space, and nothing of that one; in the memory of others it completes if and only if there is room for all. |
| RosWires.RosReader.Decode | phaser/runtime/ros_wireformat.h:72-96 | Shifting in byte by byte gives the number whose bytes they are, on either kind of host. |
| RosWires.RosReader.Read | phaser/runtime/ros_wireformat.h:47-63 | The next number, or none and no move exactly if it is not all there. |
| RosWires.RosReader.ReadFlag | phaser/runtime/ros_wireformat.h:72-79 | The next flag: any byte but 0 is set. |
| RosWires.RosReader.ReadString | phaser/runtime/ros_wireformat.h:158-169 | The next string, or none exactly if length or bytes are not all there; a length that was read is not given back. |
| RosWires.RosReader.ReadRaw | phaser/runtime/ros_wireformat.h:175-182 | The next bytes, or none and no move. |
| RosWires.RosReader.ReadArray | phaser/runtime/ros_wireformat.h:98-156 | All numbers of an array, or none and no move exactly if they are not all there, whatever count is asked for. |
| RosWires.RosReader.ReadItem | phaser/runtime/ros_wireformat.h:47-182 | Reading one item is parsing the bytes left, and the reader moves by what the item takes. |
| RosWires.RosReader.ReadItems | phaser/runtime/ros_wireformat.h:47-182 | Reading a list is parsing the bytes left item after item. |
| RosWires.LittleNumber | phaser/runtime/ros_wireformat.h:72-96 | A number is what its bytes are decoded to. |
| RosWires.NumberLittle | phaser/runtime/ros_wireformat.h:509-525 | Bytes are what the number they are decoded to is written as: no two encodings of one number. |
| RosWires.ItemIsReadBack | phaser/runtime/ros_wireformat.h:72-169 | Parsing the bytes of an item gives the item and takes exactly those, whatever follows. |
| RosWires.ItemsAreReadBack | phaser/runtime/ros_wireformat.h:47-450 | Parsing what a list of items was written as gives that list, whatever follows. |
| RosWires.CutItemIsRefused | phaser/runtime/ros_wireformat.h:184-198 | An item cut short by any number of bytes is not read. |
| RosWires.CutItemsAreRefused | phaser/runtime/ros_wireformat.h:184-198 | A list of items cut short anywhere is not read, as that list or as any other of the same kinds. |
| FieldTables.ChooseInterval | phaser/compiler/message_gen.cc:1964-2010 | One pass finds the interval of fields with the greatest saving over all intervals, and of those the first. |
| FieldTables.GenerateFieldMetadata | phaser/compiler/message_gen.cc:1952-2079 | The table leads every number to its field, and no table with any directly indexed interval, or with none, is smaller; of equally small ones it is the first. |
| FieldTables.NoSmallerTable | phaser/compiler/message_gen.cc:1964-2010 | A table no larger than the plain list and than indexing any range of fields directly is no larger than any other that leads every number to its field, whatever numbers that indexes. |
| FieldTables.RangeFits | phaser/runtime/message.h:215-227 | The division test equals the product test without overflow. |
| FieldTables.HybridTableFits | phaser/runtime/message.h:229-247 | True exactly if the whole table is inside, though offsets are computed in 32 bits. |
| FieldTables.LegacyTableFits | phaser/runtime/message.h:249-258 | The same for a list of fields. |
| FieldTables.Search | phaser/runtime/message.h:152-171 | Binary search finds what looking one by one finds in ascending fields, and reads only the fields in any other. |
| FieldTables.FindLegacyField | phaser/runtime/message.h:152-171 | A number leads to its field in the list. |
| FieldTables.FindHybridField | phaser/runtime/message.h:173-211 | A number leads to its slot or, outside the slots, to its sparse field; an empty slot is no field. |
| FieldTables.EmittedTable | phaser/compiler/message_gen.cc:2011-2079 | Emitting a table as words and reading the bytes gives the table back. |
| FieldTables.HeldTableFinds | phaser/runtime/message.h:173-211 | Wherever in a buffer the emitted bytes are, they are a table that finds exactly the declared fields. |
| FieldTables.HybridFindsWhatLegacyFinds | phaser/runtime/message.h:152-211 | For every number, declared or not, both encodings lead to the same field. |
| DependencyOrders.File.DiscoveredIs | phaser/compiler/gen.cc:28-66 | The order of discovery reaches each top-level message once. |
| DependencyOrders.File.FirstOfItsCycles | phaser/compiler/gen.cc:28-66 | A message that no earlier one in the file reaches is discovered before all others of its cycles. |
| DependencyOrders.Visits.Visit | phaser/compiler/gen.cc:33-60 | A visit discovers as the specification does and keeps what finished before. |
| DependencyOrders.Visits.VisitNested | phaser/compiler/gen.cc:37-57 | The worklist over nested messages visits every top-level message that is used. |
| DependencyOrders.MessagesInDependencyOrder | phaser/compiler/gen.cc:28-66 | Each top-level message once, after those it uses if uses are acyclic; on every cycle the message discovered first comes after the others; of any two the one discovered first comes first unless it needs the other; a file already in order stays so. |
| DependencyOrders.File.UseListIsTree | phaser/compiler/gen.cc:28-66 | What a message uses is what the fields of it and of the messages declared in it, at any depth, name, tree by tree. |
| DependencyOrders.File.UseOrderKept | phaser/compiler/gen.cc:37-57 | Of two messages that a message uses, the one named first is discovered first, unless an earlier message of the file, or one named up to it, is or needs the other. |
| DependencyOrders.File.FileOrderKept | phaser/compiler/gen.cc:28-66 | Of two messages the one that is first in the file is discovered first, unless it or one before it needs the other. |

## Left out

- PayloadBuffers.PayloadBuffer.Realloc: a small block is not resized to more than 0xFFFFFFF8 bytes, where rounding
  wraps: its bytes would be copied past the end of the empty block it is given. What heap and block come to there is in
  `ResizedRoomExactly`; regular blocks are resized to any size.
- PayloadBuffers.PayloadBuffer.MoveBlock: the same range; a regular block is never moved for such a size.
- StringFields.StringField.NewString: lengths whose block size is in the same range, as the string would be written
  past the end of its empty block; `SetRoomExactly` states what block there is. Longer ones fail, as in the code.
- StringFields.StringField.SetString: as for NewString.
- StringFields.StringField.ReplaceString: as for NewString.
- StringFields.StringField.ResizeString: as for NewString.
- PrimitiveVectors.PrimitiveVector.Reserve: the same range, after which the elements there are would lie past the end of
  the block; `ReservedRoomExactly` states what block there is.
- PrimitiveVectors.PrimitiveVector.Resize: as for Reserve.
- MessageVectors.MessageVector.Start: looking up the metadata of the element type may first allocate its table and
  double the control block (vectors.h:1401); here its offset is given. That step is `MessageRuntime.AddMetadata`, and
  `PassedHolds` says that a vector none of whose blocks it touches is held as before. The same for `Grow`.
- MessageVectors.MessageVector.InsertElement: the bytes that move when an insertion runs over the vector
  (`defined` is false); the model says exactly when that is so, and stops there.
- MessageVectors.MessageVector.AppendAllAttached: a callback that does more than allocate one block and store its
  offset in the element.
- MessageVectors.MessageVector.ReleaseVector: elements that own blocks of their own, which the message's generated code
  releases first; the same for `Erase`.
- FieldTables.GenerateFieldMetadata: sorting the fields; they are taken in order of number.
- ReceivedBuffers.FindField: which of two equal numbers a table that is not ascending leads to.
- The header's fields are fields of the class, not bytes of the array; the metadata word of the header and the first
  word of the message are set by their methods.
- `AllocateMany`, `AllocateString`, `AllocateMetadata`, user metadata, `MarkNewFixedBuffer`, clearing after failure.
- The ROS buffer: writes that trust a size computed before, `TryWrite`, `Extend`, moving a buffer, a null source. Signed
  and floating-point numbers are their bits, and memory can be had up to a given size.
- Any, oneofs, the protobuf codec, what generated code writes for a message, reflection, banks and bindings, and the
  text the generator emits.
- Threads: a buffer is used by one at a time.
