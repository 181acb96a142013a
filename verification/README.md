# Verified models of the memory allocators, the MCS lock and the HTTP server core

This project models, in Dafny 4.11, the parts of the repository whose behaviour is hardest to see
from the code, and proves what they are for. Each module is headed by a sentence on what it models.

**The size-class allocators** (`Words`, `Bytes`, `Sets`, `Arena`, `Fit`, `Objects`,
`SizeClassHeap`, `OneLayer`, `TwoLayer`, `TwoLayerSteps`, `TwoLayerRuns`, `CentralCheck`,
`TwoLayerCases`).
Memory is a map from addresses to words. `Arena` states the invariant that joins everything the
allocators rely on: blocks tile exactly the regions that sbrk returned, header and footer agree,
each free list mirrors its `next_`/`prev_` words and holds exactly the free blocks of its class, the
last class is sorted, and `_heapSize` is the sum of all block sizes. `SizeClassHeap` is the
pointer-walking code itself, as a class whose methods are proved against functions on that state;
`OneLayer` is `malloc`, `free` and `realloc` over one heap. `TwoLayer` runs the same operations for
any number of threads, 17 caches and the central heap, with a step for every lock operation and every
tag store made outside the locks; `TwoLayerRuns` has the theorems about whole runs, `CentralCheck`
those about the central heap's consistency check, and `TwoLayerCases` builds histories call by call.

**The MCS queue lock** (`McsLock`): a step per exchange, store, spin load, compare-and-swap and
release, for any number of threads, with a queue as history variable.

**The stream buffer and its iterator** (`StreamBuffer`, `BufferIterator`, `BufferCases`): chunks, sizes
and two positions, proved to behave as a plain byte sequence.

**Request printing, parsing and the pipelined read loop** (`HttpGrammar`, `HttpLanguage`,
`HttpPrinter`, `HttpParser`, `HttpConnection`): the parser's routines over the iterator, proved against
a grammar given as functions (the request line is that of section 5.1 of RFC 2616), and the read loop
over the buffer. `HttpLanguage` says without the parser what a request with header lines is, and proves
for every input whether the parser accepts it, asks for more or rejects it. The main theorem is about
pipelined requests (section 8.1.2.2 of RFC 2616), with any header lines, cut into arbitrary fragments.

**The thread pools** (`ThreadPools`, modules `NormalPool` and `FastPool`): the direct-handoff pool
refines the plain queue pool, and stopping it drains it.

**Request statistics** (`RequestStats`): the ring of ten slot counters against a log of timestamps.

**The barrier** (`Barrier`): two semaphores, any number of generations.

Where a property one would expect does not hold for the code, the code is modelled as it is, the exact
condition is proved, and concrete inputs or a history from the start show that the failure happens:
`write` and `copyFrom` can leave a read position that the iterator cannot move from; `appendFrom` can
leave the other buffer unusable and `byteCount` too high; a fragment that ends right behind the last CR
of a request, or behind the CR of a header line, makes the parser look at a byte that is not there yet;
a space behind the version is not rejected at once but waits for another byte, although no continuation
is a request;
`getStats` counts too much exactly one second after the base tick; `initialize` loses blocks that were
freed to a cache before its first allocation; every `free` to the central heap makes that heap's own
consistency check fail. The comment over `Buffer::write` says it is equivalent to `reserve` and
`advance`; the code is not (it never moves the read position), and the model follows the code. The
comment over `getStats` promises the last second; the code rounds to slots, and the model follows the
code. The comment in `freeObject` speaks of coalescing and address order; the code does neither.

Mutexes, semaphores and atomic instructions are atomic steps of interleaved threads, and memory is
sequentially consistent. What sbrk returns, the clock, the bytes that arrive on a socket and the byte
found behind the end of the data are parameters.

## Model

| member | source | states |
|---|---|---|
| Arena.LinkKeeps | myAlloc_1Layer/MyMalloc.cpp:189-236 | putting a held, free-tagged block on the list of its class keeps the whole invariant (tiling, tags, links, classes, sortedness, sizes), and no word of any other block in use changes |
| Arena.LinkLinks | myAlloc_1Layer/MyMalloc.cpp:209-233 | the stores of an insertion at any position turn a mirrored list into the mirrored list with the block inserted |
| Arena.LinkSorted | myAlloc_1Layer/MyMalloc.cpp:196-224 | an insertion keeps the list free of repetitions and the last class in nondecreasing size order |
| Arena.UnlinkKeeps | myAlloc_1Layer/MyMalloc.cpp:238-279 | taking any position off a list keeps the invariant and hands the block to one thread, undisturbed elsewhere |
| Arena.UnlinkLinks | myAlloc_1Layer/MyMalloc.cpp:258-276 | the stores of a removal turn a mirrored list into the mirrored list without the block |
| Arena.CarveKeeps | myAlloc_1Layer/MyMalloc.cpp:83-98 | cutting a held block in two keeps the tiling, the sum of sizes and everything else |
| Arena.GrowKeeps | myAlloc_1Layer/MyMalloc.cpp:173-178 | a fresh region from sbrk becomes one held block; tiling and `_heapSize` stay exact |
| Arena.HeldWrites | myAlloc_1Layer/MyMalloc.cpp:109-120 | a thread may write anything inside a block it holds without disturbing the invariant or any other block |
| Arena.HandOver | myAlloc_1Layer/MyMalloc.cpp:109-123 | a completely tagged block can be handed to the program, and a live one taken back |
| Fit.ChooseIsBestFit | myAlloc_1Layer/MyMalloc.cpp:48-106 | the 65-class lookup misses exactly when no free block of the heap is large enough; otherwise no large enough free block has fewer whole grains, and it is split exactly if it is of a larger class than the request and at least 48 bytes are left over |
| Fit.EightByteGrainIsExact | myAlloc_2Layer_lock/thread_cache.cpp:38-48 | with 8-byte grains, fewest grains means smallest block, so the lookup is global best fit |
| Fit.SplitKeeps | myAlloc_1Layer/MyMalloc.cpp:83-100 | a split leaves the front to the thread and the rest, free-tagged, on the list of its own class; nothing else changes |
| Fit.TakeKeeps | myAlloc_1Layer/MyMalloc.cpp:59-106 | a hit gives the thread the best fit of this heap: whole if the request has 64 grains or more or the heap has a free block of the request's class, otherwise cut to exactly the request if 48 bytes or more are left over, and whole if fewer; no other block changes; a miss happens exactly when nothing fits; the invariant holds either way |
| Fit.TakeUndoesLink | myAlloc_1Layer/MyMalloc.cpp:189-279 | for either grain, a request for exactly the size of the block freed last gets that block back, and all lists are as before the free |
| Objects.TotalSizeFacts | myAlloc_1Layer/MyMalloc.cpp:46-50 | the rounded size has room for request, header, footer and links, is aligned, and wastes less than a grain beyond the minimum |
| Objects.AcquireKeeps | myAlloc_1Layer/MyMalloc.cpp:39-107 | the block obtained is the best fit, whole or cut by the same rule, and only in this thread's hands; sbrk is asked, and `_heapSize` grows, exactly when no free block is large enough |
| Objects.DeliverKeeps | myAlloc_1Layer/MyMalloc.cpp:109-123 | tagging and handing out a held block keeps the invariant and all other blocks |
| Objects.ReleaseKeeps | myAlloc_1Layer/MyMalloc.cpp:126-148 | a release turns exactly one block free, in the heap it is given to |
| Objects.LivePayloadsDisjoint | myAlloc_1Layer/MyMalloc.cpp:39-124 | payloads of different live blocks share no address |
| Objects.Conservation | myAlloc_2Layer_lock/heap_alloc.cpp:171-194 | `_heapSize` is the bytes in use plus the free bytes of all heaps; the two sides of the printed comparison agree exactly when nothing is in use |
| Bytes.CopyCopies | myAlloc_1Layer/MyMalloc.cpp:387 | memcpy, over words: each byte of the destination range is the byte of the source range |
| Bytes.CopyFrame | myAlloc_1Layer/MyMalloc.cpp:387 | memcpy changes no word outside the destination's room |
| SizeClassHeap.Heaps.constructor | myAlloc_1Layer/MyMalloc.cpp:22-37 | the empty heap satisfies the invariant, so it holds in every sequence of calls |
| SizeClassHeap.Heaps.FindPlace | myAlloc_1Layer/MyMalloc.cpp:198-208 | the walk ends at the first node of at least the given size, with its predecessor |
| SizeClassHeap.Heaps.PushFront | myAlloc_1Layer/MyMalloc.cpp:226-233 | the stores at the front of a list are those of an insertion at position 0 |
| SizeClassHeap.Heaps.SpliceBetween | myAlloc_1Layer/MyMalloc.cpp:209-224 | in all three cases (end, front, middle) the stores are those of an insertion at the found position |
| SizeClassHeap.Heaps.InsertFreeBlock | myAlloc_1Layer/MyMalloc.cpp:189-236 | refuses a negative position and changes nothing; otherwise the heap becomes the linked one, so every clause of the invariant is kept |
| SizeClassHeap.Heaps.UnlinkNode | myAlloc_1Layer/MyMalloc.cpp:258-276 | the stores for a first or later node are those of a removal at its position |
| SizeClassHeap.Heaps.RmFromFreeLs | myAlloc_1Layer/MyMalloc.cpp:238-279 | returns NULL exactly if the position is negative or the list has no suitable node; otherwise unlinks the first suitable one |
| SizeClassHeap.Heaps.ScanClasses | myAlloc_1Layer/MyMalloc.cpp:75-79 | finds the next nonempty class, or none |
| SizeClassHeap.Heaps.SplitNode | myAlloc_1Layer/MyMalloc.cpp:83-100 | writes the tags of the rest and links it, giving the split heap |
| SizeClassHeap.Heaps.WriteTags | myAlloc_1Layer/MyMalloc.cpp:109-120 | header and footer get size and flag |
| SizeClassHeap.Heaps.TakeFit | myAlloc_1Layer/MyMalloc.cpp:48-106 | the locked part of allocateObject takes the best fit, split if worthwhile, or reports that nothing fits and leaves all as it was |
| SizeClassHeap.Heaps.TakeLarger | myAlloc_2Layer_lock/thread_cache.cpp:66-101 | the search of larger classes takes the first block of the next nonempty class, split if the rest can stand alone |
| SizeClassHeap.Heaps.AllocateObject | myAlloc_2Layer_lock/heap_alloc.cpp:49-134 | for the 8-byte and the page-sized grain: the best fit, or fresh memory, tagged and handed out; NULL exactly for an empty request to the central heap |
| SizeClassHeap.Heaps.ObjectSize | myAlloc_1Layer/MyMalloc.cpp:150-158 | the block size without the tags, at least 16 |
| SizeClassHeap.Heaps.FreeObject | myAlloc_1Layer/MyMalloc.cpp:126-148 | both flags are reset and the block goes on its list |
| SizeClassHeap.Heaps.CheckFreeLsConsist | myAlloc_2Layer_lock/heap_alloc.cpp:308-335 | the assertions pass exactly when every node of the list is tagged free at both ends, has the size of its class in whole grains and, in the last class, is no smaller than its predecessor |
| SizeClassHeap.Heaps.CheckDualLnkList | myAlloc_1Layer/MyMalloc.cpp:317-326 | the assertions pass exactly when each prev_ points back to the node before |
| SizeClassHeap.Heaps.CheckALL | myAlloc_2Layer_lock/heap_alloc.cpp:348-353 | between operations it passes exactly when every free block of the heap has whole grains, so it can never fail for the single heap or a cache |
| SizeClassHeap.Heaps.SumList | myAlloc_1Layer/MyMalloc.cpp:339-343 | the walk along one list adds each of its blocks once |
| SizeClassHeap.Heaps.SumFreeListSize | myAlloc_2Layer_lock/heap_alloc.cpp:355-366 | the sum over the lists is the sum over exactly the free blocks of the heap |
| SizeClassHeap.Heaps.HeapSizeEqualsFree | myAlloc_2Layer_lock/heap_alloc.cpp:171-187 | the printed answer is yes exactly when no block is in use |
| OneLayer.AcquireIsBestFit | myAlloc_1Layer/MyMalloc.cpp:46-107 | the block for a request is the smallest free block that fits, whole or cut by the same rule; fresh memory of exactly the rounded size is used when none fits; no other block changes |
| OneLayer.Malloc | myAlloc_1Layer/MyMalloc.cpp:357-362 | returns room for the request in a block that was not live, chosen by best fit, with the block sizes before and after stated exactly; every live object keeps its place and all its words |
| OneLayer.Free | myAlloc_1Layer/MyMalloc.cpp:364-371 | NULL changes nothing; otherwise exactly that object stops being live and all others keep every word |
| OneLayer.Realloc | myAlloc_1Layer/MyMalloc.cpp:373-394 | the new block is the best fit while the old one is in use; the new object agrees with the old one on the first min(old size, new size) bytes; the old block is free; all others are intact |
| OneLayer.MallocAgain | myAlloc_1Layer/MyMalloc.cpp:357-371 | freeing an object and asking for its size again gives the same object, with all blocks and lists as before |
| TwoLayerSteps.StepKeeps | myAlloc_2Layer_lock/heap_alloc.cpp:373-438 | every step of every thread keeps the system invariant: the heap invariant, lock ownership, and what each thread holds |
| TwoLayerSteps.CopyKeeps | myAlloc_2Layer_lock/heap_alloc.cpp:422-433 | the copy of realloc makes the new block live with the bytes the old object had when the call began, and leaves all live objects alone |
| TwoLayerRuns.Reachable | myAlloc_2Layer_lock/heap_alloc.cpp:49-158 | from the start the system invariant holds after every run, whatever the threads call and however they interleave |
| TwoLayerRuns.EveryRun | myAlloc_2Layer_lock/thread_cache.cpp:50-143 | after every run: a block is on a list exactly if it is free, in a thread's hands exactly if that thread owns it, no heap is locked twice, and while a call is in progress some thread has an enabled step |
| TwoLayerRuns.OnePosition | myAlloc_2Layer_lock/thread_cache.cpp:31-170 | a block is on a list if and only if it is free, and then at exactly one position of one list of one heap |
| TwoLayerRuns.OneHolder | myAlloc_2Layer_lock/thread_cache.cpp:103-114 | also while tags are written after the unlock, no block is in the hands of two threads, nor held and live or free |
| TwoLayerRuns.MutualExclusion | myAlloc_2Layer_lock/thread_cache.cpp:50-103 | two threads are never inside the same heap's critical section |
| TwoLayerRuns.CanGoOnIsEnabled | myAlloc_2Layer_lock/thread_cache.cpp:50-76 | a thread not waiting for a taken lock has, for some answer of sbrk, an enabled step, and only such a thread has |
| TwoLayerRuns.NoDeadlock | myAlloc_2Layer_lock/thread_cache.cpp:50-76 | with the cache lock taken before the central one, whenever a thread is inside a call some thread has an enabled step |
| TwoLayerRuns.CallsEnd | myAlloc_2Layer_lock/heap_alloc.cpp:373-438 | each step of a call brings its end nearer |
| TwoLayerRuns.CacheTakesBestFit | myAlloc_2Layer_lock/thread_cache.cpp:53-101 | a cache turns to the central heap exactly when none of its free blocks is large enough; otherwise the thread gets the smallest that is, cut exactly if it is of a larger class and at least 48 bytes are left over |
| TwoLayerRuns.CentralTakesBestFit | myAlloc_2Layer_lock/heap_alloc.cpp:49-116 | the central heap gives its best fit in whole pages, whole or cut by the same rule, and asks sbrk for exactly the pages needed when nothing fits |
| TwoLayerRuns.ObjectsPersist | myAlloc_2Layer_lock/heap_alloc.cpp:394-438 | over any run a live object stays where it is with every word unchanged until the program itself writes, frees or resizes it |
| TwoLayerRuns.QuiescentConservation | myAlloc_2Layer_lock/heap_alloc.cpp:177-184 | with no call in progress `_heapSize` is the live bytes plus the free bytes of the central heap and all caches; they agree exactly when nothing is live |
| TwoLayerRuns.ReallocMoves | myAlloc_2Layer_lock/heap_alloc.cpp:417-438 | whatever other threads do between the call and the copy, the new object has room for the request and starts with the old object's bytes as they were at the call |
| TwoLayerRuns.InitializeKeepsIff | myAlloc_2Layer_lock/thread_cache.cpp:16-36 | initializing a cache keeps the invariant if and only if nothing has been freed to it |
| TwoLayerRuns.EarlyFreeIsLost | myAlloc_2Layer_lock/thread_cache.cpp:25-36 | a block freed to a cache before its initialization ends up free and on no list |
| CentralCheck.StepChanges | myAlloc_2Layer_lock/heap_alloc.cpp:373-438 | what every step of every thread does to the blocks: nothing, a change of hands, a free block taken whole or cut, or one fresh block |
| CentralCheck.SizesStay | myAlloc_2Layer_lock/thread_cache.cpp:78-101 | no step changes the size of a block that is in use; only free blocks are cut |
| CentralCheck.StepKeepsWhole | myAlloc_2Layer_lock/heap_alloc.cpp:49-158 | every step but a release to the central heap keeps the sizes on its lists whole pages; a release does exactly if they were and the released block is |
| CentralCheck.CentralCheckPassesIff | myAlloc_2Layer_lock/heap_alloc.cpp:308-353 | over any run, the central heap's check passes all the way if and only if every block that the run gives to that heap is a number of whole pages |
| CentralCheck.CentralCheckFromStart | myAlloc_2Layer_lock/heap_alloc.cpp:308-353 | the same from the start of the program |
| CentralCheck.FreeBreaksCentralCheck | myAlloc_2Layer_lock/heap_alloc.cpp:401-415 | every free that goes to the central heap makes that check fail, whatever other threads do in between |
| TwoLayerCases.MallocFresh | myAlloc_2Layer_lock/thread_cache.cpp:72-77 | a whole small malloc by one thread when nothing fits: exactly one new live block, of whole pages |
| TwoLayerCases.MallocHit | myAlloc_2Layer_lock/thread_cache.cpp:53-114 | a whole small malloc served by the cache: its best fit becomes live, whole or cut by the same rule |
| TwoLayerCases.FreeCall | myAlloc_2Layer_lock/heap_alloc.cpp:401-415 | a whole free: exactly that block becomes free, in the central heap if its size is 32 plus a multiple of 16384 and otherwise in the cache of the freeing thread |
| TwoLayerCases.MallocThenFree | myAlloc_2Layer_lock/heap_alloc.cpp:401-415 | after a malloc from the cache and its free the block is in the thread's own cache, unless its object size is a multiple of 16384; if it was handed out whole, all blocks are as before |
| TwoLayerCases.CutGoesHome | myAlloc_2Layer_lock/heap_alloc.cpp:409-414 | a small object cut off a cache block goes back to that cache when freed, and stays cut off |
| TwoLayerCases.ReallocFresh | myAlloc_2Layer_lock/heap_alloc.cpp:417-438 | a whole realloc to a large object: one new live block, and the old one is free in the central heap whatever its size |
| TwoLayerCases.FreeToCentralHappens | myAlloc_2Layer_lock/heap_alloc.cpp:409-411 | from every start a history leads to a free that goes to the central heap, after which its check fails |
| TwoLayerCases.ReallocToCentralHappens | myAlloc_2Layer_lock/heap_alloc.cpp:432-433 | from every start a history leads through a realloc to a state in which that check fails |
| TwoLayerCases.EarlyFreeHappens | myAlloc_2Layer_lock/thread_cache.cpp:31-36 | from every start with two caches a history leads to a live block that another thread can free into its uninitialized cache, where its first malloc loses it |
| McsLock.StepKeeps | spinlock_mcs.hpp:18-68 | every atomic step keeps the queue equal to what tail, links and flags say |
| McsLock.MutualExclusion | spinlock_mcs.hpp:18-68 | after any schedule at most one thread is between the return of lock and the end of unlock, also with reused nodes |
| McsLock.FirstComeFirstServed | spinlock_mcs.hpp:22-43 | the entries are a prefix of the tail exchanges, and the rest of the exchanges is exactly the queue of those still waiting |
| McsLock.Progress | spinlock_mcs.hpp:56-67 | while the lock is in use, the thread that the head's turn waits for (the head, or its not-yet-linked successor) has a step that ends the turn or brings its end nearer |
| McsLock.DebtNeverRises | spinlock_mcs.hpp:18-68 | no step of any thread takes the end of the head's turn further away |
| McsLock.TurnIsBounded | spinlock_mcs.hpp:18-68 | in every schedule a turn ends after at most eight steps of the thread it waits for |
| StreamBuffer.Buffer.constructor | buffer.cpp:16-17 | a new buffer is empty and its read position good |
| StreamBuffer.Buffer.Reserve | buffer.cpp:25-50 | succeeds exactly up to the block size, keeps the contents, guarantees the room, adds an empty chunk exactly if there is not enough, and drops the finished one only if everything was read, with the read position in a chunk of the same number; a good read position stays good |
| StreamBuffer.Buffer.Advance | buffer.cpp:52-61 | the bytes stored at the write pointer become the end of the contents, in the last chunk; zero or too many bytes are refused without effect |
| StreamBuffer.Buffer.Write | buffer.cpp:63-86 | the data is appended, for any length and fill level; a good read position stays good unless it stood at the end of a full last chunk and there is data; the chunks written to are full but for the last, which has room |
| StreamBuffer.Buffer.WriteSome | buffer.cpp:66-85 | one pass appends as much as fits and always leaves room for the next pass |
| StreamBuffer.Buffer.MaybeRemoveLastChunk | buffer.cpp:88-97 | exactly an empty last chunk is removed |
| StreamBuffer.Buffer.AppendFrom | buffer.cpp:99-153 | the contents become the concatenation; the read position is good afterwards even if it was not, and has moved on exactly past a finished chunk; the chunks are those of both buffers without an empty last one, and an empty one is added exactly behind a full last one; the other buffer ends empty and usable if and only if its last chunk had data |
| StreamBuffer.Buffer.CopyFrom | buffer.cpp:155-182 | the contents become the concatenation and the other buffer is untouched; only the first chunk goes behind the data, if it fits; a read position at the end stays good exactly if the first chunk fits behind it |
| StreamBuffer.Buffer.Consume | buffer.cpp:184-210 | the first n bytes are dropped, or all if there are fewer; the finished chunks, and no others, are released, so the read position stays in the chunk of the same number; a good read position stays good |
| StreamBuffer.Buffer.ConsumeLast | buffer.cpp:201-206 | in the last chunk, asking for more than is left takes all that is left |
| StreamBuffer.Buffer.ByteCount | buffer.cpp:212-222 | the result exceeds the number of bytes by what lies in chunks 1 to the one being read, so it is right exactly if the read position is in the first chunk or in an empty second one |
| StreamBuffer.Buffer.AddChunk | buffer.cpp:224-229 | an empty chunk at the end changes neither contents nor read position |
| StreamBuffer.Buffer.DropChunks | buffer.cpp:231-240 | dropping chunks already read keeps the contents and moves both positions |
| BufferIterator.Iterator.constructor | buffer.cpp:254-267 | a new iterator is about to read exactly the contents; it can move if and only if the read position is good |
| BufferIterator.Iterator.Eob | buffer.hpp:214-220 | the budget shortcut never changes the answer; from a good position eob means nothing is left; a stuck iterator never reports it |
| BufferIterator.Iterator.GetChar | buffer.hpp:234-236 | the first of the bytes still to be read |
| BufferIterator.Iterator.SlowNext | buffer.cpp:280-296 | one byte on, into the next chunk when this one is finished |
| BufferIterator.Iterator.Next | buffer.hpp:222-232 | the budgeted fast path agrees with slowNext in every field; each call passes exactly one byte and counts it; an unsettled iterator does not move |
| BufferIterator.ReadAll | buffer.hpp:133-136 | walking from begin to eob over a buffer with a good read position yields exactly its contents, and bytesRead is their number |
| BufferCases.CountAfterConsume | buffer.cpp:184-222 | byteCount is right after every consume on a buffer whose read position is in the first chunk, and the read position stays there |
| BufferCases.WriteStrandsIterator | buffer.cpp:63-86 | filling, reading and writing on leaves a byte that the iterator cannot reach: next does not move it and eob is false |
| BufferCases.CopyStrandsIterator | buffer.cpp:166-171 | copying a chunk that does not fit behind a finished one does the same |
| BufferCases.AppendSpoilsOther | buffer.cpp:143-152 | appending from a buffer filled by a write of 4096 bytes leaves that buffer unusable |
| BufferCases.AppendInflatesCount | buffer.cpp:133-137 | appending one byte to a finished buffer makes byteCount answer 2 |
| HttpGrammar.RequestLineStands | http_parser.cpp:33-39 | a parsed request line, and an error in one, are the same whatever input follows |
| HttpGrammar.HeadersStand | http_parser.cpp:41-45 | the same for the header lines, as long as they do not end in a CR that is the last byte |
| HttpGrammar.FinalUnlessPeeking | http_parser.cpp:11-57 | the outcome of parsing is final for every continuation if and only if parsing does not look beyond the end; it only does on input ending in CR |
| HttpLanguage.RequestLineIff | http_parser.cpp:33-39 | the request line parser accepts exactly three words without space or CR, separated by a space and a slash, by a space, and ended by CR LF |
| HttpLanguage.LineRejectedIff | http_parser.cpp:33-56 | a request line is an error exactly if no continuation makes it right, and incomplete exactly if one does, except for one space behind the version, which is incomplete although no continuation is right |
| HttpLanguage.LateSpaceFails | http_parser.cpp:143-152 | the exception: every line with one space behind its version is incomplete, and an error with any further byte |
| HttpLanguage.LateSpaceHappens | http_parser.cpp:143-152 | a concrete such input: `GET / HTTP/1.1` and one space |
| HttpLanguage.NoSlash | http_parser.cpp:136-141 | an address without a slash is an error at once, whatever follows |
| HttpLanguage.HeadersRead | http_parser.cpp:41-45 | any list of nonempty header lines is passed up to and including the empty line, and no further |
| HttpLanguage.MessageReads | http_parser.cpp:11-57 | a request with any header lines, followed by anything, is parsed to its three fields, and exactly its bytes are taken |
| HttpLanguage.ParsedIff | http_parser.cpp:11-57 | the parser accepts exactly such requests, and those that lack just the last LF when that byte is found behind the end |
| HttpLanguage.CutShort | http_parser.cpp:117-134 | every proper prefix of a request is incomplete, except right behind a CR after the request line: there a byte that is not part of the prefix decides, and behind the last CR it makes a request or an error of it |
| HttpLanguage.RejectedIff | http_parser.cpp:11-57 | input is rejected exactly if no continuation makes it a request, with the two exceptions: the late space, and a last CR judged by the byte behind it |
| HttpPrinter.PrintIsText | http_request.cpp:20-27 | the printed form of a clean request is a request without header lines |
| HttpPrinter.RoundTrip | http_request.cpp:20-27 | a clean request, printed and followed by anything, is parsed back with its address minus the slash, and exactly its bytes are taken |
| HttpPrinter.RoundTripIff | http_request.cpp:20-27 | a request comes back from its printed form exactly if its fields have no space, CR or NUL and its address starts with a slash |
| HttpParser.ParseString | http_parser.cpp:105-115 | the loop yields the word up to the first space or CR, and incomplete input exactly if there is none |
| HttpParser.ParseLineOf | http_parser.cpp:117-134 | the loop yields the line up to the first CR; what follows the CR decides between success and error |
| HttpParser.SkipOneChar | http_parser.cpp:136-141 | passes exactly the given character; another is an error, none is incomplete |
| HttpParser.SkipLineEnd | http_parser.cpp:143-152 | passes exactly CR LF; fewer than two bytes are incomplete, others an error |
| HttpParser.ParseFirstLine | http_parser.cpp:33-39 | the sequence of routines recognizes the grammar's request line, with the first exception deciding |
| HttpParser.SkipHeaderLines | http_parser.cpp:41-45 | the loop passes all lines up to the first empty one and ends on every input |
| HttpParser.ParseRequestFrom | http_parser.cpp:11-57 | 0, 1 and -1 exactly as the grammar says, with the request and the position after it |
| HttpParser.ToBuffer | http_request.cpp:20-27 | the printed form is appended to the buffer |
| HttpConnection.ServerConnection.ReadDone | http_connection.cpp:31-52 | the loop handles exactly the complete requests at the front, in order, leaves the rest in the buffer, and ends because each pass takes something |
| HttpConnection.ServerConnection.Receive | connection.cpp:172-198 | one read offers room for at least 1024 bytes, puts at least one byte behind the contents and runs the read loop on all of it |
| HttpConnection.ServerConnection.DoRead | connection.cpp:172-202 | for any stream, in whatever pieces it is read, the connection ends as the delivery of these pieces says |
| HttpConnection.DrainMore | http_connection.cpp:34-51 | handling input in two steps is the same as handling it at once, unless the byte beyond the end of the first part decides its outcome |
| HttpConnection.CutsDoNotMatter | http_connection.cpp:31-52 | for arbitrary input, valid or not, fragmentation makes no difference to log, rest and error as long as no outcome is decided by a byte beyond a cut |
| HttpConnection.SettlesWithoutCr | http_parser.cpp:117-134 | input that does not end in CR is always such |
| HttpConnection.DrainReads | http_connection.cpp:31-52 | any such input is a list of requests with their header lines and a rest that is not one: exactly their fields are logged in order, and the rest is kept if it is incomplete and closes the connection if it is wrong |
| HttpConnection.DrainBadCut | http_parser.cpp:121-128 | at a bad cut the connection is closed or a request is taken too early, with its LF still to come |
| HttpConnection.Pipelined | http_connection.cpp:31-52 | requests with any header lines, sent back to back and received in any fragments, are handled as exactly that list, in order and with nothing left, if and only if no fragment but the last ends behind the last CR of a request, or behind the CR of a header line when the byte found there is not LF |
| HttpConnection.PipelinedWithoutCr | http_connection.cpp:31-52 | in particular if no fragment ends in CR |
| HttpConnection.PipelinedPrinted | http_connection.cpp:31-52 | for printed requests the condition is that no fragment ends between the last CR and LF of a request |
| HttpConnection.PipelinedPieces | http_connection.cpp:31-52 | Pipelined for a connection that reads until it is closed or has everything |
| HttpConnection.GarbageCloses | http_connection.cpp:36-42 | requests and then something wrong, in fragments that do not end in CR: the requests are handled and the connection is closed |
| HttpConnection.Serve | connection.cpp:172-202 | a new connection that is sent requests ends with exactly these in its log and an empty buffer if and only if no piece it read ended at a bad place |
| FastPool.StepKeeps | thread_pool_fast.cpp:50-169 | every step of every thread keeps the pool's invariant |
| FastPool.WorkerBeginsKeeps | thread_pool_fast.cpp:66-76 | a worker begins the task it was handed, which nobody has begun before, and it is recorded as the next one begun |
| FastPool.Refines | thread_pool_normal.cpp:62-98 | every step is a step of the plain pool or invisible in it |
| FastPool.RunRefines | thread_pool_normal.cpp:62-98 | every run is, from outside, a run of the plain pool: tasks leave in addTask order, each to one worker |
| FastPool.HandoffIsSafe | thread_pool_fast.cpp:88-169 | idle workers and queued tasks never coexist; assignTask only meets a worker with no task pending or running, so the read of task_ outside the mutex sees the right task |
| FastPool.LastBackIsNext | thread_pool_fast.cpp:145-166 | after any run, a task added while workers are without work goes to the one of them that came back last |
| FastPool.StopsKeep | thread_pool_fast.cpp:121-128 | the stop requests handed out went to different workers, one each |
| FastPool.StopDrains | thread_pool_fast.cpp:121-143 | after stop, once nothing can move, the queue is empty, every task was begun exactly once and nothing else was, every worker is gone, and each got exactly one stop request |
| RequestStats.Stats.constructor | request_stats.cpp:17-26 | the empty rings agree with empty logs |
| RequestStats.Stats.ZeroBetween | request_stats.cpp:51-55 | exactly the slots between the base and now are cleared, the others keep their counts |
| RequestStats.Stats.Expire | request_stats.cpp:38-61 | after moving the base the ring again holds exactly the counts of the last ten slots |
| RequestStats.Stats.FinishedRequest | request_stats.cpp:32-64 | one request is added to the log of one thread and the rings still agree with the logs; the base tick moves, to the slot of now, exactly if now is more than a slot after it |
| RequestStats.Stats.CountThread | request_stats.cpp:79-88 | the walk around the ring adds exactly the unexpired slots |
| RequestStats.Stats.GetStats | request_stats.cpp:66-92 | for every history the answer lies between the requests of the last nine and of the last ten slots, unless now is one second after some thread's base to the tick |
| RequestStats.Sandwich | request_stats.cpp:76-88 | the same bound for one thread |
| RequestStats.OneSecondLater | request_stats.cpp:79-87 | at that tick the lower bound still holds, and the upper one exactly if the ring holds no request ten slots old or older |
| RequestStats.OneSecondLaterOverCounts | request_stats.cpp:79-87 | a ring and a log for which the report is too high |
| Barrier.StepKeeps | thread_barrier.hpp:60-76 | every step keeps the single token and the record of who is in the generation |
| Barrier.OneToken | thread_barrier.hpp:60-76 | exactly one token exists among the two semaphores and the threads at work on the counter |
| Barrier.NobodyLeavesEarly | thread_barrier.hpp:63-69 | nobody is past the departure semaphore before all participants of the generation have arrived, and no more arrive |
| Barrier.NobodyJoinsTwice | thread_barrier.hpp:60-76 | nobody is counted into a generation twice, or out of it twice or without having joined |
| Barrier.EverybodyArrives | thread_barrier.hpp:63-69 | with as many threads as participants, everybody has arrived before anybody leaves |
| Barrier.NoDeadlock | thread_barrier.hpp:60-76 | when enough threads are inside wait, one of them can go on |
| Barrier.StepLowers | thread_barrier.hpp:60-76 | every step ends the generation or leaves one step less to take in it |
| Barrier.GenerationEnds | thread_barrier.hpp:60-76 | no generation lasts longer than eight steps per thread |
| Barrier.SomeoneCanStep | thread_barrier.hpp:60-76 | with at least as many threads as participants there is always an enabled step, so every generation completes |
| Barrier.EverySchedule | thread_barrier.hpp:60-76 | all of this after every schedule, over any number of generations |

## Left out

- Size and counter overflow: sizes, ticks and counts are unbounded; a request so large that rounding wraps, the 32-bit `pos` of the lists and the 32-bit slot counters are not modelled.
- sbrk failing or returning an unaligned or overlapping region: the answer is assumed fresh and 8-aligned.
- Frees and reallocs of pointers that are not live objects, and writes outside a payload: callers are assumed correct, so the branch of `freeObject` for blocks below 48 bytes cannot occur.
- The 32-bit `_flags` field is a whole word of the header, so its padding is not modelled.
- Frees that reach a cache before its first allocation are excluded from runs; what they do is stated by `TwoLayerRuns.EarlyFreeIsLost`, and that they can happen by `TwoLayerCases.EarlyFreeHappens`.
- The imperative form of a cache refilling itself from the central heap: `TwoLayer` has it as steps over the functions that the class methods compute.
- Start-up of the allocators (the compare-and-swap on `_initialized`, two threads racing to initialize), statistics counters, exit handlers, `calloc`.
- Weak memory: the MCS lock, the pools and the barrier interleave sequentially consistent steps; barriers in the source have no effect of their own. A thread uses one MCS lock at a time.
- Fairness: progress is stated as enabled steps and bounds on their number, not as a property of infinite runs.
- Condition variables and spurious wake-ups of the pools: a waiting thread is one whose step is not enabled.
- `stop()` called from inside a worker (`last_worker_`), a pool without workers, and the destructor's disposal of unconsumed tasks.
- HttpConnection.ServerConnection.DoRead: a socket with nothing to read yet (doRead returns and is called again later, with the same buffer), end of file and read errors are not steps of the loop.
- HttpConnection.ServerConnection.ReadDone: handling a request is an append to the log that succeeds; the shutdown address, file serving and responses are not modelled.
- `parseResponse`, `cloneFrom`, `Buffer::end` and iterator comparison.
- Buffers that violate the stated precondition of `appendFrom` and `copyFrom` (already consumed from), which the source logs as fatal.
- Request statistics with a clock that goes backwards, or a second that is not ten slots.
- file_cache, the rest of connection, io_manager, io_service, acceptor, the epoll poller, callbacks, logging, signals, parameters, benchmarks: I/O plumbing or easy members.
- sbrk_alloc, page_map, circular_buffer, list_set: fragments or stubs.
