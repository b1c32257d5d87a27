# Deviare2: verified models of the core

Deviare2 is a Windows hooking engine. Below its COM surface it has a set of self-contained
components written with care for memory, speed and concurrency: a slab allocator, a reader/writer
lock, word-at-a-time memory primitives, a protocol for messages larger than a packet, the layout of
call parameters, bit-fields and strings of a hooked process, an object cache, a type database, an
object pool and a Base64 decoder. This project models these in Dafny, one module for each, and
proves what they are relied on for. `dafny verify dfyconfig.toml` checks all of it.

## How the models are built

**The pool allocator** (`Source/Common/MemoryManagerPool.cpp`) has three layers. `SlabLevel` is one
level of slabs: owners with a stack of free blocks, each on a free, an in-use or a full list. The same
level serves twice, for the blocks of 64 KiB chunks in a bin and for the chunks of 2 MiB superchunks.
`PoolModel` composes them with the size classes, the direct allocations and the trimming into functions
on a state; `PoolSafety` proves what every operation keeps, and `PoolRuns` what holds after every run of
a client that frees a pointer at most once and only while it holds it. `PoolHeap` is the allocator in the
source's own form: a class over one flat map from addresses to words, in which headers, tags, counters and
the free lists threaded through the free blocks are ordinary words. Each of its methods is proved to
compute the function of `PoolModel`, and to leave every word of every other live block alone.
`PoolMemory` says how the words represent the state, and `PoolBytes` what they are byte by byte, for the stores
of clients and the copy of Realloc. `PoolPolicy` says which memory is used next and which is given back.
`DlList` shows that the pointer operations on the
circular lists do what the sequences of the models say.

**The reader/writer lock** is a class whose methods are the stretches of code between two acquisitions of the
internal mutex, and a step machine over these for any number of threads.

**The memory primitives** are loops over one byte array with the word size as a parameter; each is proved equal
to a function of the bytes before.

**The other components** are classes and methods over arrays and sequences with the fields of the
source, proved against functions (`Process`, `Added`, `ParamSlot64`, `SetOf`, `LengthFrom`, `Kept`,
`LookupRule`, `Pack`), and lemmas about these functions, over whole runs where the component has a
history. `CallerLayout` is the other side of `ParamsLayout`: how a caller and a callee of each calling convention
place arguments and results.

`Bits`, `Options` and `Sets` hold what several modules share: machine words as numbers, optional values
and the size of a subset.

`VirtualAlloc` is an argument: an address that is 64 KiB aligned and apart from everything mapped,
or none. `GetTickCount`, the registry settings and the success of other allocations are arguments too.

## Model

| member | source | states |
|---|---|---|
| SlabLevel.TakeKeeps | Source/Common/MemoryManagerPool.cpp:673-688 | taking a block from the head of the in-use list keeps the classification of all lists, makes exactly that block live, and it was free before |
| SlabLevel.InUseReady | Source/Common/MemoryManagerPool.cpp:673-677 | the head of the in-use list always has a block to give |
| SlabLevel.GiveKeeps | Source/Common/MemoryManagerPool.cpp:707-723 | giving a block back keeps the classification, for a promotion to the in-use list as the bins and the superchunks decide it |
| SlabLevel.GiveLive | Source/Common/MemoryManagerPool.cpp:707-723 | it makes exactly that block free |
| SlabLevel.TrimKeeps | Source/Common/MemoryManagerPool.cpp:466-490 | trimming keeps the classification and releases only owners without a live block |
| SlabLevel.Pigeonhole | Source/Common/MemoryManagerPool.cpp:793-811 | a free list without repetition over the blocks of an owner is at most as long as there are blocks |
| PoolModel.IndexFromSizeIsBestFit | Source/Common/MemoryManagerPool.cpp:273-285 | the class is the smallest of 8, 16, ..., 16384 that fits, and none exactly when the request is larger than 16384 |
| Bits.AndTest | Source/Common/MemoryManagerPool.cpp:282-283 | n & (n-1) is zero exactly for the powers of two |
| PoolModel.BlocksFit | Source/Common/MemoryManagerPool.cpp:515-526 | a chunk of any bin has at least three blocks and they end inside the chunk |
| PoolModel.NoMoreBlocksFit | Source/Common/MemoryManagerPool.cpp:515-526 | one block more would not fit the chunk |
| PoolSafety.SuperAllocKeeps | Source/Common/MemoryManagerPool.cpp:307-374 | a slot comes from a superchunk, was owned by nobody, and conservation holds with it owned by the bin: every slot is free or owned by exactly one bin |
| PoolSafety.SuperFreeKeeps | Source/Common/MemoryManagerPool.cpp:376-436 | giving a slot back and trimming keep conservation for the remaining chunks: no superchunk with an owned slot is released |
| PoolSafety.TakeConserved | Source/Common/MemoryManagerPool.cpp:353-368 | the slot taken is the only one whose ownership changes |
| PoolSafety.BlockDecode | Source/Common/MemoryManagerPool.cpp:573-591 | masking the low 16 bits of a block's address gives its chunk, and its distance from the header gives its number |
| PoolSafety.SmallAllocKeeps | Source/Common/MemoryManagerPool.cpp:620-694 | a bin's allocation keeps the invariant of the whole pool and adds one live pointer of that bin, whatever chunk it came from |
| PoolSafety.ReleaseChunkKeeps | Source/Common/MemoryManagerPool.cpp:781-787 | a chunk that is given back holds no live block, and the set of live pointers stays the same |
| PoolSafety.TrimBinKeeps | Source/Common/MemoryManagerPool.cpp:766-790 | so does the whole Trim of a bin, on both levels |
| PoolSafety.SmallFreeKeeps | Source/Common/MemoryManagerPool.cpp:696-736 | a bin's release keeps the invariant and takes out exactly the pointer |
| PoolSafety.MallocKeeps | Source/Common/MemoryManagerPool.cpp:534-571 | Malloc fails without effect or adds one pointer that was not live; the header its high bits select is the serving bin's, for 16384 bytes and less, and a region of its own above |
| PoolSafety.FreeKeeps | Source/Common/MemoryManagerPool.cpp:573-591 | Free keeps the invariant and takes out exactly the pointer |
| PoolSafety.LiveDisjoint | Source/Common/MemoryManagerPool.cpp:534-736 | two live blocks never overlap |
| PoolSafety.LiveExtent | Source/Common/MemoryManagerPool.cpp:697-706 | a live block lies past its header and inside its chunk or region |
| PoolRuns.MallocSize | Source/Common/MemoryManagerPool.cpp:534-618 | the block is at least as large as asked for if and only if adding the 48 bytes of the header does not wrap around |
| PoolRuns.HugeRequestGetsOnePage | Source/Common/MemoryManagerPool.cpp:560-567 | an input where it wraps: a request of 2^64 - 47 bytes succeeds with one page |
| PoolRuns.CopyFitsIff | Source/Common/MemoryManagerPool.cpp:174-196 | the bytes Realloc copies fit the new block if and only if CopyFits: the new size plus the header is at most 2^64, or the old block is not larger than a page less its header |
| PoolRuns.HugeReallocOverruns | Source/Common/MemoryManagerPool.cpp:187-192 | where it fails: any live block larger than that, reallocated to 2^64 - 47 bytes, is copied beyond the new block |
| PoolRuns.OverrunIsReachable | Source/Common/MemoryManagerPool.cpp:187-192 | a legal run of one Malloc leads from the start to a Realloc whose copy leaves the new block |
| PoolRuns.CopyInsideIff | Source/Common/MemoryManagerPool.cpp:187-193 | for a client that holds the old block, the copy runs between two live, disjoint blocks and stays inside both if and only if CopyFits |
| PoolRuns.StepCopiesInside | Source/Common/MemoryManagerPool.cpp:187-193 | so the copy of every legal Realloc does |
| PoolRuns.SizesStable | Source/Common/MemoryManagerPool.cpp:593-618 | the size of a block that stays live does not change |
| PoolRuns.RunSound | Source/Common/MemoryManagerPool.cpp:169-202 | in every run of Malloc, Realloc and Free the pointers the client holds are exactly the live ones, and every copy a Realloc performs stays inside both of its blocks; a run is legal if the client frees and reallocates only what it holds and CopyFits holds of each Realloc |
| PoolRuns.RunsAreSafe | Source/Common/MemoryManagerPool.cpp:169-202 | after every such run the held blocks are pairwise disjoint, past their header, inside their chunk or region, and as large as asked for exactly when the request plus the header fits; no copy has left its blocks on the way |
| PoolRuns.SpaceBound | Source/Common/MemoryManagerPool.cpp:627-652 | when a bin asks for a chunk, at least chunks * (total - total / 4) of its blocks are live |
| PoolRuns.NewSuperchunkOnlyWhenFull | Source/Common/MemoryManagerPool.cpp:316-352 | a superchunk is created only when every slot of every existing one is owned by a bin |
| PoolPolicy.AgedMeans | Source/Common/MemoryManagerPool.cpp:474-481 | the age test of both trims, in arithmetic: what was last used at last stays at time exactly if last <= time < last + maxAge |
| PoolPolicy.TrimBinTrims | Source/Common/MemoryManagerPool.cpp:766-790 | the trim of a bin gives back exactly the chunks of its free list that are too old, and changes no other list and no other bin |
| PoolPolicy.FreeEffect | Source/Common/MemoryManagerPool.cpp:696-736 | after every Free of a block: the counter; only a Free that reaches the check frequency gives chunks back, and of those that were free exactly the ones not used for maxAge; a chunk that is free as a whole goes to the front of the free list, one with more than a quarter of its blocks free to the front of those in use, others stay |
| PoolPolicy.SuperFreeEffect | Source/Common/MemoryManagerPool.cpp:376-436 | after every return of a chunk, with the time of that return: the free superchunks that stay are exactly those used within maxAge; one that was full goes to the front of those in use, one in use keeps its place |
| PoolPolicy.NextBlock | Source/Common/MemoryManagerPool.cpp:627-694 | a bin hands out the top free block of its first chunk in use, or else of its first free chunk |
| PoolPolicy.NextSlot | Source/Common/MemoryManagerPool.cpp:314-374 | the superchunk manager does the same, and hands out the first slot of a new superchunk |
| PoolPolicy.ReusedIff | Source/Common/MemoryManagerPool.cpp:620-736 | a block just released is the next one its bin hands out if and only if its chunk has more than a quarter of its blocks free and not all while others are in use, or was the first to be asked already |
| PoolPolicy.BlocksInOrder | Source/Common/MemoryManagerPool.cpp:657-694 | a fresh chunk is handed out from its first block to its last |
| PoolPolicy.MallocFailsIff | Source/Common/MemoryManagerPool.cpp:534-571 | Malloc fails if and only if the system gives no memory and the bin and the superchunks have none, or the size plus the header is just 2^64 |
| PoolPolicy.MallocSizeIs | Source/Common/MemoryManagerPool.cpp:273-285 | the size of a block is the least power of two that is at least 8 and the request, or what the fewest pages leave behind the header |
| PoolMemory.ThreadPop | Source/Common/MemoryManagerPool.cpp:676-682 | the link in the first free block leads to a list of exactly the others |
| PoolMemory.ThreadPush | Source/Common/MemoryManagerPool.cpp:707-709 | writing the link into a returned block threads it in front, and the rest stays threaded |
| PoolMemory.TagTells | Source/Common/MemoryManagerPool.cpp:579-581 | the tag of a header gives back its address: no other header has it |
| PoolMemory.ChunkWriteFrame | Source/Common/MemoryManagerPool.cpp:696-725 | writes inside one chunk leave the representation of all others, of the superchunks and of the regions |
| PoolMemory.ReleaseFrame | Source/Common/MemoryManagerPool.cpp:481-487 | releasing a superchunk leaves the representation of everything that is still owned |
| PoolHeap.PoolHeap.InitLinks | Source/Common/MemoryManagerPool.cpp:661-668 | the loop threads all blocks in ascending order and ends the list |
| PoolHeap.PoolHeap.SuperAlloc | Source/Common/MemoryManagerPool.cpp:307-374 | the superchunk level in memory: what PoolModel.SuperAlloc says, and no mapped word changes |
| PoolHeap.PoolHeap.SuperFree | Source/Common/MemoryManagerPool.cpp:376-436 | finding the superchunk, threading the slot, moving between lists, trimming: what PoolModel.ReleaseChunk says, and the memory of everything still held is unchanged |
| PoolHeap.PoolHeap.SmallHeapAlloc | Source/Common/MemoryManagerPool.cpp:620-694 | a bin's allocation in memory is PoolModel.SmallAlloc, and no word of a live block changes |
| PoolHeap.PoolHeap.SmallHeapFree | Source/Common/MemoryManagerPool.cpp:696-736 | a bin's release in memory is PoolModel.SmallFree, and no word of another live block changes |
| PoolHeap.PoolHeap.TrimChunks | Source/Common/MemoryManagerPool.cpp:766-790 | the trim loop in memory is PoolModel.TrimBin |
| PoolHeap.PoolHeap.SanityCheck | Source/Common/MemoryManagerPool.cpp:793-811 | the threaded list of every chunk is acyclic, has dwFreeCount blocks, none twice, and they are exactly the blocks of the chunk that are not live |
| PoolHeap.PoolHeap.Alloc | Source/Common/MemoryManagerPool.cpp:534-571 | Malloc in memory, for bins and direct allocations |
| PoolHeap.PoolHeap.Free | Source/Common/MemoryManagerPool.cpp:573-591 | Free in memory, dispatching on the owner word the mask finds |
| PoolHeap.PoolHeap.GetSize | Source/Common/MemoryManagerPool.cpp:593-618 | the size read through the header is that of the block |
| PoolHeap.HeaderTells | Source/Common/MemoryManagerPool.cpp:579-588 | for every live pointer the masked header has the tag, and its owner word names the serving bin, or is null exactly for direct allocations |
| PoolHeap.PoolHeap.ClientWrite | Source/Common/MemoryManagerPool.cpp:169-202 | a store of the client to any bytes of one word of a block it holds changes exactly these bytes and leaves the allocator's state valid |
| PoolHeap.PoolHeap.Realloc | Source/Common/MemoryManagerPool.cpp:174-196 | where CopyFits holds, the new block starts with the first min(old size, new size) bytes of the old one, byte by byte, the old pointer is free, and all other blocks keep their contents |
| PoolBytes.SpliceBytes | Source/Common/MemoryManagerPool.cpp:192 | copying part of a word takes the low bytes of one and keeps the high bytes of the other |
| PoolBytes.InsertByte | Source/Common/MemoryManagerPool.cpp:192 | a store of part of a word changes exactly its bytes |
| PoolBytes.CopiedBytes | Source/Common/MemoryManagerPool.cpp:192 | copying the words and the low bytes of the last, partly copied word copies every byte |
| PoolBytes.FieldsFillHeader | Source/Common/MemoryManagerPool.cpp:119-129 | the fields of a header fill its 48 bytes in order without overlap, so a store to one changes no other |
| PoolBytes.StoresMissLive | Source/Common/MemoryManagerPool.cpp:661-709 | all eight bytes of a link stored in a block that is not live or in a free slot, and all 48 of a header, are outside every live block |
| DlList.DlListInsertHead | Source/Common/MemoryManagerPool.cpp:245-253 | a node on no list becomes the first of a ring |
| DlList.DlListInsertTail | Source/Common/MemoryManagerPool.cpp:255-263 | or the last |
| DlList.DlListRemove | Source/Common/MemoryManagerPool.cpp:265-271 | a node leaves its ring, whatever ring that is, and is on no list |
| DlList.Transfer | Source/Common/MemoryManagerPool.cpp:686-687 | moving a node between two lists leaves both right |
| DlList.RemovalIsWithout | Source/Common/MemoryManagerPool.cpp:265-271 | that is the removal the models compute |
| ReadWriteLock.CNktFastReadWriteLock.ReaderTest | Source/Common/WaitableObjects.h:409-435 | one pass of ReaderLock or TryReaderLock |
| ReadWriteLock.CNktFastReadWriteLock.WriterTest | Source/Common/WaitableObjects.h:437-455 | WriterLock from its entry to the first sleep |
| ReadWriteLock.CNktFastReadWriteLock.WriterWake | Source/Common/WaitableObjects.h:442-454 | WriterLock from a wake-up on |
| ReadWriteLock.CNktFastReadWriteLock.TryWriterLock | Source/Common/WaitableObjects.h:457-467 | TryWriterLock |
| ReadWriteLock.CNktFastReadWriteLock.Unlock | Source/Common/WaitableObjects.h:469-485 | the one Unlock |
| ReadWriteLock.StepExact | Source/Common/WaitableObjects.h:409-485 | with writers preferred every step keeps the three counters equal to the numbers of reading, writing and sleeping-writer threads |
| ReadWriteLock.StepCounted | Source/Common/WaitableObjects.h:409-485 | for either preference nWriterWait is the number of sleeping writers |
| ReadWriteLock.StepBalanced | Source/Common/WaitableObjects.h:409-485 | for either preference the reader and the writer field together count the threads that hold the lock, and at most one of these is a writer |
| ReadWriteLock.NeverTwoWriters | Source/Common/WaitableObjects.h:409-485 | so over all interleavings, for either preference, two writers never hold the lock together |
| ReadWriteLock.ReaderEntersIff | Source/Common/WaitableObjects.h:409-435 | a call or wake-up of a reader gets in if and only if no thread sleeps in WriterLock and, with writers preferred, none writes; nobody else moves |
| ReadWriteLock.WriterEntersIff | Source/Common/WaitableObjects.h:437-467 | one of a writer gets in if and only if nobody holds the lock, for either preference |
| ReadWriteLock.AdmissionOverRuns | Source/Common/WaitableObjects.h:409-485 | both in every state of every run, in terms of what the threads do |
| ReadWriteLock.AllReadAtOnce | Source/Common/WaitableObjects.h:409-421 | some run has all threads reading at once |
| ReadWriteLock.LongArithmetic | Source/Common/WaitableObjects.h:419 | the counters step by one as LONGs do, around 2^31 |
| ReadWriteLock.MutualExclusion | Source/Common/WaitableObjects.h:409-485 | with writers preferred, over all interleavings: never a reader beside a writer, never two writers |
| ReadWriteLock.ExclusionIffPreferred | Source/Common/WaitableObjects.h:414 | exclusion over all runs holds if and only if writers are preferred |
| ReadWriteLock.ReaderBesideWriter | Source/Common/WaitableObjects.h:414 | the run of two steps that breaks it otherwise |
| ReadWriteLock.UnlockReleasesOwnKindIff | Source/Common/WaitableObjects.h:469-485 | for either preference a writer's Unlock releases the writer exactly when no thread reads, and a reader's releases a reader exactly when the reader field is not zero |
| ReadWriteLock.UnlockMixesKinds | Source/Common/WaitableObjects.h:469-485 | without the preference a writer's Unlock can release a reader |
| ReadWriteLock.UnlockReleasesOwnKind | Source/Common/WaitableObjects.h:469-485 | with writers preferred Unlock always releases the kind of hold its caller has, and a writer leaves the lock free |
| ReadWriteLock.NoReaderPastSleepingWriter | Source/Common/WaitableObjects.h:414-453 | for either preference, while a writer sleeps in WriterLock no reader is admitted, through all its wake-ups |
| ReadWriteLock.NoReaderWhileWriterWaits | Source/Common/WaitableObjects.h:414-453 | the same from the start of any run |
| ReadWriteLock.NoDeadlock | Source/Common/WaitableObjects.h:409-485 | for either preference, whenever a thread sleeps, some thread holds the lock or gets it when it wakes up |
| MemoryPrimitives.NktMemSet | Source/Common/MemoryManager.cpp:241-264 | every byte of the destination is the low byte of the value, for every alignment and length, and nothing else changes |
| MemoryPrimitives.PatternBytes | Source/Common/MemoryManager.cpp:241-264 | every byte of the pattern word is the byte |
| MemoryPrimitives.NktMemCopy | Source/Common/MemoryManager.cpp:266-285 | for every overlap the result is that of copying byte by byte upwards, told byte by byte: behind the source the gap between the two repeats; nothing else changes |
| MemoryPrimitives.ForwardBytes | Source/Common/MemoryManager.cpp:266-285 | where each byte of the destination comes from, for every overlap |
| MemoryPrimitives.CopyIsMoveIff | Source/Common/MemoryManager.cpp:266-285 | this is the move of the original bytes, for all memories, if and only if the destination does not start inside the source past its first byte |
| MemoryPrimitives.NktMemMove | Source/Common/MemoryManager.cpp:287-348 | the destination becomes the original source bytes for every overlap, alignment and length, through all four paths, and nothing else changes |
| MemoryPrimitives.NktMemCompare | Source/Common/MemoryManager.cpp:350-375 | at the first difference the result is that of the two bytes as unsigned numbers; it is negative exactly if the first buffer comes first in the lexicographic order, positive if it comes last, and 0 if they are equal |
| MemoryPrimitives.DifferenceCompares | Source/Common/MemoryManager.cpp:350-375 | the difference of two buffers tells their order |
| MemoryPrimitives.DifferenceLaws | Source/Common/MemoryManager.cpp:350-375 | it is 0 exactly for equal buffers and changes sign with their order |
| MemoryPrimitives.NktTryMemCopy | Source/Common/MemoryManager.cpp:407-436 | the count returned was copied from and to accessible memory, nothing else changes, and when it is less than asked for, the next word, or the next byte where words are not used, has a byte that cannot be accessed |
| BigData.CNktDvTransportBigData.ProcessPacket | Source/Common/TransportBigData.cpp:56-150 | the packet's effect on the table is that of Process, whichever allocations fail; the table stays valid |
| BigData.CNktDvTransportBigData.GetNextBuildId | Source/Common/TransportBigData.cpp:152-161 | the next identifier; 0 is skipped |
| BigData.CNktDvTransportBigData.GetLength | Source/Common/TransportBigData.cpp:163-173 | the length of the stored message |
| BigData.CNktDvTransportBigData.GetData | Source/Common/TransportBigData.cpp:175-183 | its buffer |
| BigData.CNktDvTransportBigData.Remove | Source/Common/TransportBigData.cpp:185-198 | the message is gone, the others stay |
| BigData.CNktDvTransportBigData.Reset | Source/Common/TransportBigData.cpp:47-54 | no messages, and identifiers start over |
| BigData.ProcessOk | Source/Common/TransportBigData.cpp:56-150 | identifiers stay strictly sorted and nLen within nSize |
| BigData.ProcessView | Source/Common/TransportBigData.cpp:66-149 | another identifier's message is untouched; its own grows by the payload exactly when the packet is next in order and memory suffices; otherwise no stored byte changes, but a packet numbered 1 has emptied the message |
| BigData.ProcessAnswers | Source/Common/TransportBigData.cpp:56-150 | the answer to every packet: out of memory exactly when an allocation it needs fails, refused exactly for the wrong number; a message not known gets an entry also then; a buffer grows only when the payload does not fit, to the least multiple of 32 KiB |
| BigData.StoredIsAccepted | Source/Common/TransportBigData.cpp:56-150 | in every run a stored message is the concatenation of the payloads accepted since its last packet numbered 1, numbered 1 to nLastOrderNo |
| BigData.Reassembly | Source/Common/TransportBigData.cpp:56-150 | fragments in order, interleaved in any way with other identifiers, leave their concatenation; with more than 2^32 of them, the concatenation since the numbers started over |
| BigData.SendBigPacketMsg | Source/Engine/SpyMgr/TransportEngine.cpp:419-462 | the loop of the sender makes the fragments of Split |
| BigData.SplitAt | Source/Engine/SpyMgr/TransportEngine.cpp:419-462 | fragment i has the bytes from i * max on, max of them except for the last, and its number in a DWORD |
| BigData.SplitConcat | Source/Engine/SpyMgr/TransportEngine.cpp:419-462 | the fragments from number k on are together the bytes from k * max on, so all are the message |
| BigData.RoundTrip | Source/Engine/SpyMgr/TransportEngine.cpp:419-462 | what the sender splits, the table puts together again, if and only if there are at most 2^32 fragments; otherwise the bytes since the last fragment numbered 1 are left |
| BigData.NthIdIs | Source/Common/TransportBigData.cpp:152-161 | the k-th identifier is (k-1) mod (2^32 - 1) + 1 |
| BigData.IdsDistinct | Source/Common/TransportBigData.cpp:152-161 | 2^32 - 1 identifiers in a row are different and not 0 |
| SortedList.BinarySearch | Source/Common/ArrayList.h:489-507 | finds the key exactly when the list has it |
| SortedList.SortedIsMap | Source/Common/ArrayList.h:452-507 | a sorted list is determined by what it maps keys to |
| SortedList.InsertKeeps | Source/Common/ArrayList.h:452-476 | sorted insertion of a new key adds just that key |
| SortedList.UpdatedKeeps | Source/Common/EngObjCache.h:76-77 | storing over an entry changes that key only |
| SortedList.RemovedKeeps | Source/Common/ArrayList.h:615-631 | removal takes out that key only |
| ArrayList.ArrayList.SetSize | Source/Common/ArrayList.h:558-608 | it fails exactly when it needs memory and gets none; growing keeps the contents and rounds up to a multiple of 32 except on the first allocation; a forced size below the count cuts them |
| ArrayList.ArrayList.InsertElementAt | Source/Common/ArrayList.h:440-450 | the contents with the element at the index; it fails exactly when the array is full and memory is refused, and then nothing changes |
| ArrayList.ArrayList.SortedInsert | Source/Common/ArrayList.h:452-476 | the shifted binary search inserts before the first entry that is not smaller |
| ArrayList.ArrayList.RemoveElementAt | Source/Common/ArrayList.h:615-631 | the contents without the elements, the count cut at the end; an index plus count that wraps around is refused |
| ArrayList.ArrayList.ReserveBlock | Source/Common/ArrayList.h:648-658 | the contents with zero elements in between; it fails exactly when they do not fit and memory is refused |
| ArrayList.ArrayList.RemoveAllElements | Source/Common/ArrayList.h:633-646 | no contents and no memory |
| ObjCache.OldestIsFirstMinimum | Source/Common/EngObjCache.h:187-205 | the entry given up has the smallest tick and is the first such |
| ObjCache.AddToIsMapUpdate | Source/Common/EngObjCache.h:63-86 | Add on a bucket is a map update less the evicted key; the bucket stays sorted and within its bound |
| ObjCache.AddedIsMapUpdate | Source/Common/EngObjCache.h:56-89 | the same for the whole cache, with the four results |
| ObjCache.FetchedKeepsMap | Source/Common/EngObjCache.h:147-165 | Get changes no mapping, only the tick of what it finds |
| ObjCache.DroppedRemovesKey | Source/Common/EngObjCache.h:91-129 | Remove takes out exactly the key |
| ObjCache.TNktDvEngObjCache.Add | Source/Common/EngObjCache.h:56-89 | the cache becomes what Added says; the references held outside the cache do not change, through replacing and evicting |
| ObjCache.TNktDvEngObjCache.Remove | Source/Common/EngObjCache.h:91-108 | the key is gone and its reference with it |
| ObjCache.TNktDvEngObjCache.RemoveTransfer | Source/Common/EngObjCache.h:110-129 | the key is gone and its reference belongs to the caller |
| ObjCache.TNktDvEngObjCache.RemoveAll | Source/Common/EngObjCache.h:131-145 | nothing is stored and every reference of the cache is released |
| ObjCache.TNktDvEngObjCache.Get | Source/Common/EngObjCache.h:147-165 | the mapped object with one more reference, for the caller |
| ObjCache.TNktDvEngObjCache.RemoveExtraItem | Source/Common/EngObjCache.h:187-205 | the oldest entry leaves with its reference |
| ObjCache.TNktDvEngObjCache.Release | Source/Common/EngObjCache.h:76 | no object is released more often than it was referenced |
| ObjCache.RunOk | Source/Common/EngObjCache.h:56-205 | in every run buckets are strictly ascending by key, within their bound, and hold the keys that leave their number as remainder |
| ObjCache.TicksOrderUses | Source/Common/EngObjCache.h:70-160 | before the tick can wrap, ticks order the stored keys by their last use |
| ObjCache.EvictsLeastRecentlyUsed | Source/Common/EngObjCache.h:81-82 | in every run the evicted entry is the one least recently added or fetched, and no other leaves |
| ObjCache.StoredIsLastAdded | Source/Common/EngObjCache.h:56-165 | in every run a stored key has the object last added under it |
| ParamsLayout.NotPowerOfTwoMeans | Source/Common/FunctionParamsCache.cpp:223-224 | the bit test is true exactly for sizes that are not a power of two |
| ParamsLayout.GetStackUsage64 | Source/Common/FunctionParamsCache.cpp:139-329 | counts StackUsage64 |
| CallerLayout.UsageIsCallers64 | Source/Common/FunctionParamsCache.cpp:139-329 | GetStackUsage counts what that caller puts on the stack |
| CallerLayout.ByReferenceMeans | Source/Common/FunctionParamsCache.cpp:566-606 | passed by address is exactly what is not of 0, 1, 2, 4, 8, 16, 32 or 64 bits, and objects with virtual members or inheritance |
| ParamsLayout.PreCallAssignAddresses64 | Source/Common/FunctionParamsCache.cpp:481-657 | for every signature nSP advances past Rsp + 40 by exactly what GetStackUsage counts, and result and parameters get the places of ResultSlot64 and ParamSlot64 |
| CallerLayout.ParameterIsArgument64 | Source/Common/FunctionParamsCache.cpp:481-657 | for every signature: after a caller has put its words, position by position, into rcx, rdx, r8, r9 or xmm0 to xmm3 and on the stack, the place given to parameter i holds argument i |
| CallerLayout.ResultIsReturned64 | Source/Common/FunctionParamsCache.cpp:504-556 | and the place given to the result holds what the callee leaves, in rax, xmm0, on the stack, or at the address the caller passed in rcx |
| ParamsLayout.RegistersUsedOnce64 | Source/Common/FunctionParamsCache.cpp:598-651 | no register position is used twice, nor rcx for a parameter when the result has it |
| ParamsLayout.StackSlotsDisjoint64 | Source/Common/FunctionParamsCache.cpp:551-651 | the stack words are disjoint, in order and fill the counted space |
| ParamsLayout.GetStackUsage32 | Source/Common/FunctionParamsCache.cpp:168-285 | counts StackUsage32 |
| CallerLayout.UsageIsCallers32 | Source/Common/FunctionParamsCache.cpp:168-285 | GetStackUsage counts what that caller puts on the stack, and a pointer for a result there |
| ParamsLayout.PreCallAssignAddresses32 | Source/Common/FunctionParamsCache.cpp:333-477 | gives result and parameters the places of ResultSlot32 and ParamSlot32 |
| CallerLayout.ParameterIsArgument32 | Source/Common/FunctionParamsCache.cpp:333-477 | the same for every x86 signature, where ecx takes the first argument of a this-call, ecx and then edx the first two small ones of a fast-call, and the stack the rest |
| CallerLayout.ResultIsReturned32 | Source/Common/FunctionParamsCache.cpp:352-411 | and the result, in eax, eax and edx, the floating-point stack, on the stack, or at the address in ecx |
| ParamsLayout.WalksAgreeIff32 | Source/Common/FunctionParamsCache.cpp:198-203 | the two x86 walks agree if and only if the stack does not carry the result |
| ParamsLayout.RegistersUsedOnce32 | Source/Common/FunctionParamsCache.cpp:433-463 | ecx and edx go to one argument each at most |
| ParamsLayout.StackSlotsDisjoint32 | Source/Common/FunctionParamsCache.cpp:388-470 | the x86 stack arguments are disjoint and in order |
| ParamsLayout.PreCallSaveOriginalStackValues | Source/Common/FunctionParamsCache.cpp:661-685 | every recorded stack word is saved |
| ParamsLayout.PostCallRestoreOriginalStackValues | Source/Common/FunctionParamsCache.cpp:689-791 | after any writes every recorded byte is what it was when saved, overlapping words included, other bytes are left, and every parameter has its LaterPlace |
| CallerLayout.LaterPlace64 | Source/Common/FunctionParamsCache.cpp:736-791 | that is the place it would get with the later registers |
| CallerLayout.LaterPlace32 | Source/Common/FunctionParamsCache.cpp:689-734 | for x86, too |
| CallerLayout.StackWordsCovered | Source/Common/FunctionParamsCache.cpp:661-791 | the bytes put back for a parameter are exactly those of the stack word its caller filled |
| BitField.MinusOneIsMinusOne | Source/Common/Param.cpp:483 | the model of subtracting one from a word is that of its number |
| BitField.LittleEndian | Source/Common/Param.cpp:1242-1295 | a storage unit read from the model of memory is the little-endian number of its bytes |
| BitField.GetField | Source/Common/Param.cpp:445-461 | the mask and the shift of a field mark exactly its bits in the storage unit |
| BitField.FieldIsDeclaredIff | Source/Common/Param.cpp:446-483 | a field starts where declared except exactly for a whole unit declared inside a byte, and has its declared width except exactly when that leaves the unit |
| BitField.FieldIsDeclaredBits | Source/Common/Param.cpp:446-483 | for every declaration the bits of a field are the declared ones as far as the storage unit at its byte reaches, and the whole unit for a plain member |
| BitField.GetValueCommon | Source/Common/Param.cpp:1237-1299 | reading gives the field's bits, extended with zeros |
| BitField.SetValueCommon | Source/Common/Param.cpp:1415-1502 | writing changes the field's bits only, to the low bits of the value; it succeeds exactly when the memory can be written and, for a bit-field, read |
| BitField.ReadMember | Source/Common/Param.cpp:446-483 | GetField and GetValueCommon together: a plain member reads as the little-endian number of its bytes, a bit-field as its declared bits |
| BitField.WriteMember | Source/Common/Param.cpp:446-483 | GetField and SetValueCommon together: the declared bits become the value and no other bit changes; a bit-field needs memory it can read, a plain member does not |
| BitField.GetAfterSet | Source/Common/Param.cpp:1237-1502 | get after set is the value modulo 2^bits |
| BitField.SetAfterGet | Source/Common/Param.cpp:1237-1502 | writing back what was read changes nothing, and the last write stays |
| BitField.FieldsIndependent | Source/Common/Param.cpp:1237-1502 | writing a field never changes what a field on other bits reads, overlapping units included |
| BitField.DeclaredApart | Source/Common/Param.cpp:445-483 | two fields, one declared before the other, share no bit if and only if the second is not a whole unit declared inside a byte or the first ends before that byte |
| BitField.SafeDeclarationIff | Source/Common/Param.cpp:445-483 | a declaration is safe against every one before it if and only if it is not a whole unit declared inside a byte |
| BitField.WholeUnitInsideByteOverlaps | Source/Common/Param.cpp:474-477 | an input where it is not: a byte declared at bit 4, behind a field of 4 bits |
| ParamString.LengthIsFirstZero | Source/Common/Param.cpp:1650-1703 | the simple reader: the first zero, at most the maximum, successful exactly when everything before can be read |
| ParamString.StringLength | Source/Common/Param.cpp:1650-1703 | the chunked loop terminates and equals the simple reader |
| ParamString.GetStringCommon | Source/Common/Param.cpp:1650-1790 | the text is the slice from the clamped start, of at most nMaxLength characters, and no size overflows |
| ParamString.SetStringCommon | Source/Common/Param.cpp:1856-1890 | the text and its terminator are written as far as they fit below nArrayMax, character by character, and nothing else changes |
| ParamString.SetThenGet | Source/Common/Param.cpp:1650-1890 | for every start inside the text of the array, with a terminator and without: what is set is read again, cut off at the size of the array, and without a terminator the old string goes on behind it |
| ParamString.SetBehindTheEnd | Source/Common/Param.cpp:1650-1890 | a start behind the end of the text leaves it as it is |
| ObjectPool.AgeIsDifference | Source/Common/MemoryManagerObjects.h:254-257 | the 32 bit age is the true one modulo 2^32 |
| ObjectPool.KeptUpToTheLastYoung | Source/Common/MemoryManagerObjects.h:246-276 | trimming keeps everything up to the last item younger than dwMaxAge, for all ages |
| ObjectPool.KeptAreTheYoung | Source/Common/MemoryManagerObjects.h:246-276 | trimming keeps exactly the items younger than dwMaxAge, for true ages below 2^32 |
| ObjectPool.TNktMemMgrObjPool.IntMemAlloc | Source/Common/MemoryManagerObjects.h:171-199 | the newest free item or a new one becomes live, although the new head's back link stays stale |
| ObjectPool.TNktMemMgrObjPool.IntMemFree | Source/Common/MemoryManagerObjects.h:201-225 | the item leads the free list, newest first; every dwCheckFreq-th call trims |
| ObjectPool.TNktMemMgrObjPool.IntMemTrimSpace | Source/Common/MemoryManagerObjects.h:246-276 | all back links are right when it runs, and it keeps everything up to the last item younger than dwMaxAge; no live item is touched |
| Database.MyStrCmpW | Source/Common/Database.cpp:97-103 | the comparison of a piece of text with a string is the lexicographic one, for texts without zeros |
| Database.ReadsInsideIff | Source/Common/Database.cpp:97-103 | the look behind the compared characters stays inside every string if and only if the piece of text has no zero |
| Database.CompareMeans | Source/Common/Database.cpp:1397-1410 | the comparison tells which text has the smaller character at the first difference, or ends there |
| Database.CompareTransitive | Source/Common/Database.cpp:1397-1410 | the order behind the sorted indexes is transitive |
| Database.KeyIsMonotone | Source/Common/Database.cpp:1361-1374 | the search comparator agrees with the sort order, with and without a namespace |
| Database.BSearch | Source/Common/Database.cpp:1034-1042 | finds a match exactly when there is one |
| Database.ParseNamespaceAndName | Source/Common/Database.cpp:1069-1139 | splits the text without losing a character except the return type, the colons and trailing spaces; E_INVALIDARG exactly when no name is left |
| Database.SplitIsUnique | Source/Common/Database.cpp:1069-1139 | there is one way to split a text |
| Database.FindNamespace | Source/Common/Database.cpp:1091-1128 | the two loops find the namespace exactly when there is one |
| Database.CharacterCodes | Source/Common/Database.cpp:1111-1116 | the character classes of a namespace, by codes |
| Database.NamespaceIsUnique | Source/Common/Database.cpp:1091-1128 | a text has one namespace at most |
| Database.TrailingSpaceNamesNothing | Source/Common/Database.cpp:1086-1091 | without a parenthesis, a text that ends in a space names nothing |
| Database.FirstOfName | Source/Common/Database.cpp:1043-1053 | the walk upwards ends at the first entry of the name |
| Database.FirstIsLeast | Source/Common/Database.cpp:1043-1053 | that is the one with the least namespace |
| Database.Lookup | Source/Common/Database.cpp:1032-1066 | after at most one retry the result is that of the staged rule |
| Database.FindObjectByClassAndName | Source/Common/Database.cpp:1007-1067 | an object is returned exactly when the staged rule has a match in the part of the index for the class |
| Database.ClassTable | Source/Common/Database.cpp:906-922 | the table partitions the sorted index by class |
| Database.ClassesAscend | Source/Common/Database.cpp:1412-1425 | the index by class follows the class numbers, with clsNull at the end, and names within a class |
| Database.Initialize | Source/Common/Database.cpp:889-922 | the indexes and the table of a loaded database |
| Database.IndexOfIsSorted | Source/Common/Database.cpp:1022-1031 | the part for a class is sorted by name and namespace |
| Database.IndexOfIsComplete | Source/Common/Database.cpp:1022-1031 | it holds exactly the objects of the class |
| Database.GetFunctionsCount | Source/Common/Database.cpp:326-334 | the number of function objects |
| Database.GetFunction | Source/Common/Database.cpp:336-357 | the loop over the six classes picks the entry of Pick |
| Database.PickIsOfClass | Source/Common/Database.cpp:336-357 | numbers below the count, and no others, pick an object of the six classes |
| Database.FunctionNumbersAreABijection | Source/Common/Database.cpp:336-357 | every object of the six classes has exactly one number below the count, and others have none |
| Database.FunctionNumbersAscend | Source/Common/Database.cpp:336-357 | function numbers follow the classes 7, 9, 10, 11, 12 and 13, and names and namespaces within a class |
| Base64.EntryValue | Source/Common/Base64.cpp:42-43 | the whole table in terms of codes |
| Base64.Decrypt | Source/Common/Base64.cpp:47-109 | for every input the writes stay inside (n / 4) * 3 + 16 bytes, and the result is the packed digits, three bytes for every four and k - 1 for the last k, or E_FAIL for three '=' in a row |
| Base64.ScanFailsIff | Source/Common/Base64.cpp:78-84 | a text is refused if and only if three '=' come with no character of the alphabet between them, before any zero |
| Base64.ScanReadsLetters | Source/Common/Base64.cpp:69-88 | otherwise the digits are those of the characters of the alphabet before the first zero |
| Base64.ScanIgnoresJunk | Source/Common/Base64.cpp:78-84 | characters outside the alphabet change nothing |
| Base64.PackDigits | Source/Common/Base64.cpp:88-105 | packing undoes the encoding of section 4 of RFC 4648 |
| Base64.PackIsBits | Source/Common/Base64.cpp:88-105 | bytes are the bits of the digits in their order; what is left over is dropped |
| Base64.RoundTrip | Source/Common/Base64.cpp:47-109 | decoding the encoding of any bytes gives them back, also with junk put in anywhere |
| Base64.EncodingIsClean | Source/Common/Base64.cpp:42-43 | an encoding has neither zeros nor junk of its own |

## Left out

- PoolHeap.PoolHeap.Realloc: excludes exactly the calls whose copy would leave the new block (PoolRuns.CopyFitsIff); these exist (PoolRuns.OverrunIsReachable), and what they overwrite is not modelled. The runs of PoolRuns exclude the same calls.
- ArrayList.ArrayList.SetSize: sizes are unbounded, so a size in bytes that does not fit a SIZE_T is not modelled.
- ArrayList.ArrayList.RemoveElementAt: finalizing the elements taken out is not modelled.
- ReadWriteLock.NoDeadlock: says that some thread can always proceed, not that each one does; the waiting is by polling and unfair.
- Database.Initialize: takes the two index arrays as arguments, with the standard contract of qsort_s; the bytes of the stored database, its modules and the table of fundamental types are not part of the model. The database is a value, as it does not change once loaded.
- Database.MyStrCmpW: a piece of text with a zero in it is excluded, since the look behind the compared characters can then leave the string (Database.ReadsInsideIff).
- Database.Lookup: excludes zeros in the text from its namespace on, for the same reason.
- Database.FindObjectByClassAndName: excludes zeros in the part of the text that can be a name, for the same reason.
- ParamString.GetStringCommon: the choice of nArrayMax by the type of the parameter, the access checks and the call without a place for the text are not modelled; a wide character can be read when both of its bytes can.
- ParamString.SetStringCommon: the address computed from nStart does not wrap around.
- BitField.GetField: the field is a fundamental of 8, 16, 32 or 64 bits; names, declarations and failures of allocation are not modelled. Enumerations and custom values are read and written whole.
- BigData.CNktDvTransportBigData.ProcessPacket: the bytes of a buffer past the message are zeros, where the allocator leaves them unspecified; a buffer is never larger than 2^47 bytes.
- BigData.RoundTrip: sending, waiting for the receiver and the size of a packet are a parameter, the largest fragment.
- ObjCache.TNktDvEngObjCache.Add: the bucket locks and virtual overriding are not modelled; buckets are sequences, whose array form is the module ArrayList.
- ParamsLayout.PostCallRestoreOriginalStackValues: every recorded address, ecx of an x86 fast-call result among them, is taken to be a word of accessible memory.
- Base64.Decrypt: the length of the text is known; wcslen for a length of -1 is not modelled.
- Concurrency in the pool: the mutex of each bin and that of the superchunks are not modelled, operations happen one after the other; bins and the superchunk manager exist from the start, where the code creates them at first use under a spin lock.
- The lists of the pool are sequences of addresses in PoolHeap; the links in the headers are the subject of DlList alone.
- The pool in 32 bit processes, where the header is smaller; Cleanup at process exit; the tracking of allocations for debugging.
- The width of the pool's tick counts: the times are whatever numbers GetTickCount returns; a time that went back forces a release, as in the code.
- The CAS loops NktInterlockedAnd, Or and Xor, the recursive variants of the locks and the event classes.
- Custom values, floating-point values, pointers and arrays in GetValueCommon and SetValueCommon.
- The lookup of functions of a module by name and the scan for fundamental types in Database.cpp.
- Everything that only wraps the operating system or COM.
