# Verified models of CGSF components

This project models the algorithmic core of the CGSF server framework in Dafny and proves what
that core is for. Each module follows one component, with its branches, constants and error
cases; loops and in-place updates are methods over arrays and objects, proved against
specification functions, and the protocols are step systems.

| files | component |
|---|---|
| `LockFreeQueue.dfy`, `LockFreeQueueRefinement.dfy`, `LockFreeQueueProgress.dfy` | the lock-free queue: one atomic step per shared read, CAS or CAS2, any number of threads; it refines a FIFO queue, and its runs are bounded by their calls |
| `RunLengthCode.dfy`, `RunLengthUpdate.dfy`, `RunLengthReading.dfy`, `CompressedBits.dfy` | the run-length form of a bit array: compress, decompress, read a bit, set a bit in place |
| `BitCount.dfy`, `BitArray.dfy` | the plain bit array with cached count, sampled rank and select index, bit insertion and deletion |
| `Memory.dfy` | the allocator and the block moves under both forms of the bit array |
| `BinaryText.dfy` | the SQLite binary-to-text encoder and the object that holds a value in either form |
| `Wildcard.dfy` | the wildcard matcher |
| `WatchTable.dfy`, `DirectoryWatch.dfy` | the directory watcher: its table, and the start and stop handshake with the completion port |
| `DirectoryWatchSafety.dfy`, `DirectoryWatchLiveness.dfy`, `DirectoryWatchFairness.dfy`, `DirectoryWatchHangs.dfy` | who still refers to a watch, which waits come to their end, and runs that go wrong |
| `RingBuffer.dfy`, `PacketFraming.dfy`, `PacketIOBuffer.dfy` | the byte ring, the packet framing and the receive loop |
| `Crc32.dfy`, `CrcTable.dfy`, `CrcAnswers.dfy` | CRC-32 (section 8 of RFC 1952), bit by bit and with tables, and known answers |
| `XorCipher.dfy`, `PacketCodec.dfy` | the encoding of packet data: compress, encrypt, checksum, and back |
| `PacketTransport.dfy` | encoding, framing, chunks, reading and decoding put together |
| `LinkedList.dfy` | the doubly linked list with recycled nodes |
| `Base64.dfy` | base64 text (section 4 of RFC 4648) |
| `Bytes.dfy`, `Optional.dfy` | bytes, bits and words; a value that may be missing |

`dafny verify dfyconfig.toml` checks all of it.

## What the proofs found

- **Setting a compressed bit, forward merge.** When a literal byte becomes 0xFF in front of a run
  of 0xFF, the code moves the run down by one byte and then increments a word one byte past the
  run's count (`BaseLayer/SFBitArray.cpp:453-458`). The model keeps the code as it is:
  `RunLengthUpdate.SetRightIffNoForwardMerge` proves that the update is right if and only if this
  branch is not taken, for every array and every bit, also when the increment carries.
  `RunLengthUpdate.MergesForward` is the guard of that branch, and `ForwardMergeExample` an array
  on which it fails. `RunLengthReading.DecodesRightIffNoForwardMerge` proves the same of the
  decoder on any bytes, also when a run is cut off at the end of the array and its count is read
  from the zero bytes behind it.
- **The encoder's comment has the signs the other way round.** `DatabaseLayer/CppSQLite3.cpp:1360`
  says that the offset is added when encoding; the code subtracts it, and the decoder adds it.
  The model follows the code.
- **Two calls that use a NULL block.** `clear` keeps the flag that says which form the object is in
  (`DatabaseLayer/CppSQLite3.cpp:275-284`), so `getBinary` after `getEncoded` and `clear` decodes
  from NULL (lines 222-227). `getEncoded` on an object that has no block and is in the binary form
  writes to NULL (lines 207-214). `BinaryText.Binary.GetBinary` and `GetEncoded` require what
  rules these out and no more: a block, or the form that is asked for.
- **`Find` looks at the node it starts from**, although the parameter is called `posAfter`
  (`BaseLayer/SFList.cpp:80-82`). The model follows the code.
- **A failed start can leave the worker with a deleted watch.** The error of a re-issued read goes
  into the field that `StartMonitor` returns (`BaseLayer/DirectoryChanges.cpp:1794`, 1442). If that
  read fails after the event of the start is signalled and before the field is returned, the start
  counts as failed and the watch is deleted (line 956), while the worker still has to report the
  error with it (line 1795). `DirectoryWatchSafety.StaleIffRaced` proves for every run that the
  worker holds such a watch exactly in this race, `NothingDangles` and `DeletedIsGone` that
  nothing else is ever left behind; `DirectoryWatchHangs.RaceHappens` is such a run. A new watch
  may have the address by then (`ReuseHappens`); it gets the report, but the worker deletes no
  watch whose own read has not failed (`DirectoryWatch.WorkerDeletesIdle`).
- **A stop can hang for ever.** A thread that stops a watch holds the lock of the table while it
  waits for the worker (`BaseLayer/DirectoryChanges.cpp:1062-1071`). If the worker's re-issued
  read fails in the meantime, for this watch or another one, the worker waits for the same lock
  (line 1132), and neither goes on. Also, if that read fails after the start has returned and
  before the watch is in the table (line 970), the watch is put there all the same, and a stop
  later waits for the packet of a read that does not exist. `DirectoryWatchHangs.HangHappens` and
  `LossHappens` are such runs. With the race above, after which nothing is claimed once the
  worker has used the deleted watch, these are the only ones: `DirectoryWatchLiveness.EndsIff`
  proves that in every other state of every run the wait can end, and
  `DirectoryWatchFairness.SignalledIffNotDoomed` that it does end in every fair run. No directory
  needs to change for that: it is the closing of the handle that brings the last packet.
- **Stopping one watch forgets all.** `assign(nIdx, NULL)` (`BaseLayer/DirectoryChanges.cpp:1009`,
  1074, 1112, 1142) does not clear one place of the vector but makes it `nIdx` NULLs. All watches
  leave the table, and the others run on and can never be stopped
  (`DirectoryWatch.StopForgetsAll`, `ForgottenForever`); the loop that stops all watches leaves
  the vector unless only its last place is in use (`WatchTable.Watcher.UnwatchAllDirectories`).
- **Unsigned size check.** For a packet size below twelve, the limit in
  `EngineLayer/SFPacketIOBuffer.cpp:32` wraps around and lets every data size through
  (`PacketFraming.LimitHoldsIff`). `PacketIOBuffer.Room` says what buffer the caller then has to
  provide.
- **Refused chunks are lost silently.** `EngineLayer/SFCGSFPacketProtocol.cpp:54-59` ignores the
  -1 of a full buffer and reports success. The stream of packets is whole if and only if no chunk
  was refused (`PacketFraming.NothingLost`); for chunks of a given size that is ensured by a
  block that holds one packet besides a chunk (`PacketFraming.ChunksFitIff`).
- **Room for decompression.** LZF is told the packet size as its room
  (`EngineLayer/SFPacket.cpp:163-168`), but the data area is shorter than the packet block by the
  header. Up to twelve bytes are written past the block before the result is refused; none if and
  only if the packet size is not more than the data area (`PacketCodec.StaysInsideIff`).
- **Room for compression.** For a packet size below twelve the room that LZF is told when encoding
  wraps around as well (`EngineLayer/SFPacket.cpp:80-95`). What is written then stays inside the data
  area, whatever the data and the compressor, only if the area is too small for data that is
  compressed at all (`PacketCodec.EncodingStaysInsideIff`).
- **A shorter bit array keeps what was computed from the longer one.** `SetLength` leaves the
  cached count, the index and the bytes past the new end alone (`BaseLayer/SFBitArray.cpp:176-190`).
  All of that is right if and only if the bytes that were cut off are zero
  (`BitArray.BitArray.SetLength`).
- **Dead branches.** A short read after the bytes were counted is impossible
  (`EngineLayer/SFPacketIOBuffer.cpp:24-28`, 47-52 and 69-74); so are the fallback branches of the worker's switch
  (`DirectoryWatch.FallbacksAreDead`).
- **What can be decoded.** A packet that was compressed can be decoded exactly if its data and
  header fit the packet size; one that was not compressed, always (`PacketCodec.DecodeEncode`).
- **`Insert` takes the bit count for a byte count** when it makes the array longer
  (`BaseLayer/SFBitArray.cpp:767`); the bits are right all the same. An insertion of no set bits
  behind bit 0 of an empty array leaves one byte.

## Assumptions

- Queue: sequentially consistent memory; each node is given to `Add` at most once; counters are
  unbounded naturals.
- Directory watch: the completion port is a queue; closing the handle completes a pending read
  once; a read that could not be issued completes never; there is one worker.
- Decoding a run that is cut off: the bytes behind the array are zero, as the slack of its block is.
- `wildcmp` for every case folding that keeps the terminator apart from the characters.
- LZF is any pair of functions of which decompression, given room, undoes compression, and writes
  no more than the room it is told.


## Model

| member | source | states |
|---|---|---|
| LockFreeQueue.InitInv | BaseLayer/GPGLockFreeQueue.h:289-292 | after the constructor the shared state satisfies the invariant: one dummy node, head and tail on it, both counters zero |
| LockFreeQueue.CallAddKeepsInv | BaseLayer/GPGLockFreeQueue.h:295-296 | starting `Add` with a node that was never given before keeps the invariant; the node is private until it is linked |
| LockFreeQueue.CallRemoveKeepsInv | BaseLayer/GPGLockFreeQueue.h:328-330 | starting `Remove` keeps the invariant |
| LockFreeQueue.AddStepKeeps | BaseLayer/GPGLockFreeQueue.h:296-325 | every single read, CAS and CAS2 of `Add` keeps the shared and the thread's own invariant, although line 311 and line 319 read the tail again |
| LockFreeQueue.AddCasKeeps | BaseLayer/GPGLockFreeQueue.h:311 | a successful CAS on the null link appends the new node behind the last node, whatever the tail was when the counter was read |
| LockFreeQueue.RemStepKeeps | BaseLayer/GPGLockFreeQueue.h:328-371 | every single step of `Remove` keeps the shared and the thread's own invariant |
| LockFreeQueue.NullIsLast | BaseLayer/GPGLockFreeQueue.h:337-350 | a node whose link is null is the last node of the chain |
| LockFreeQueue.OwnershipKept | BaseLayer/GPGLockFreeQueue.h:295-372 | nodes in the queue, nodes on their way in and nodes handed out stay apart, whichever thread moves |
| LockFreeQueue.NextKeepsInv | BaseLayer/GPGLockFreeQueue.h:295-372 | every step of every thread keeps the invariant of the whole state |
| FifoSpec.FirstInFirstOut | BaseLayer/GPGLockFreeQueue.h:278-293 | over a whole run of the abstract queue, what left and what is still queued is what entered, in order |
| FifoSpec.ItemsOfCalls | BaseLayer/GPGLockFreeQueue.h:295-372 | over a whole run, the values that entered are those of the `Add` calls, but for calls that have not linked theirs yet, and those that left are the returned ones and those about to be |
| LockFreeQueueRefinement.AddStepRefines | BaseLayer/GPGLockFreeQueue.h:295-326 | the CAS at line 311 is the enqueue; every other step of `Add` leaves the abstract queue alone |
| LockFreeQueueRefinement.RemReadNextRefines | BaseLayer/GPGLockFreeQueue.h:337 | the read of the link is the moment at which an empty queue is seen |
| LockFreeQueueRefinement.RemCasRefines | BaseLayer/GPGLockFreeQueue.h:359-364 | the CAS2 at line 361 is the dequeue, and the value read before it is the abstract front |
| LockFreeQueueRefinement.RemStoreRefines | BaseLayer/GPGLockFreeQueue.h:367-371 | the value stored in the returned node is the one that was dequeued |
| LockFreeQueueRefinement.NextRefines | BaseLayer/GPGLockFreeQueue.h:295-372 | every step of any thread is a step of the abstract queue with the same call or return |
| LockFreeQueueRefinement.RunRefines | BaseLayer/GPGLockFreeQueue.h:295-372 | every interleaving of any number of calls shows its callers the events of a run of the abstract queue; `Remove` returns NULL only if the queue was empty at an instant inside the call |
| LockFreeQueueRefinement.RunIsFifo | BaseLayer/GPGLockFreeQueue.h:295-372 | over every run nothing is lost, duplicated or reordered: what left and what remains is what entered, in order, and that is what the calls brought and the returns took; every node that was handed back holds its value |
| LockFreeQueueRefinement.ReturnedNodeHolds | BaseLayer/GPGLockFreeQueue.h:367-371 | in every run: a node that was handed back holds the value it was handed back with, and keeps it |
| LockFreeQueueRefinement.Cas2NeverMisled | BaseLayer/GPGLockFreeQueue.h:319-361 | a CAS2 whose pointer and counter were read torn or are old fails; one that succeeds swings to the very next node |
| LockFreeQueueRefinement.TailNeverLags | BaseLayer/GPGLockFreeQueue.h:323-325 | in every reachable state the tail is the last node or the one before, and never behind the head |
| LockFreeQueueRefinement.ReturnedOnce | BaseLayer/GPGLockFreeQueue.h:328-371 | no two returns of a run hand out the same node |
| LockFreeQueueRefinement.AddMovesTail | BaseLayer/GPGLockFreeQueue.h:319-325 | when `Add` returns, the tail has moved on since its counter was read, to the new node if nobody else moved it |
| LockFreeQueueRefinement.RetryMeansProgress | BaseLayer/GPGLockFreeQueue.h:301-365 | a thread starts its loop again only if some CAS2 has succeeded since it read the counters |
| LockFreeQueueProgress.RetriesArePaid | BaseLayer/GPGLockFreeQueue.h:301-365 | over every run, the retries of a thread are covered by the two counters as it has read them |
| LockFreeQueueProgress.RetriesAreBounded | BaseLayer/GPGLockFreeQueue.h:301-365 | in every run, the retries of one thread are at most twice the `Add` calls of all of them |
| LockFreeQueueProgress.StepsAreBounded | BaseLayer/GPGLockFreeQueue.h:295-372 | lock freedom over whole runs: under every schedule, the steps of all threads are at most ten for each call and eighteen for each thread and each `Add` call |
| Bytes.SetBitAtSets | BaseLayer/SFBitArray.h:12 | setting a bit of zero-extended bytes changes exactly that bit |
| Bytes.BitExamples | BaseLayer/SFBitArray.h:11-14 | bit 0 is the lowest one |
| RunLengthCode.StoredExample | BaseLayer/SFBitArray.cpp:320-327 | a run of zeros, a literal and a run of 258 bytes 0xFF, byte by byte |
| RunLengthCode.StoredInjective | BaseLayer/SFBitArray.cpp:296-330 | a byte string is the run-length form of at most one list of literals and runs |
| RunLengthCode.ReadsPrefix | BaseLayer/SFBitArray.cpp:341-364 | reading the form from the front is deterministic, whatever follows |
| RunLengthCode.BumpNeverRight | BaseLayer/SFBitArray.cpp:453-458 | the count bumped one byte too far never reads as the intended bytes, with or without a carry |
| RunLengthUpdate.SetTokensSetsBit | BaseLayer/SFBitArray.cpp:370-491 | the intended list after setting a bit is well formed and stands for the plain bytes with that bit set |
| RunLengthUpdate.ChangedPart | BaseLayer/SFBitArray.cpp:389-490 | the update replaces the literal or run of the byte, and a run of 0xFF before it that can be longer if the byte is filled up, by the only list of literals and full runs for what they become |
| RunLengthUpdate.MergesForwardIff | BaseLayer/SFBitArray.cpp:446-458 | the forward merge is taken exactly if a literal is filled up, no run of 0xFF shorter than 65535 is before it, and one is after it |
| RunLengthUpdate.FilledBehindRun | BaseLayer/SFBitArray.cpp:446-452 | a literal that is filled up behind a run of 0xFF with any count below 65535 is set right |
| RunLengthUpdate.SetRightIffNoForwardMerge | BaseLayer/SFBitArray.cpp:370-491 | setting a clear bit in the compressed bytes gives the form of the array with that bit set if and only if the forward-merge branch is not taken |
| RunLengthReading.DecodedStored | BaseLayer/SFBitArray.cpp:341-364 | what stores a list of literals and runs is decoded to what they stand for, whatever follows |
| RunLengthReading.DecodedBumpNeverRight | BaseLayer/SFBitArray.cpp:453-458 | the decoder does not read the count bumped one byte too far as the intended bytes either, also when a run is cut off at the end of the array |
| RunLengthReading.DecodesRightIffNoForwardMerge | BaseLayer/SFBitArray.cpp:332-368 | after setting a clear bit the decoder reads the array with that bit set, if and only if the forward-merge branch is not taken |
| RunLengthUpdate.ReadsOneWay | BaseLayer/SFBitArray.cpp:341-364 | stored bytes are read as at most one array of bytes |
| RunLengthUpdate.ForwardMergeExample | BaseLayer/SFBitArray.cpp:453-458 | a concrete array on which that branch turns two bytes into 257 |
| Memory.AllocPtr | BaseLayer/SFBitArray.cpp:10-20 | the whole usable block is zero |
| Memory.ReAllocPtr | BaseLayer/SFBitArray.cpp:22-40 | old contents kept, everything gained is zero |
| CompressedBits.CompressedBits.Compress | BaseLayer/SFBitArray.cpp:296-330 | the buffer becomes the form of the bytes without their trailing zeros, for every input, with runs over 65535 and buffer growth; no run could be longer, so the form is the only one of its kind; there is no buffer if no bytes are left |
| RunLengthCode.MaximalIsUnique | BaseLayer/SFBitArray.cpp:320-327 | of all lists of literals and runs for the same bytes, one has no run that could be longer |
| CompressedBits.TrimKeepsBits | BaseLayer/SFBitArray.cpp:299-300 | dropping trailing zero bytes changes no bit |
| CompressedBits.CompressedBits.Decompress | BaseLayer/SFBitArray.cpp:332-368 | the buffer becomes exactly the bytes the form stands for, zero behind them; with a length limit, those before the first literal or run that starts at or past it |
| CompressedBits.CompressedBits.GetAt | BaseLayer/SFBitArray.cpp:493-516 | bit n of the bytes the form stands for, false past the end |
| CompressedBits.CompressedBits.SetAt | BaseLayer/SFBitArray.cpp:370-491 | false iff the bit was set, and then nothing changes; else the buffer is what the update above describes, in every branch, with zero slack |
| CompressedBits.CompressedBits.SetInZeroRun | BaseLayer/SFBitArray.cpp:389-434 | the split, shrink and replace cases of a zero run |
| CompressedBits.CompressedBits.SetInLiteralAt | BaseLayer/SFBitArray.cpp:441-467 | the literal byte cases: plain, merged into the run before, merged into the run after, new run |
| CompressedBits.CompressedBits.AppendBit | BaseLayer/SFBitArray.cpp:472-490 | a bit past the end: zero runs, then one literal byte |
| BitCount.RankInByte | BaseLayer/SFBitArray.cpp:99-121 | the ones of a byte are counted right |
| BitCount.SelectAndRankInverse | BaseLayer/SFBitArray.cpp:529-582 | position of the i-th one and number of ones up to a position are inverse on set bits |
| BitCount.RankExample | BaseLayer/SFBitArray.cpp:529-582 | the ranks and the ones of the byte 5 |
| BitCount.OneIsUnique | BaseLayer/SFBitArray.cpp:529-551 | there is only one i-th one |
| BitArray.SampleOf | BaseLayer/SFBitArray.cpp:536-542 | the sample before the i-th one is in the table, for any segment size |
| BitArray.SameCaches | BaseLayer/SFBitArray.cpp:99-174 | counts and samples depend on the bits only, so zero bytes at the end do not matter |
| BitArray.SampleNext | BaseLayer/SFBitArray.cpp:163-173 | one more one keeps the table right |
| BitArray.BitArray.SetModified | BaseLayer/SFBitArray.cpp:732-739 | both caches are dropped |
| BitArray.BitArray.GetAt | BaseLayer/SFBitArray.h:93-100 | bit n, false past the end |
| BitArray.BitArray.SetLength | BaseLayer/SFBitArray.cpp:176-190 | longer by zero bits, nothing else changes; shorter, the object stays valid exactly if the bytes cut off are zero; no bytes give everything up |
| BitArray.BitArray.FreeBuffer | BaseLayer/SFBitArray.cpp:87-97 | no bytes and no caches |
| BitArray.BitArray.SetAt | BaseLayer/SFBitArray.h:101-115 | exactly bit n becomes one; the array grows if it must; caches stay right |
| BitArray.BitArray.ResetAt | BaseLayer/SFBitArray.h:116-121 | exactly bit n becomes zero |
| BitArray.BitArray.XOrAt | BaseLayer/SFBitArray.h:122-128 | exactly bit n is inverted |
| BitArray.BitArray.SetRange | BaseLayer/SFBitArray.cpp:212-219 | exactly the bits of the range become one |
| BitArray.BitArray.ResetRange | BaseLayer/SFBitArray.cpp:221-228 | exactly the bits of the range become zero |
| BitArray.BitArray.ResetOthers | BaseLayer/SFBitArray.cpp:230-237 | exactly the bits set in the other array, which may be the same, become zero |
| BitArray.BitArray.XOrRange | BaseLayer/SFBitArray.cpp:239-246 | exactly the bits of the range are inverted |
| BitArray.BitArray.GetCount | BaseLayer/SFBitArray.cpp:99-121 | the population count, from a cache that is -1 or right |
| BitArray.BitArray.Index | BaseLayer/SFBitArray.cpp:145-174 | the sample table of the plain bytes, of at most one entry more than whole segments, and the count |
| BitArray.BitArray.GetIndexBit | BaseLayer/SFBitArray.cpp:529-551 | the position of the i-th one, -1 exactly when there is none |
| BitArray.BitArray.GetBitIndex | BaseLayer/SFBitArray.cpp:553-582 | the number of ones up to and including a position, less one |
| BitArray.BitArray.FindSample | BaseLayer/SFBitArray.cpp:560-572 | the last sample at or before the position, or the one before that: the search misses it by at most one |
| BitArray.BitArray.CountFrom | BaseLayer/SFBitArray.cpp:574-581 | counting on from any such sample gives the same result |
| BitArray.BitArray.Delete | BaseLayer/SFBitArray.cpp:741-761 | the slice is gone and the later bits follow, for zero-extended bits; the bytes that are left are those of the remaining bits |
| BitArray.BitArray.Insert | BaseLayer/SFBitArray.cpp:763-778 | the copies stand after the given bit and the later bits follow; the array has as many bytes as it should have bits |
| BitArray.BitArray.InsertThenDelete | BaseLayer/SFBitArray.cpp:741-778 | deleting what was inserted restores every bit |
| BinaryText.EscapesAreThreeCounts | DatabaseLayer/CppSQLite3.cpp:1423-1426 | the escapes an offset needs are three entries of the histogram |
| BinaryText.TotalAtMostThree | DatabaseLayer/CppSQLite3.cpp:1396-1407 | over all offsets each byte is escaped at most three times |
| BinaryText.CheapestOffset | DatabaseLayer/CppSQLite3.cpp:1396-1407 | pigeonhole: the cheapest of the 254 allowed offsets escapes at most 3 bytes in 254 |
| BinaryText.BestOffset | DatabaseLayer/CppSQLite3.cpp:1422-1432 | an allowed offset is always found, and it is the cheapest |
| BinaryText.EncodeBinary | DatabaseLayer/CppSQLite3.cpp:1412-1452 | the text holds no 0x00 and no quote before its terminator, and with it fits in 2 + 257n/254 bytes; its first byte is the first of the cheapest offsets, and `x` for no bytes |
| BinaryText.EscapeExample | DatabaseLayer/CppSQLite3.cpp:1435-1449 | the three escapes, a plain byte and one that wraps around, byte by byte |
| BinaryText.BadEscape | DatabaseLayer/CppSQLite3.cpp:1469-1479 | an escape other than 1, 2 or 3 is refused |
| BinaryText.DecodeEncode | DatabaseLayer/CppSQLite3.cpp:1464-1484 | decoding an encoding gives back the bytes, for every offset |
| BinaryText.WrittenFits | DatabaseLayer/CppSQLite3.cpp:1464-1484 | decoding writes fewer bytes than it reads, so a block as long as the text is enough |
| BinaryText.DecodeBinary | DatabaseLayer/CppSQLite3.cpp:1464-1484 | decodes any terminated text into a block with room for what is written, -1 exactly for a bad escape; input and output may be the same block |
| BinaryText.Binary.AllocBuffer | DatabaseLayer/CppSQLite3.cpp:250-272 | a block large enough for either form |
| BinaryText.Binary.SetBinary | DatabaseLayer/CppSQLite3.cpp:179-183 | the object holds the given bytes, which may not lie in its own block: that is freed before the copy |
| BinaryText.Binary.GetEncoded | DatabaseLayer/CppSQLite3.cpp:207-219 | the text of the value, made in place, within the block; NULL for an object without a block that was in that form |
| BinaryText.Binary.GetBinary | DatabaseLayer/CppSQLite3.cpp:222-240 | the value again, decoded in place; decoding cannot fail |
| BinaryText.Binary.GetBinaryLength | DatabaseLayer/CppSQLite3.cpp:243-247 | the length of the value, zero without a block |
| BinaryText.Binary.Clear | DatabaseLayer/CppSQLite3.cpp:275-284 | no block |
| Wildcard.WildCmp | BaseLayer/DelayedDirectoryChangeHandler.cpp:49-93 | ends, and is true exactly if the pattern matches as `*` and `?` are defined |
| Wildcard.GlobOfFirst | BaseLayer/DelayedDirectoryChangeHandler.cpp:58-93 | what the characters 42, 63 and any other one mean in front of a pattern |
| Wildcard.FoldedAlike | BaseLayer/DelayedDirectoryChangeHandler.cpp:60-77 | strings whose characters fold alike match the same patterns |
| Wildcard.MeetStar | BaseLayer/DelayedDirectoryChangeHandler.cpp:66-74 | a later star makes the earlier one irrelevant |
| Wildcard.MeetMismatch | BaseLayer/DelayedDirectoryChangeHandler.cpp:81-85 | going back to the last star only loses no match |
| Wildcard.Commit | BaseLayer/DelayedDirectoryChangeHandler.cpp:64-86 | the star-free part between two stars may be matched at its first place |
| WatchTable.AddedLists | BaseLayer/DirectoryChanges.cpp:1156-1192 | a watch that is added is listed, and all others stay as they were |
| WatchTable.AddedAt | BaseLayer/DirectoryChanges.cpp:1156-1192 | it is in the first empty place, or behind all others if there is none |
| WatchTable.RemovedForgetsAll | BaseLayer/DirectoryChanges.cpp:1074-1077 | taking one watch out with `assign` leaves none in the table |
| WatchTable.OthersStayIff | BaseLayer/DirectoryChanges.cpp:1074-1077 | the others stay listed if and only if there are none |
| WatchTable.Watcher.AddToWatchInfo | BaseLayer/DirectoryChanges.cpp:1156-1192 | the loop puts the watch into the first empty place, or behind all |
| WatchTable.Watcher.GetDirWatchInfo | BaseLayer/DirectoryChanges.cpp:1220-1238 | the first place of the watch, exactly if it is listed |
| WatchTable.Watcher.Remove | BaseLayer/DirectoryChanges.cpp:1132-1149 | takes a listed watch out; what is left of the table are empty places |
| WatchTable.Watcher.UnwatchAllDirectories | BaseLayer/DirectoryChanges.cpp:997-1014 | the loop stays inside the table if and only if all places but the last are empty; then it stops what is listed, else it stops one watch and reads past the end |
| DirectoryWatch.CallerKeeps | BaseLayer/DirectoryChanges.cpp:1403-1493 | every step of the thread that starts and stops a watch keeps the token count and the state of the handshake |
| DirectoryWatch.WorkerKeeps | BaseLayer/DirectoryChanges.cpp:1654-1822 | so does every step of the worker, in every branch of the switch, whichever reads fail and whatever they leave in the error field |
| DirectoryWatch.SwitchKeeps | BaseLayer/DirectoryChanges.cpp:1654-1759 | the branches of the switch, one by one |
| DirectoryWatch.ReissueKeeps | BaseLayer/DirectoryChanges.cpp:1760-1818 | the read that is issued again may succeed or fail; a failure stores its error in the field that a start returns |
| DirectoryWatch.ReportKeeps | BaseLayer/DirectoryChanges.cpp:1794-1795 | so does the report of the error, a step of its own |
| DirectoryWatch.UnwatchKeeps | BaseLayer/DirectoryChanges.cpp:1120-1152 | after a failure the watch is deleted if it is in the table; if it is not, it goes on without a read |
| DirectoryWatch.LockKeeps | BaseLayer/DirectoryChanges.cpp:1062-1077 | exactly the thread that stops a watch holds the lock of the table; only watches that run or are being stopped are listed |
| DirectoryWatch.OthersKeep | BaseLayer/DirectoryChanges.cpp:1562-1822 | a step of one watch leaves all others, their packets and the work on them alone |
| DirectoryWatch.CreateKeeps | BaseLayer/DirectoryChanges.cpp:951-973 | a new watch may take the address of a deleted one, even while the worker still holds it |
| DirectoryWatch.RunKeepsInv | BaseLayer/DirectoryChanges.cpp:1403-1822 | the invariant holds in every state of every run |
| DirectoryWatchSafety.StaleIffRaced | BaseLayer/DirectoryChanges.cpp:1440-1442 | in every run: the worker holds a watch whose start was reported as failed, or the address of a deleted one, if and only if a re-issued read of the watch failed between the signal and the return of its start, the start has returned since, and the worker is not done with the failure |
| DirectoryWatchSafety.NothingDangles | BaseLayer/DirectoryChanges.cpp:1721-1741 | in every run: once shutdown is signalled, or the start has failed, no completion of the watch is queued or pending, and the worker is elsewhere if and only if that race is not on |
| DirectoryWatchSafety.DeletedIsGone | BaseLayer/DirectoryChanges.cpp:1332-1360 | in every run: no thread touches a deleted watch, but the worker in that race, which reports with it or looks for it in the table |
| DirectoryWatchSafety.MisuseIsRaced | BaseLayer/DirectoryChanges.cpp:1794-1799 | in every run: the worker reports an error with a deleted watch, or with a new one at its address, only in that race |
| DirectoryWatchSafety.StartFailsIff | BaseLayer/DirectoryChanges.cpp:1660-1681 | in every run: a start returns an error if and only if the first read of the watch failed, or a re-issued one did before the return |
| DirectoryWatchSafety.ReadsComplete | BaseLayer/DirectoryChanges.cpp:1660-1768 | in every run: the reads of a watch that were issued are those that completed and the one that is pending |
| DirectoryWatch.HandleIsOpenWhenReading | BaseLayer/DirectoryChanges.cpp:1758-1768 | a read is issued only on an open handle, which is closed when the caller sees the stop |
| DirectoryWatch.FallbacksAreDead | BaseLayer/DirectoryChanges.cpp:1712-1821 | the else branches of the two stop states and the default branch are never taken |
| DirectoryWatch.WorkerDeletesIdle | BaseLayer/DirectoryChanges.cpp:1120-1152 | the worker deletes a watch only while no caller is at work on it, and only if a read of that very watch has failed; then the watch is out of the table |
| DirectoryWatch.StopForgetsAll | BaseLayer/DirectoryChanges.cpp:1071-1076 | after a stop no watch is in the table |
| DirectoryWatch.ForgottenForever | BaseLayer/DirectoryChanges.cpp:1065-1071 | a running watch that is not in the table is never stopped, in any continuation |
| DirectoryWatch.TwoDequeuesAreEnough | BaseLayer/DirectoryChanges.cpp:1690-1741 | after the stop packet is posted the watch is dequeued at most twice, and then the event is signalled |
| DirectoryWatch.RankFalls | BaseLayer/DirectoryChanges.cpp:1654-1822 | each step of a watch that is waited for brings the signal nearer |
| DirectoryWatch.WaitIsBounded | BaseLayer/DirectoryChanges.cpp:1425-1437 | a watch that is waited for takes at most 26 more steps, under every schedule |
| DirectoryWatchLiveness.DoomedForever | BaseLayer/DirectoryChanges.cpp:1132-1149 | if the worker hangs at the lock of the table or is about to use a watch that is gone, or the read of the watch is lost, the wait never ends, whatever happens, unless the worker does use such a watch |
| DirectoryWatchLiveness.DoomBegins | BaseLayer/DirectoryChanges.cpp:1760-1799 | a wait is doomed only by a re-issued read that fails, or by a stop or a deletion that overtakes the worker just after |
| DirectoryWatchLiveness.WaitEnds | BaseLayer/DirectoryChanges.cpp:1425-1437 | every other wait is ended by a schedule that is constructed, of steps of the worker, of the thread that holds the lock, and of reads whose handle is closed; no directory changes in it, and no watch that is gone is used |
| DirectoryWatchLiveness.EndsIff | BaseLayer/DirectoryChanges.cpp:1403-1822 | in every run: a start or stop that is waited for can still end, without the use of a watch that is gone, if and only if it is not doomed; and then it can although no directory changes |
| DirectoryWatchLiveness.NoDeadlock | BaseLayer/DirectoryChanges.cpp:1495-1550 | in every run: while a wait is not doomed, the worker, the thread that holds the lock or, once its handle is closed, the read can take a step that brings the wait nearer to its end |
| DirectoryWatchLiveness.NotFarther | BaseLayer/DirectoryChanges.cpp:1403-1822 | no step of any thread puts the end of a wait farther away, unless it dooms it |
| DirectoryWatchFairness.SignalledIffNotDoomed | BaseLayer/DirectoryChanges.cpp:1403-1822 | in every run that goes on for ever, is fair to the worker, the stopping thread and the read on a closed handle, and uses no watch that is gone: a start or stop that is waited for is signalled if and only if it does not become doomed; directories may stay quiet for ever |
| DirectoryWatchLiveness.NoFailureNoDoom | BaseLayer/DirectoryChanges.cpp:1760-1818 | as long as no re-issued read fails, no wait is ever doomed |
| DirectoryWatchHangs.HangHappens | BaseLayer/DirectoryChanges.cpp:1132-1149 | a run in which the thread that stops a watch and the worker wait for each other |
| DirectoryWatchHangs.RaceHappens | BaseLayer/DirectoryChanges.cpp:1440-1442 | a run in which the start returns the error of a re-issued read and the watch is deleted, while the worker is about to report with it |
| DirectoryWatchHangs.ReuseHappens | BaseLayer/DirectoryChanges.cpp:1794-1799 | a run in which a new watch then has the address the worker holds |
| DirectoryWatchHangs.LossHappens | BaseLayer/DirectoryChanges.cpp:951-970 | a run in which a stop waits for the packet of a read that was lost before the watch was in the table |
| RingBuffer.RingPatch | EngineLayer/SFIOBuffer.cpp:45-54 | a chunk copied behind the last byte is appended, around the end of the block |
| RingBuffer.RingSplit | EngineLayer/SFIOBuffer.cpp:82-86 | moving the head takes the oldest bytes off |
| RingBuffer.IOBuffer.AllocIOBuf | EngineLayer/SFIOBuffer.cpp:112-133 | an empty, zeroed buffer of the wanted size, or of 16384 bytes if none is named; a larger one is refused and nothing changes |
| RingBuffer.IOBuffer.FreeIOBuf | EngineLayer/SFIOBuffer.cpp:135-149 | no block, no bytes |
| RingBuffer.IOBuffer.InitIOBuf | EngineLayer/SFIOBuffer.cpp:16-25 | empty, and every byte of the block is zero |
| RingBuffer.IOBuffer.AppendData | EngineLayer/SFIOBuffer.cpp:27-61 | appends, or refuses with -1 and changes nothing when the block would be full |
| RingBuffer.IOBuffer.GetData | EngineLayer/SFIOBuffer.cpp:63-91 | the oldest bytes move to the caller |
| RingBuffer.IOBuffer.RemoveData | EngineLayer/SFIOBuffer.cpp:93-110 | the oldest bytes are dropped |
| RingBuffer.IOBuffer.SetHead | EngineLayer/SFIOBuffer.h:14 | head set and bytes recounted |
| PacketIOBuffer.GetPacket | EngineLayer/SFPacketIOBuffer.cpp:12-55 | a whole packet is taken off exactly if the bytes begin with one; otherwise the bytes and the data buffer are unchanged, and the error says why; the fields of the header are those at bytes 0, 2, 6 and 10, the data those from byte 12 on |
| PacketIOBuffer.RoomIsLeast | EngineLayer/SFPacketIOBuffer.cpp:30-45 | the data buffer needs room for exactly what a header can say and the size check lets through |
| PacketIOBuffer.GetHeader | EngineLayer/SFPacketIOBuffer.cpp:57-79 | the header at bytes 0, 2, 6 and 10, without taking anything off |
| PacketIOBuffer.OnReceive | EngineLayer/SFCGSFPacketProtocol.cpp:33-59 | one chunk appended, then packets read until none is whole (the loop around these two calls is in `SFPacketProtocol.h`): every whole packet is handed out in order; a refused chunk is lost; after a receive without an error less than one packet is left |
| PacketFraming.HeaderRoundTrip | EngineLayer/SFStructure.h:4-30 | a header is read back from its twelve packed bytes |
| PacketFraming.HeaderOfBytes | EngineLayer/SFStructure.h:4-30 | any twelve bytes are the header they are read as |
| PacketFraming.HeaderLayout | EngineLayer/SFStructure.h:6-11 | the identifier is in bytes 0 and 1, the option in 2 to 5, the checksum in 6 to 9, the data size in 10 and 11, lowest byte first |
| PacketFraming.HeaderLiesInItsBytes | EngineLayer/SFStructure.h:6-11 | the bytes of a header are those in which it lies so |
| PacketFraming.ReadBehindHeader | EngineLayer/SFPacketIOBuffer.cpp:17-45 | twelve bytes in which a header lies so, the data it announces and anything behind: the read yields that header and data |
| PacketFraming.ReadExample | EngineLayer/SFPacketIOBuffer.cpp:17-45 | a packet byte by byte, with another value in every field |
| PacketFraming.ReadIffFramed | EngineLayer/SFPacketIOBuffer.cpp:17-45 | bytes are read as a packet exactly if they begin with its frame and it is not too long |
| PacketFraming.PartOfFrame | EngineLayer/SFPacketIOBuffer.cpp:19-43 | a frame that is not complete is waited for |
| PacketFraming.ReadStable | EngineLayer/SFPacketIOBuffer.cpp:30-45 | more bytes behind change nothing |
| PacketFraming.CutAnywhere | EngineLayer/SFPacketIOBuffer.cpp:12-55 | how a stream of any bytes is cut in two makes no difference; after a packet that is too long nothing is read |
| PacketFraming.ChunksDoNotMatter | EngineLayer/SFPacketIOBuffer.cpp:12-55 | any number of receives amounts to one receive of everything |
| PacketFraming.DrainWire | EngineLayer/SFPacketIOBuffer.cpp:12-55 | sent packets come out as they were sent, and the beginning of the next one stays |
| PacketFraming.WireInjective | EngineLayer/SFPacketIOBuffer.cpp:12-55 | the bytes determine the packets |
| PacketFraming.LimitHoldsIff | EngineLayer/SFPacketIOBuffer.cpp:32-37 | no packet longer than the packet size is let through, if and only if that size covers a header |
| PacketFraming.LittleIsLeft | EngineLayer/SFPacketIOBuffer.cpp:12-55 | what is left after all whole packets were read is less than one packet of the largest size |
| PacketFraming.ChunksFitIff | EngineLayer/SFIOBuffer.cpp:27-43 | chunks of n bytes always fit what is left, if and only if the block holds the packet size and n bytes |
| PacketFraming.NothingLost | EngineLayer/SFCGSFPacketProtocol.cpp:54-59 | every byte that arrived is in a packet handed out or still in the buffer, in order, if and only if no append was refused |
| PacketFraming.RefusedIsMissed | EngineLayer/SFCGSFPacketProtocol.cpp:54-59 | a refused chunk is missed for good, whatever comes later |
| PacketFraming.DeliveredInOrder | EngineLayer/SFPacketIOBuffer.cpp:12-55 | for any chunks and any interleaving of successful appends with reads, what was handed out is a prefix of what was sent, and all of it in the end |
| Crc32.StepLinear | BaseLayer/External/7zcrc.cpp:19-20 | a step of the register is linear |
| Crc32.FeedInjective | BaseLayer/SFFastCRC.cpp:49-63 | registers that differ stay different on the same data |
| Crc32.ByteFeeds | BaseLayer/External/7zcrc.cpp:15-22 | eight steps on a register with a byte added are the eight bits of the byte fed one by one |
| Crc32.BurstsAreDetected | EngineLayer/SFCheckSum.cpp:132-157 | messages of one length that differ only within 32 consecutive bits have different checksums |
| Crc32.FourBytesAreDetected | EngineLayer/SFCheckSum.cpp:132-157 | so do messages that differ only within four bytes in a row, or in one |
| CrcTable.Mask | BaseLayer/External/7zcrc.cpp:20 | the masked form of the step is the step |
| CrcTable.TableStep | BaseLayer/SFFastCRC.cpp:15 | one table step is eight steps of the register |
| CrcTable.CrcGenerateTable | BaseLayer/External/7zcrc.cpp:12-29 | all eight tables are right |
| CrcTable.SliceMeaning | BaseLayer/External/7zcrc.cpp:24-28 | entry b of table k is the register after byte b and k zero bytes |
| CrcTable.CalcCrc32 | EngineLayer/SFCheckSum.cpp:97-100 | one byte of the checksum |
| CrcTable.FromBuffer | EngineLayer/SFCheckSum.cpp:132-157 | the bytewise loop computes the bitwise checksum |
| CrcTable.GetSimpleCRC | BaseLayer/SFFastCRC.cpp:42-68 | so does the loop unrolled eight times; without a buffer it fails and changes nothing |
| CrcAnswers.CrcOfZero | EngineLayer/SFCheckSum.cpp:132-157 | the checksum of one zero byte is 0xD202EF8D |
| CrcAnswers.CrcCheckValue | EngineLayer/SFCheckSum.cpp:132-157 | the check value of CRC-32, 0xCBF43926 for the digits from 1 to 9 |
| CrcAnswers.TableEntries | BaseLayer/SFFastCRC.cpp:7-14 | ten entries of the printed table, among them those of all single bits |
| CrcAnswers.TableIsLinear | BaseLayer/SFFastCRC.cpp:7-14 | which determine the others |
| XorCipher.WordIsBytes | BaseLayer/SFEncryptionXOR.cpp:24 | the key on a word is its bytes on the bytes |
| XorCipher.Encrypt | BaseLayer/SFEncryptionXOR.cpp:17-41 | every byte of a whole word changes by its key byte; up to three bytes at the end, and all behind, do not |
| XorCipher.CryptTwice | BaseLayer/SFEncryptionXOR.cpp:17-41 | twice gives the bytes back |
| XorCipher.CryptExample | BaseLayer/SFEncryptionXOR.cpp:4-41 | the bytes of the key, lowest first, on four zero bytes; two bytes behind them stay |
| PacketCodec.SqueezedIff | EngineLayer/SFConstant.h:21 | data is compressed from 1024 bytes on |
| PacketCodec.DecodeEncode | EngineLayer/SFPacket.cpp:62-189 | decoding restores the data for every option combination, exactly if it fits the packet size or was not compressed |
| PacketCodec.EncodedWithAll | EngineLayer/SFPacket.cpp:84-126 | with all options: compressed, then encrypted, and the checksum is that of what is sent |
| PacketCodec.DecodedWithAll | EngineLayer/SFPacket.cpp:137-181 | with all options: the checksum is compared first, then the data is decrypted, then decompressed |
| PacketCodec.EncodedIsIntact | EngineLayer/SFPacket.cpp:111-124 | the checksum taken last always agrees on arrival |
| PacketCodec.EncodedFits | EngineLayer/SFPacket.cpp:80-95 | what is sent fits the packet size if the data did |
| PacketCodec.DamageIsRefused | EngineLayer/SFPacket.cpp:137-148 | data damaged within 32 bits is refused |
| PacketCodec.Packet.Encode | EngineLayer/SFPacket.cpp:62-131 | encodes in place, once, for every packet size; when it fails nothing has changed; the bytes behind the data do not change; tells how far compression wrote past the data area |
| PacketCodec.EncodingStaysInsideIff | EngineLayer/SFPacket.cpp:80-95 | encoding stays inside the data area, whatever data lies in it, if and only if the unsigned data limit does, or the area is too small for data that is compressed |
| PacketCodec.StaysInsideIff | EngineLayer/SFPacket.cpp:160-175 | decoding stays inside the data area, whatever arrives, if and only if the packet size is not more than that area |
| PacketCodec.OverrunBound | EngineLayer/SFPacket.cpp:160-181 | for a packet size up to the whole block, at most twelve bytes are written past it, and none if decoding succeeds |
| PacketCodec.Packet.GetDataCRC | EngineLayer/SFPacket.cpp:191-202 | the table loop computes CRC-32 of the data |
| PacketCodec.Packet.Decode | EngineLayer/SFPacket.cpp:133-189 | decodes in place, with the error of the stage that failed, and tells how far decompression wrote past the data area; the bytes behind the data are unchanged, or zero after a decompression |
| PacketCodec.Packet.CheckDataCRC | EngineLayer/SFPacket.cpp:204-226 | accepts data with the checksum in the header, and refuses whatever arrives in place of data with that checksum and differs from it only within 32 consecutive bits |
| PacketCodec.Packet.ResetDataBuffer | EngineLayer/SFPacket.cpp:57-60 | zero bytes |
| PacketTransport.OptionThereAndBack | EngineLayer/SFStructure.h:18-20 | the option bits are read back, whatever the other bits of the field are |
| PacketTransport.OptionExamples | EngineLayer/SFConstant.h:24-26 | 1 for the checksum, 2 for compression, 4 for encryption |
| PacketTransport.WireThereAndBack | EngineLayer/SFStructure.h:4-30 | a header and the data carry all that decoding needs |
| PacketTransport.MessageArrives | EngineLayer/SFPacket.cpp:62-189 | a packet made from a message may be sent, and is decoded to the data and the identifier it was made from |
| PacketTransport.EndToEnd | EngineLayer/SFCGSFPacketProtocol.cpp:33-79 | messages encoded with any options, cut into any chunks and read at any times come out unchanged and in order, and all of them in the end |
| LinkedList.BridgedIsChain | BaseLayer/SFList.cpp:45-48 | bridging a node over leaves a chain of the others, forward and backward |
| LinkedList.List.NewNode | BaseLayer/SFList.cpp:26-41 | the first spare node, or a new one, in neither chain |
| LinkedList.List.DelNode | BaseLayer/SFList.cpp:43-52 | the node leaves the list and becomes the first spare one |
| LinkedList.List.AddTail | BaseLayer/SFList.cpp:212-229 | one more element behind; recycled nodes first, no node lost |
| LinkedList.List.AddHead | BaseLayer/SFList.cpp:231-248 | one more element in front |
| LinkedList.List.RemoveTail | BaseLayer/SFList.cpp:250-267 | the last element, NULL if there is none |
| LinkedList.List.RemoveHead | BaseLayer/SFList.cpp:269-284 | the first element, NULL if there is none |
| LinkedList.List.RemoveAt | BaseLayer/SFList.cpp:136-151 | the element of a node of the list |
| LinkedList.List.RemoveAll | BaseLayer/SFList.cpp:200-210 | empty, and every node is kept as a spare one |
| LinkedList.List.Find | BaseLayer/SFList.cpp:80-93 | the first node with the object, from the given one on |
| Base64.FindIsPlace | BaseLayer/External/base64.cpp:33-42 | the alphabet test is membership, and the search finds the place |
| Base64.TripleOfSextets | BaseLayer/External/base64.cpp:55-58 | three bytes come back from four letters, whatever stands for missing letters |
| Base64.DecodeEncode | BaseLayer/External/base64.cpp:44-129 | decoding an encoding gives back every byte string |
| Base64.TextShape | BaseLayer/External/base64.cpp:66-82 | four characters for every three bytes begun: letters, then at most two `=` |
| Base64.AlphabetPlaces | BaseLayer/External/base64.cpp:33-36 | the 64 letters by their character codes, `+` and `/` last |
| Base64.GroupDigits | BaseLayer/External/base64.cpp:55-58 | every three bytes read as one number are four letters read as digits, the highest first |
| Base64.LastDigits | BaseLayer/External/base64.cpp:66-82 | one byte left over is two letters with four zero bits behind it, two are three with two |
| Base64.Encode | BaseLayer/External/base64.cpp:44-86 | the loop that collects three bytes writes that text |
| Base64.Decode | BaseLayer/External/base64.cpp:88-129 | the loop that collects four letters reads it, up to the first other character |

## Left out

- Node reuse in the queue, counter wrap-around at 2^32, the assembly bodies of CAS and CAS2, and `LockFreeStack` and `LockFreeFreeList`.
- `SFBitArray`: `GetRangeCount`, `CopyRange`, `Range2Array`, `IsRangeEmpty`, `DecompressLength`, the operators, the modified flag, and 32-bit overflow of bit numbers.
- BitArray.BitArray.CountOnes: the 256-entry table of bit counts is represented by the function that counts the ones of a byte.
- CrcTable.IsTable: the two printed 256-entry tables are represented by the property that entry b is eight register steps from b; the generated table is proved to have it, and `CrcAnswers` compares ten entries.
- `CrcUpdateT8` and zlib's `crc32` are library code; the packet's checksum is taken to be CRC-32.
- CompressedBits.CompressedBits.SetAt: after a forward merge only the bytes are described, as later calls have no meaningful form to work on.
- `CppSQLite3Binary::setEncoded` on texts the encoder did not make, failing allocations, and all calls into SQLite.
- The watcher's message pump and its filters, the thread's start and exit, and what a callback into the program does.
- DirectoryWatch.ReportKeeps: a report with a deleted watch changes nothing in the model; what it does to freed memory is not described.
- DirectoryWatch.LockKeeps: between two stops of `UnwatchAllDirectories` the lock of the table is taken as free; the names and handlers by which a watch is looked up are not modelled.
- WatchTable.Watcher.UnwatchAllDirectories: what the code does after it has left the vector is not described.
- PacketIOBuffer.OnReceive: the branch for a missing packet is not modelled, as the pool makes a new packet when it is empty (`BaseLayer/SFObjectPool.h:61-65`); nor is what the logic layer does with a packet.
- PacketCodec.Packet.Encode: how far a compression writes past the data area is stated, but not what happens after that; the temporary buffer on the stack is not modelled.
- PacketCodec.Packet.Decode: how far a decompression writes past the data area is stated, but not what it overwrites there.
- `SFPacket`'s stream operators and `Clone`.
- `SFList::InsertAfter` and `InsertBefore` (they link the new node to itself), and the functions that count nodes and step over them.
- `BigNum`, `SFScheduler`, the Protobuf, Avro, JSON and MsgPack protocols, SMTP, ODBC, registry, INI files, crash dumps, UI and dispatch.
