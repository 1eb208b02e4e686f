# Asgard: a verified model

Asgard moves a file from one process to another. Jane reads the file chunk by chunk into a block
of shared memory and sends a framed descriptor of it (number, offset, length, MD5 digest in hex)
over a socket. Thor checks the digest against the shared block, appends the block to his output
file, scans it for a pattern and replies. Loki may write to the shared memory, and connections may
drop. In the model Loki acts between the steps of the two programs, not inside Thor's step from
check to reply.

This Dafny project models the logic of both programs and the libraries they share, and proves what
holds of every input and of every run.

| file | models |
|---|---|
| `CTypes.dfy` | 32-bit `int`, bytes |
| `RadixSort.dfy` | `radix_sort.c`: counting-sort theory, the sort, `move_array`, `binarySearch` |
| `SlotPools.dfy`, `SlotRuns.dfy` | the two pool arrays of `asgard.c` as a function of the set of free slots; whole runs of calls |
| `SlotBlocks.dfy` | exactly which requests get slots in sequence, and which releases are right |
| `Asgard.dfy` | the allocator with its arrays, updated in place |
| `Util.dfy` | C strings; hex digests of `util.c` |
| `SpinLock.dfy` | `lock` and `unlock` for any number of threads |
| `Queue.dfy` | the ring buffer of `q.c` |
| `Substring.dfy` | the resumable pattern scanner of `substring.c` |
| `Descriptors.dfy` | printing of descriptors and `parse_data` |
| `Frames.dfy` | markers, and the receive loops of both programs |
| `Protocol.dfy` | both programs, the segment and the connection as one step relation |
| `ProtocolSteps.dfy` | what each step does to any state, with the sizes and texts written out |
| `ProtocolSafety.dfy` | the invariant of all runs, with drops, losses and tampering, and what follows from it |
| `ProtocolDelivery.dfy` | runs without tampering; runs on a connection that holds; runs after a drop |
| `ProtocolRefusals.dfy` | what becomes of a chunk Thor has refused |
| `ProtocolFinish.dfy` | exactly when a transfer can still be completed |
| `Programs.dfy` | `read_input_file`, Jane's loop body and Thor's `server_socket_send`, in place |
| `Transfer.dfy` | `client_loop` and `server_loop` joined over an unbroken connection, in place |
| `Session.dfy` | the same objects taken through any run of the step relation, faults included |
| `IniParser.dfy` | `read_line`, `add_pair` and `ini_parse` of `ini_parser.c` |

Imperative C functions are methods over arrays and objects whose postconditions equate the new
state with a specification function of the old one. The lemmas about those functions then say
what the source promises. The MD5 function is a parameter of type `seq<byte> -> Digest`; nothing
is assumed about collisions, so results about Thor's check speak of equal digests.

The protocol is a relation between worlds. A world holds Jane's variables, the segment, the frames
under way in both directions, everything Thor has written, and his scanner. An action is a
connection, a fill of the block, a send that succeeds or fails (with the frame sent or not), a
reply received or not, one round of Thor, his death and restart, the loss of a frame, or any overwriting
of the segment.
A run is any list of actions; every theorem about runs holds for all of them. `Crashed` and
`thorStopped` stand for failed assertions and accesses outside the segment.

Functions that only compute carry no row below: `RadixSort.Compact` (`move_array`), `SlotPools.Alloc`
and `SlotPools.Dealloc` (`shm_alloc`, `shm_dealloc`), `Substring.Step`, `Queue.AddTo`,
`Queue.RemoveFrom`, `Descriptors.Parse`, `Frames.Look` and `Frames.Receive` (the receive loops),
`Protocol.FillBlock`, `Protocol.SendPacket`, `Protocol.TakeReply` (`client_loop`), `Protocol.Serve`
(`server_socket_send`), `IniParser.LineFrom` (`read_line`), `IniParser.Extend`. Each is tied to an
in-place method and to the lemmas in the table.

## Where the code differs from what is said of it

The model follows the code. These are the differences that matter, each with its theorems.

- Thor echoes the whole payload (`thor.c:197`) and Jane compares the echo with the digest alone
  (`jane.c:307`). The two never match, in any run (`ProtocolSafety.AnswersAreNotDigests`,
  `ProtocolSafety.NeverMatches`), so `failed` is never cleared.
- The comment at `jane.c:313` says a chunk Loki has changed is tried again. That happens only if the
  connection drops before Jane goes on from that chunk. A chunk she has read can still be written
  exactly when it is the last one read and a drop has happened, or she has yet to send its
  descriptor or to take the reply (`ProtocolRefusals.WritableIff`). After a refusal it is written
  only if the connection has dropped, before or after the refusal, while that chunk was the last one
  read (`ProtocolRefusals.RefusedWrittenOnlyAfterDrop`), which can happen; once Jane has taken the
  refusal on a connection that never dropped, it cannot (`ProtocolRefusals.RefusalDecides`).
  `ProtocolRefusals.FirstChunkLost` is a run with a refusal, up to each of the two points.
- `README.md:48-49` says that when Thor dies Jane waits, and once he is back she sends the remaining
  data. In every reachable state she can still do so exactly when she has noticed no drop, does not
  wait for something that is lost, and has a connection that leads to Thor or needs none any more
  (`ProtocolFinish.FinishableIff`). If Thor dies with her descriptor unread that is not so, though
  she has noticed nothing (`ProtocolFinish.ThorDiesOnce`). After a drop she has noticed she never
  reads again (`ProtocolSafety.DropIsFinal`), and Thor can be made to write the first chunk any
  number of times (`ProtocolDelivery.ResendsForever`).
- `asgard.h:15-16` guarantees sequential buffers. Nothing in `shm_alloc` looks at that. It holds of a
  request exactly when the slots from the lowest free one on, as many as asked for, are all free
  (`SlotBlocks.AllocSequentialIff`). After three requests for one slot and the release of the first
  it fails: a request for two returns slots 1 and 4 (`SlotBlocks.TwoAndThreeBusy`,
  `SlotBlocks.ScatteredBlock`). It holds in all runs in which all requests have one size, which is
  how Jane calls it (`SlotRuns.SameSizeAlloc`, `SlotRuns.SameSizeFree`, `SlotRuns.SameSizeRun`).
- The loop of `shm_dealloc` runs from the block's place to `num` (`asgard.c:71`), not over the slots
  of the block. It frees a block exactly when every slot of it lies below every other live slot
  (`SlotBlocks.DeallocFreesBlockIff`); the block of slots 1 and 4 above is torn apart, though its
  lowest slot is the lowest live one (`SlotBlocks.ScatteredBlockTornApart`). After a release each
  slot is in exactly one pool exactly when no more slots were named than were busy
  (`SlotBlocks.DeallocKeepsPartitionIff`). Both pools are in order, too, exactly when the loop has
  nothing to do, or ends at the last busy slot, or starts at the lowest one and does not go past the
  last (`SlotBlocks.DeallocStaysCanonicalIff`); a request for one slot, a request for two and the
  release of the second block put them out of order (`SlotBlocks.BlockInTheMiddle`,
  `SlotBlocks.MiddleBlockReleased`).
- `README.md:13-15` has `move_array` move all empty slots to the end. It moves the
  leading ones; that comes to the same exactly when the non-zero entries stand together
  (`RadixSort.CompactGathersIff`). In the run just named it is given an array in which they do not
  (`SlotBlocks.MiddleBlockReleased`).
- The pattern scanner does not look again at a byte that broke a match (`substring.c:52-54`), so it
  misses occurrences (`Substring.MissedOccurrence`); an occurrence is reported if and only if the
  scanner stands in state 0 where it begins (`Substring.RecordedIff`), and all are reported in all
  streams only for one-byte patterns (`Substring.FindsEverythingIff`).
- A configuration line without `=` is not skipped: its text is joined to the next key
  (`IniParser.StrayLineJoinsNext`). A comment takes its newline with it, so one that follows a value
  joins that value to the next line (`IniParser.CommentJoinsLines`).
- The check at `ini_parser.c:257` cannot fail: whether a configuration is accepted does not depend on
  `USE_BUFFERS` (`IniParser.UseBuffersUnchecked`). So `1 <= USE_BUFFERS <= BUFFERS` is an assumption
  here (`Protocol.Valid`), as is the range of `BUFFERS` that `ini_parser.c:208` enforces.

## Model

| member | source | states |
|---|---|---|
| CountingSort.SortSorts | radix_sort.c:39-41 | the reference order: the sorted form of any sequence is ascending and a permutation of it |
| CountingSort.SortedPermutationUnique | radix_sort.c:39-41 | two ascending permutations of each other are equal, so "sorted permutation" fixes the result completely |
| CountingSort.GatherPermutes | radix_sort.c:53-69 | grouping by digit keeps the multiset of values when every key is a digit |
| CountingSort.GatherIsStable | radix_sort.c:64-66 | for every digit, the elements with that digit stand in the grouped sequence in their input order |
| CountingSort.GatherSorts | radix_sort.c:53-72 | a stable pass by the next digit turns order by the lower digits into order by one digit more |
| RadixSort.ModSplit | radix_sort.c:56-72 | a value modulo ten times the weight is its digit at that weight and its value modulo the weight |
| RadixSort.DigitRefines | radix_sort.c:56-72 | ordering by digit and then by the lower digits is ordering modulo ten times the weight |
| RadixSort.WeightFitsIff | radix_sort.c:50-72 | the digit weight stays within a 32-bit int if and only if the largest value is below 10^9 |
| RadixSort.FindLargestNum | radix_sort.c:27-37 | the result bounds every element and is one of them, or is -1 for an array without larger values |
| RadixSort.CountDigits | radix_sort.c:53-56 | each bucket holds how many elements have that digit |
| RadixSort.PrefixSums | radix_sort.c:62-63 | each bucket then holds how many elements have that digit or a lower one |
| RadixSort.ScatterStep | radix_sort.c:65-66 | one backward write lands in bounds on a place not yet written, and keeps what is written in stable order |
| RadixSort.ScatterDone | radix_sort.c:65-66 | when the backward loop ends the buffer is the stable grouping by digit, every place written |
| RadixSort.Scatter | radix_sort.c:65-66 | the loop fills the buffer with the stable grouping of the array and leaves the array alone |
| RadixSort.DigitPass | radix_sort.c:53-69 | one pass leaves the array as its own stable grouping by the digit |
| RadixSort.PassSortsOneDigitMore | radix_sort.c:50-72 | a pass takes "a permutation sorted modulo the weight" to the same for ten times the weight |
| RadixSort.AllDigitsSorted | radix_sort.c:50 | once the weight exceeds the largest value, sorted modulo the weight is the full sort |
| RadixSort.RadixSort | radix_sort.c:41-77 | for every array of values from 0 to below 10^9 the array ends as the unique ascending permutation of itself, with all indexes in bounds and the weight within an int |
| RadixSort.TogetherGathers | radix_sort.c:90-109 | when the non-zero entries stand together, compaction leaves them in order and puts all zeros after them |
| RadixSort.CompactGathersIff | radix_sort.c:90-109 | compaction moves all zeros to the end if and only if the non-zero entries stand together |
| RadixSort.MoveArray | radix_sort.c:90-109 | in place, the leading zeros move to the end and everything else shifts down unchanged |
| RadixSort.BinarySearch | radix_sort.c:111-140 | the first index holding the value, or -1 exactly when none does |
| SlotPools.ListedIs | asgard.c:8-10 | the listing of a set of slots is strictly ascending, has exactly its members and its size |
| SlotPools.EnoughIff | asgard.c:38-43 | the loop over the first entries finds no zero exactly when that many slots are free |
| SlotPools.AllocTakesLowest | asgard.c:33-59 | a successful allocation returns the lowest free slot's offset and moves exactly the lowest slots from free to busy, both arrays canonical again |
| SlotPools.AllocCanonical | asgard.c:33-59 | from any canonical pools an allocation succeeds exactly when enough slots are free, and changes nothing when it fails |
| SlotPools.BackFilledCanon | asgard.c:70-79 | what the release loop wrote, sorted and compacted, is the canonical array of the enlarged free set |
| SlotPools.DeallocLowest | asgard.c:61-83 | releasing from the lowest live slot moves exactly that many lowest busy slots to the free set, both arrays canonical again |
| SlotPools.DeallocMoves | asgard.c:61-83 | releasing from any live slot frees just the busy entries from its place up to place `num`; past the lowest place they stay zeros between the live slots, and from place `num` on nothing changes |
| SlotPools.SlotOfIs | asgard.c:64 | the slot of an offset is the 1024-byte block it lies in, rounded towards zero |
| SlotPools.CompactIs | radix_sort.c:90-109 | leading zeros go to the end; what follows the first other entry is kept as it is, zeros between included |
| SlotPools.AllocAny | asgard.c:33-59 | on pools in any state the allocation succeeds exactly when the first entries asked for are slots, returns the first one's offset, moves just those, and leaves busy_pool ascending |
| SlotPools.DeallocWhen | asgard.c:61-75 | on pools in any state the release goes through exactly when the slot is busy and no more slots are named than there are |
| SlotPools.DeallocAny | asgard.c:61-83 | on pools in any state the release moves the entries from the slot's first place up to place `num`, and leaves free_pool ascending |
| SlotPools.DeallocNone | asgard.c:71 | from a place not below `num` it moves none |
| SlotRuns.CanonInjective | asgard.c:8-10 | a canonical array determines its set of slots |
| SlotBlocks.AllocSequentialIff | asgard.h:15-19 | for every request that succeeds, the slots taken are consecutive, as the header guarantees, if and only if the slots from the lowest free one on, as many as asked for, are all free |
| SlotBlocks.TwoAndThreeBusy | asgard.c:33-83 | three requests for one slot and the release of the first leave exactly slots 2 and 3 busy |
| SlotBlocks.ScatteredBlock | asgard.h:15-16 | from there a request for two returns slots 1 and 4, and no two consecutive slots |
| SlotBlocks.DeallocFreesBlockIff | asgard.c:61-83 | for every live block, consecutive or not, a release at its lowest slot and of its size frees it, no more and no less, if and only if all its slots lie below all other live slots |
| SlotBlocks.ScatteredBlockTornApart | asgard.c:70-75 | releasing the block of slots 1 and 4 frees slots 1 and 2 instead, although slot 1 is the lowest live one |
| SlotBlocks.DeallocToTheEnd | asgard.c:70-83 | naming as many slots as are busy, or more, from any place frees the busy ones from there on; the surplus overwrites the highest free entries, and those slots are lost |
| SlotBlocks.DeallocKeepsPartitionIff | asgard.c:61-83 | after a release from any live slot each slot is in exactly one pool, in whatever order, if and only if no more slots were named than were busy |
| SlotBlocks.DeallocStaysCanonicalIff | asgard.c:61-83 | for a release from any live slot both pools are ascending without gaps and together all slots if and only if the loop does nothing, or ends at the last busy slot, or starts at the lowest one and does not pass the last |
| SlotBlocks.BlockInTheMiddle | asgard.c:33-59 | a request for one slot and one for two put the second block at offset 2048, slots 2 and 3 |
| SlotBlocks.MiddleBlockReleased | radix_sort.c:90-109 | releasing that block, by its own offset and size, frees slot 2 alone and leaves a zero between live slots that move_array does not move; every slot is still in one pool |
| SlotBlocks.AllocThenFreeRestoresIff | asgard.c:33-83 | freeing what was just allocated restores both arrays element for element if and only if it lies below every slot already live |
| SlotRuns.DoRefines | asgard.c:33-83 | every permitted call on the arrays is the corresponding change of the free set |
| SlotRuns.RunRefines | asgard.c:33-83 | so is every permitted run of calls |
| SlotRuns.FreshIsCanonical | asgard.c:22-31 | the arrays set up at the start are those of the set of all slots |
| SlotRuns.RunKeepsPartition | asgard.c:33-83 | after any run of allocations and front releases of any sizes both arrays are an ascending positive prefix followed by zeros, and each slot is in exactly one |
| SlotRuns.BackFillOverwritesZeros | asgard.c:47-73 | in canonical pools the writes from the end of an array fall on zeros only |
| SlotRuns.SameSizeAlloc | asgard.c:33-59 | with one request size, an allocation succeeds exactly when a whole aligned group is free and then returns the lowest one, consecutive slots; if it fails no group of that size is free anywhere |
| SlotRuns.SameSizeFree | asgard.c:61-83 | with one request size, releasing the lowest live block frees exactly its consecutive slots and no other block's |
| SlotRuns.SameSizeRun | asgard.c:33-83 | every state reached with one request size has its free slots in whole groups, so the two rows above cover every call |
| SlotRuns.OneBlockCycle | jane.c:269-288 | with no block live the allocation is at offset 1024, and giving it back restores the pools element for element |
| Asgard.Allocator.constructor | asgard.c:22-31 | `buffers` slots numbered from 1, all free, from the segment size arithmetic of asgard.c:88 and asgard.c:145 |
| Asgard.Allocator.ShmAlloc | asgard.c:33-59 | offset and both arrays afterwards are those of the specification, in place, inside the arrays and int range |
| Asgard.Allocator.ShmDealloc | asgard.c:61-83 | for every count and offset both arrays afterwards are those of the specification; false, with nothing changed, exactly where the assertion stops the program or the loop would leave the arrays |
| Asgard.Allocator.TakeFromFree | asgard.c:46-49 | the first entries of the free array are zeroed and stand reversed at the end of the busy array |
| Asgard.Allocator.GiveToFree | asgard.c:71-75 | the entries from the block's place to `num` are cleared and stand reversed in the free array; nothing happens if the place is not below `num` |
| Util.HexRoundTrip | util.c:70-126 | reading hex digits back by nibbles undoes toDec, for every byte string |
| Util.HexInjective | util.c:111-126 | two byte strings print alike exactly when they are equal |
| Util.HexIs | util.c:31-68 | each byte prints as its two hexadecimal digits, the higher first, in capitals |
| Util.ToDec | util.c:111-126 | the buffer ends as two digits per byte, a terminator and its old tail, within the asserted bound |
| Util.ReadableHash | util.c:139-148 | the destination stands for the hex form of the digest of the bytes given |
| Util.DoesStringIntact | util.c:151-156 | true exactly when the buffer stands for the hex form of the digest of the bytes |
| SpinLock.ActKeepsExclusive | util.c:185-193 | no atomic access of any thread breaks "at most one holder, and the word is 1 exactly when there is one" |
| SpinLock.MutualExclusion | util.c:185-193 | in every interleaving of any number of threads at most one is between lock and unlock, and the word is 1 exactly when one is |
| SpinLock.NoDeadlock | util.c:185-193 | in every state of every interleaving each waiting thread is at most three accesses from holding the lock |
| SpinLock.EachCanEnter | util.c:185-188 | in every state of every interleaving each thread outside is at most three steps from holding the lock, the first being the holder's release |
| SpinLock.ReleaseFrees | util.c:190-193 | unlock leaves the word 0 and the holder outside, and moves nobody else |
| SpinLock.WordChangesHands | util.c:185-193 | the lock is taken only by a test-and-set that finds 0, given up only by its holder's release, and nobody moves another thread |
| SpinLock.NoRetryBeforeZero | util.c:187 | after a failed test-and-set a thread tests again only after reading 0 |
| Queue.AddRefines | q.c:42-53 | q_add appends to the FIFO contents, or changes nothing and says so exactly when the queue is full; head stays tail plus size modulo capacity |
| Queue.RemoveRefines | q.c:63-73 | q_remove gives out the oldest element and leaves the rest in order, or nothing when empty |
| Queue.Run | q.c:42-73 | over every interleaving of adds and removes, what was added is what was removed followed by the contents |
| Queue.RingQueue.constructor | q.c:26-33 | a new queue of positive capacity is empty |
| Queue.RingQueue.Full | q.c:35-40 | true exactly when the contents have the capacity's length |
| Queue.RingQueue.IsEmpty | q.c:55-61 | true exactly when there are no contents |
| Queue.RingQueue.Add | q.c:42-53 | the contents grow by the new element at the end, or stay when full |
| Queue.RingQueue.Remove | q.c:63-73 | the oldest element comes out, or nothing |
| Substring.ScanConcat | substring.c:37-56 | scanning two stretches one after the other is scanning them joined, also across the limit |
| Substring.ChunkingIrrelevant | substring.c:37-56 | any list of chunks leaves count, locations, state, total and done as one call on the whole |
| Substring.ScanIsSound | substring.c:37-56 | the last `state` bytes are the start of the pattern, every reported location is an occurrence, and reports are at least a pattern apart |
| Substring.RecordedIff | substring.c:40-55 | an occurrence is reported if and only if the scanner is in state 0 and below the limit where it begins |
| Substring.CertainlyRecorded | substring.c:40-55 | below the limit an occurrence is reported at the start of the stream, after a byte not in the pattern, and right after a reported one |
| Substring.MissedOccurrence | substring.c:52-54 | aab occurs in aaab and is not reported |
| Substring.HiddenByFirstByte | substring.c:52-54 | for any longer pattern a stray copy of its first byte hides the occurrence behind it |
| Substring.FindsEverythingIff | substring.c:37-56 | every occurrence below the limit is reported in every stream if and only if the pattern is one byte |
| Substring.LimitIs | substring.c:40-50 | scanning stops with the byte that completes the 1024th reported occurrence, and counts every byte until then |
| Substring.Scanner.constructor | substring.c:27-35 | the scanner starts in state 0 with nothing found |
| Substring.Scanner.Compute | substring.c:37-56 | all fields afterwards are those of scanning the bytes from where the scanner stood |
| Descriptors.AtoiRoundTrip | jane.c:209 | atoi reads back every int that %d printed |
| Descriptors.PrintIsDecimal | jane.c:209 | what %d prints is an optional minus sign and digits, with no superfluous zero or sign |
| Descriptors.PrintIsUnique | jane.c:209 | of all texts of that form it is the only one that reads as the number |
| Descriptors.DescriptorText | jane.c:206-209 | a descriptor is the decimals of number, offset and length and the digest, in this order, between commas |
| Descriptors.AtoiReads | thor.c:137-164 | atoi reads past blanks, one sign and leading zeros, and stops at the first other character |
| Descriptors.AtoiOfNoNumber | thor.c:137-164 | without a digit atoi gives 0 |
| Descriptors.IntShort | thor.c:128 | a 32-bit int takes at most eleven characters, inside the 24-byte buffer |
| Descriptors.ParseRoundTrip | thor.c:122-172 | parsing undoes printing for every positive number and offset, non-negative length and non-empty digest, and needs nothing the buffers do not have |
| Descriptors.ParseFields | thor.c:122-172 | of any three fields and a rest parse_data makes the numbers they read as, exactly when each fits the digit buffer, number and offset are positive, the length is not negative and the digest is not empty; otherwise it stops |
| Descriptors.ParseNeedsThreeCommas | thor.c:126-158 | with fewer than three commas it stops |
| Descriptors.ParsePrintedIff | thor.c:122-172 | of all descriptors of ints it accepts just those with positive number and offset, a length not negative and a digest |
| Descriptors.PayloadInjective | jane.c:206-209 | different descriptors print differently |
| Descriptors.CopyField | thor.c:130-135 | the digit buffer stands for just the field copied, whatever an earlier field left in it |
| Descriptors.ParseData | thor.c:122-172 | for every string the C routine computes its parse, or stops where an assertion fails or it would run past the string or the digit buffer |
| Frames.StrStr | thor.c:233 | the first place where the needle stands, none exactly when it stands nowhere |
| Frames.EndOnlyAtEnd | util.h:12-14 | in a frame the end marker stands only at the end, or inside the payload |
| Frames.DoneOnlyInPayload | thor.c:227-228 | a frame is never mistaken for +DONE+ unless the payload holds that text |
| Frames.PartGoesOn | thor.c:221-233 | on any proper prefix of a frame the loop goes on |
| Frames.FrameReceived | thor.c:212-239 | however a frame is cut into non-empty pieces, the loop stops with the piece that brings its last byte and returns exactly the payload |
| Frames.PayloadRecoveredIff | thor.c:212-239 | however a frame is cut, in either program's loop, its payload comes back if and only if it holds no NUL, no end marker and, for the server, no +DONE+, and the frame is shorter than the buffer |
| Frames.NoMessageWithoutBracket | thor.c:227-228 | pieces without a bracket, such as +DONE+, are never taken for a message |
| Frames.LookGivesUp | thor.c:227-228 | a full buffer without a terminator is searched past its end; the server gives up on text with +DONE+ in it |
| Frames.LookGoesOn | thor.c:233 | otherwise the loop goes on exactly while one of the markers is missing |
| Frames.LookTakes | thor.c:234-237 | with both in, the message is what stands between the first of each, whatever stands before or after |
| Frames.LookStopsAtNul | thor.c:227-237 | what comes after a NUL is not seen |
| Frames.ReceiveIs | thor.c:221-233 | for any pieces at all the call ends with the first after which the text is decisive, with what that text makes of it, or fails when a recv brings nothing |
| Frames.MessageNeedsBothMarkers | jane.c:225-236 | a message is returned only when both markers have arrived |
| Frames.DroppedInsideFrame | jane.c:228-231 | a connection that drops inside a frame is a failure in both loops, however much has arrived |
| Frames.ReceiveLoop | thor.c:212-239 | both receive loops, on a zeroed 1024-byte buffer, return what the specification says and stop at the same piece, a full buffer without a terminator included |
| Frames.MoveToFront | thor.c:236-237 | the overlapping copy leaves the payload at the front of the buffer |
| Protocol.ChunksAre | jane.c:149 | for a read size of useBuffers * 1024 - 1 there are file length over size, rounded up, chunks, and chunk i is the bytes from i times the size on |
| ProtocolSteps.EveryConfiguration | asgard.c:140-147 | every configuration within the checked ranges, over any segment, is one the theorems speak of |
| ProtocolSteps.BlockChanged | jane.c:270-288 | in any state the old block is released, if there is one, and as much allocated again |
| ProtocolSteps.BlockFilled | jane.c:289-297 | in any state: after a drop nothing is read; at end of file the loop ends; otherwise one read of all but one byte of the block, a terminator, the digest, and the rest of the segment untouched |
| ProtocolSteps.DescriptorSent | jane.c:298 | in any state one descriptor goes out with number 1, the block's offset, the length and the digest in decimal text |
| ProtocolSteps.DescriptorServed | thor.c:189-208 | in any state the digest alone decides whether Thor writes, searches and echoes, or writes nothing and sends the refusal text |
| ProtocolSteps.ReplyTaken | jane.c:307-317 | in any state a reply equal to the digest clears failed, and nothing else does |
| ProtocolSteps.DropIs | jane.c:298-301 | a failed send sets failed and sends Jane back to connecting, with the descriptor on its way or not |
| ProtocolSteps.NoReplyIs | jane.c:303-306 | so does a reply that fails to come |
| ProtocolSteps.FaultsCanHappen | jane.c:298-306 | each fault can happen in exactly the states in which the system can suffer it |
| ProtocolSteps.DeathIs | thor.c:28-38 | when Thor dies and comes back his file stays, and his search, his connections and what he had not read are gone |
| ProtocolSafety.AnswersAreNotDigests | thor.c:197 | neither an echoed descriptor nor the refusal is a hex digest |
| ProtocolSafety.StepKeepsInv | jane.c:264-323 | every action, faults and tampering included, keeps the invariant of both programs, the segment and the frames under way |
| ProtocolSafety.RunKeepsInv | jane.c:264-323 | so does every run |
| ProtocolSafety.FillIs | jane.c:269-297 | from every state the invariant allows, the block is at offset 1024 again; the next chunk is read and hashed, or kept for resending after a drop, or the loop ends at end of file |
| ProtocolSafety.ServeFinds | thor.c:189-200 | each descriptor Thor reads is that of the chunk read last, at a positive offset and inside Jane's live block and the segment |
| ProtocolSafety.AppendsAreGenuine | thor.c:195-198 | in every run, chunk numbers never decrease and each block written has the digest of the file's chunk of that number; without a drop none is written twice |
| ProtocolSafety.NothingStops | thor.c:122-210 | no run trips an assertion or leaves the segment in either program, and the search result is the scan of what Thor has written since he last started |
| ProtocolSafety.DescriptorsAreSafe | jane.c:287-305 | while Thor holds an unread descriptor it names Jane's live block within the segment with the length and digest of her last read, and Jane does not write there |
| ProtocolSafety.DropIsFinal | jane.c:298-306 | once Jane has noticed a dropped connection she reads no further chunk and never finishes, whatever happens |
| ProtocolFinish.FinishableIff | jane.c:264-323 | in every reachable state some continuation completes the transfer if and only if Jane has noticed no drop, waits for nothing that is lost, and has a live connection or needs none any more |
| ProtocolFinish.SmoothFinishes | jane.c:264-323 | where it can be completed, it is completed without further faults in exactly the number of steps left |
| ProtocolFinish.ThorDiesOnce | jane.c:298-306 | if Thor dies once with Jane's first descriptor unread and comes back, she has noticed no drop and can never finish |
| ProtocolSafety.MessagesComeThrough | jane.c:197-243 | descriptor, echo and refusal fit the 1024-byte buffers and come through both receive loops however they are cut |
| ProtocolDelivery.DeliveredInOrder | jane.c:264-323 | with drops, losses and restarts of Thor but no tampering, append number i is chunk i until the last chunk read, which alone may repeat; when Jane is done Thor's file is the input file with one append per chunk |
| ProtocolDelivery.SmoothStep | jane.c:264-323 | on a connection that holds, every step of the two programs takes exactly one from the number of steps left |
| ProtocolDelivery.ConnectedRun | jane.c:264-323 | while the connection holds, whatever Loki does, the programs can always go on until Jane is done, which takes exactly four steps per chunk and three more, and then each chunk has been appended or refused once |
| ProtocolDelivery.FaultFreeRun | jane.c:264-323 | a fault-free run takes at most four steps per chunk and three more, can always go on until Jane is done, and then the output is the file, in as many appends as reads of useBuffers * 1024 - 1 bytes take, and the search result its scan, for every file and every use_buffers |
| ProtocolDelivery.ResendsForever | jane.c:298-306 | for every non-empty file and every n there is a run with one failed send after which Thor has written the first chunk n times and nothing else |
| ProtocolRefusals.WritableIff | jane.c:269-319 | in every reachable state a chunk already read can still be written by some continuation if and only if it is the last one read and either a drop has happened or its descriptor or reply is still awaited |
| ProtocolRefusals.RefusedWrittenOnlyAfterDrop | jane.c:303-317 | a chunk is written after its refusal only where the connection has dropped, before or after the refusal, while it was the last chunk read |
| ProtocolRefusals.RefusalDecides | jane.c:313-317 | right after a refusal some continuation writes the chunk; once Jane has taken the refusal without a drop none does |
| ProtocolRefusals.FirstChunkLost | thor.c:204-208 | a run in which a block with another digest is refused, and from which the file's first chunk is lost as soon as Jane takes the refusal |
| JaneProgram.Client.ReadInputFile | jane.c:140-160 | false, with the segment untouched, exactly at end of file; else the next bytes and a terminator stand at the buffer, the rest of the segment unchanged |
| JaneProgram.Client.NextBlock | jane.c:270-288 | the real allocator goes through the release and allocation the step relation describes |
| JaneProgram.Client.Fill | jane.c:269-297 | fields, pool arrays and segment end as the Fill step of the relation says |
| JaneProgram.Client.ClientSocketSend | jane.c:197-214 | the text sent is that of the step relation, between the two markers, written out |
| ThorProgram.Server.Answer | thor.c:195-208 | the block is appended and scanned exactly when its digest is the one announced; the reply is the frame of the whole payload, or of the refusal |
| ThorProgram.Server.ServerSocketSend | thor.c:181-210 | output file, scanner and reply end as the Serve step of the relation says |
| TransferProgram.Transfer | jane.c:253-326 | both programs together, with the real allocator, segment, scanner, buffers and each frame cut in its own way, end, with Thor's file equal to Jane's and his search result the scan of it, when the connection holds |
| SessionProgram.Session | jane.c:253-326 | for every possible run of the step relation, with connections dropped and made again, frames lost, Thor restarted and the segment tampered with, the programs' own objects, segment and frames end as the run says |
| SessionProgram.ServeStep | thor.c:270-291 | in every such run Thor's round, from the frame he receives to the frame he sends, is the Serve step |
| SessionProgram.JaneStep | jane.c:264-323 | in every such run each of Jane's steps on her fields, the pools, the segment and the frames is that of the relation |
| TransferProgram.Goodbye | jane.c:322-324 | the text that ends a transfer, cut in any way, makes Thor's receive loop return without a message |
| TransferProgram.Round | thor.c:270-291 | one descriptor sent, answered and taken leaves both programs and the segment as three steps of the relation do |
| IniParser.ReadWord | ini_parser.c:79-91 | reading a key or value adds its characters without spaces, tabs and carriage returns |
| IniParser.SqueezeIs | ini_parser.c:79 | just spaces, tabs and carriage returns are dropped, wherever they stand, and the rest stays in order |
| IniParser.BlanksDoNotMatter | ini_parser.c:79 | a space, tab or carriage return put anywhere outside a section name, in any line of a well-formed file, leaves what is read unchanged |
| IniParser.CrlfDoesNotMatter | ini_parser.c:79 | a file with CRLF line ends is read as the same file with plain ones |
| IniParser.ReadName | ini_parser.c:55-64 | a section name is taken verbatim up to the closing bracket |
| IniParser.CommentJoinsLines | ini_parser.c:71-78 | a comment is skipped with its newline, so a value before it goes on in the next line |
| IniParser.StrayLineJoinsNext | ini_parser.c:80 | a line without = puts its text in front of the next line's |
| IniParser.LastEqualsCounts | ini_parser.c:81-86 | of several = in a line the last one counts |
| IniParser.HeadingAfterText | ini_parser.c:55-64 | a bracket anywhere begins a section name, to which the text before it belongs |
| IniParser.KeyTooLong | ini_parser.c:47-91 | a key of 1024 characters or more goes past the buffer |
| IniParser.NameTooLong | ini_parser.c:57-64 | so does such a section name |
| IniParser.FileEnds | ini_parser.c:54-70 | the end of the file, a byte 255 or a NUL ends the reading; only the first two leave the pair begun |
| IniParser.CommentEnds | ini_parser.c:71-78 | in a comment the end of the file ends everything, and a NUL the comment |
| IniParser.NameEnds | ini_parser.c:57-64 | in a section name the end of the file ends everything, and a NUL the name |
| IniParser.PairNeedsSection | ini_parser.c:154 | a pair before any section stops the program |
| IniParser.ParseRendered | ini_parser.c:131-158 | every well-formed file, with any spacing, blank lines, comments and with or without a last newline, parses to what its lines mean, or stops exactly when they do not fit |
| IniParser.BuildEntries | ini_parser.c:123-158 | the entries of a list of sections build that list exactly when there are at most ten sections of at most ten pairs; otherwise the program stops |
| IniParser.RoundTrip | ini_parser.c:131-158 | every layout of a list of sections parses back to that list, or stops when it does not fit |
| IniParser.ParsePrintedIff | ini_parser.c:131-158 | parsing undoes printing if and only if the list fits ten sections of ten pairs |
| IniParser.Parse | ini_parser.c:147-156 | whatever the file says, never more sections or pairs come back than the arrays hold |
| IniParser.UseBuffersUnchecked | ini_parser.c:253-268 | a configuration is accepted exactly when the buffer counts agree and are positive, DO_SEARCH is 0 or 1, and the ports agree and are not 0; USE_BUFFERS does not matter |
| IniParser.SectionRecord.AddPair | ini_parser.c:123-129 | the pair is added at the end, or the program stops at the eleventh, the others unchanged |
| IniParser.Reader.ReadLine | ini_parser.c:40-94 | line returned and text left to read are those of the specification, with a store or copy outside the buffer made explicit |
| IniParser.IniParse | ini_parser.c:131-158 | the records built, each in arrays of its own, hold the sections of the specification, for every file |

## Left out

- RadixSort.RadixSort: covers values from 0 to below 10^9; above that the C digit weight overflows (RadixSort.WeightFitsIff), below 0 the bucket index is negative.
- Asgard.Allocator.ShmAlloc: requires num <= members, which the source asserts.
- Asgard.Allocator.ReorderPools: groups three independent calls of each function in one order; `shm_dealloc` makes them in another.
- Frames.ReceiveLoop: requires that recv delivers no more than the room it is given; what the peer had sent beyond that is not followed further.
- Descriptors.ParseData: requires a terminated string; atoi is unbounded.
- TransferProgram.Transfer: requires that file and segment together stay below 2^63 bytes, and that the connection holds; SessionProgram.Session takes the same objects through all other runs, for as many steps as its list of actions has, since after a noticed drop Jane's loop does not end.
- Substring.Scanner.Compute: requires that the total stay below 2^63. Locations stored as int wrap beyond 2^31, which the model writes out.
- Substring.Scanner.constructor: requires a non-empty pattern; with an empty one the source compares each byte with the terminator.
- ThorProgram.Server.ServerSocketSend: parse, check, append, search and reply are one step, and so is a fill of the block; Loki acts between steps. What Loki does between Thor's check and his append is not modelled.
- IniParser.Reader.ReadLine: the fopen at the first call and the static stream are the object; a byte 255 is read as end of file, as on machines where char is signed.
- The frames under way are whole frames, lost whole; how a frame is cut into pieces is in Frames.dfy.
- `reverse` in radix_sort.c: nothing calls it and it is a plain swap loop.
- The recursive search under BIN_SEARCH, `asgard.buffers`, and the commented-out allocator: dead code.
- The threaded branch of jane.c: switched off by its macro, and it does not match the queue's interface. The queue and the lock stand on their own here.
- Acknowledgement frames: the flag is only ever cleared, and Thor does not strip that marker.
- `toBin`: it joins the nibbles with `&`, so it inverts nothing; the inverse used is nibble by nibble.
- Addresses: blocks are offsets into the segment; null checks and allocation failures do not appear.
- Sockets, files, System V shared memory, sleeps, retries, logging, time stamps, printing and the programs' own unit checks.
- `asgard_config_read`: which keys are picked, and the range check of `BUFFERS`; its closing checks are IniParser.Accepted.
- MD5 itself: a parameter; no collision freedom is assumed.
