# Verified models of an seL4-based kernel and its message codec

A Dafny project that models five parts of the repository and proves what they are for.
`dafny verify dfyconfig.toml` checks all of it. Where the source changes state step by
step, there are methods and classes with the same fields, branches and loops; each is
proved equal to a function on values, and the main results are lemmas about those
functions, over every input or every run.

- **nanopb codec** (`Wire`, `Schema`, `Encoder`, `Decoder`, `Storage`, `DecoderCode`,
  `WireForm`, `WireExamples`, `RoundTrip`, `Sizes`, `NormalForm`, `Rewrite`, `Merging`,
  `UnknownFields`, `RequiredFields`, `FieldIter`, `SchemaTable`). `Encoder` says which bytes a
  message is written as and holds the two-pass stream writer. `Decoder` says what bytes mean, `DecoderCode` holds the stream reader with its substreams. Decoding what was
  encoded gives the message back at any nesting depth, exactly when every length prefix
  fits the decoder's 32 bits, and `Sizes` shows that 16-bit structures of types nested
  less than 4096 deep never exceed them. `Rewrite` shows that every stream the decoder
  accepts can be written again, in a canonical form that determines what it shows.
  `WireForm` pins the form of every value to what readers of any member size see of it,
  and says exactly which bytes are a record; `Merging` says what a second record of a
  field does. `RequiredFields` says what the check for required fields achieves. `FieldIter` is the
  packed descriptor table and its iterator, `SchemaTable` ties it to the decoder.
- **IPC fastpaths** of the mixed-criticality kernel (`CSpace`, `KernelObjects`,
  `EndpointQueue`, `CallStack`, `Fastpath`, `Outcomes`, `FastpathCode`, `FastpathExample`).
  Threads, replies, scheduling contexts and endpoints form an explicit heap. The invariant
  holds in every run, the running thread keeps its context, and well-nested runs restore
  the call stack.
  `Outcomes` says thread by thread what a step leaves behind.
- **CLH queue lock** (`ClhLock`). Interleaved atomic steps of any number of cores, under
  sequential consistency: mutual exclusion, distinct ownership, order, progress.
- **Boot memory manager** (`Regions`, `ReservedTable`, `BootMemory`, `Sweep`,
  `FreeMemory`, `WordBits`, `Chunks`, `Untypeds`, `BootExample`). From the platform's
  memory map to the untyped capabilities: when booting succeeds, that the chunks offered
  are all memory the kernel does not keep, and exactly when two of them overlap.
- **Generators** (`Reciprocal`, `BitSets`, `TaggedUnions`, `TaggedExample`). Division by multiplication,
  and variable-width tags read by a cascade of class masks.

`Bits` and `Basics` hold powers of two, shifts and result types.

Where the code and its comments differ, the model follows the code:

- `clh_is_self_in_queue` is exact outside release only; inside it can be true for a core
  that is neither queued nor holding (`SelfInQueueInsideRelease` is a run that shows it).
- `magicgu` is right exactly for divisors up to `nmax + 1` (or `nmax == 0`); beyond that
  it returns the identity instead of zero.
- The encoder writes length prefixes of up to 64 bits, the decoder reads 32. The round
  trip holds exactly when no submessage and no packed array directly in the message
  takes 4 GiB (`RoundTripExactly`). With 16-bit sizes, the default, and types nested
  less than 4096 deep, none does, and every message makes the round trip
  (`RoundTripSixteenBit`). Otherwise there are messages that are written and not read:
  with `PB_FIELD_32BIT` a string can be that long (`LongStringFails`), and with types
  nested 2^31 deep a structure of one byte can have so long an encoding
  (`DeepNestingFails`).
- Only the first 64 required fields are checked at the end of a message. A type that
  accepts anything accepts only complete messages exactly if it has at most 64 of them
  (`AcceptanceIsThorough`), as all records of any further one can be left out
  (`UntrackedDispensable`); `SixtyFifthMissing` is an accepted stream that lacks the 65th.
- `insert_region` ignores whether the table of reserved regions had room. What found no
  place there is offered twice, as free and as device memory: offers overlap exactly if
  that happened to memory below the end of device memory (`InitMemory`), and
  `LostEntryOverlaps` is a boot in which it does.
- `create_untypeds` offers the gaps between reserved regions above the top of device
  memory as well; the model's device memory ends at the later of the two.
- A second record of a submessage is read over what the first left, but its own required
  members are checked as if it stood alone: it is refused if it lacks one, although the
  two payloads in one record would be accepted (`SubmessagesMerge` has the condition).
- The negative values that `size_offset` is declared to hold are outside the static
  assertions beside the packing macros, and so outside `PackRoundTrip`. Those of the
  one-word format admit an array size of 0, which reads back as 1; all other descriptors
  they admit are read back as they were packed.

## Model

| member | source | states |
|---|---|---|
| ClhLock.InitInv | kernel/src/smp/lock.c:16-27 | initialisation establishes the lock invariant: one request per core, and a granted spare at the tail |
| ClhLock.StepInv | kernel/include/smp/lock.h:59-100 | every atomic step of every core keeps the invariant, also between the grant and taking over the watched request |
| ClhLock.RunInv | kernel/include/smp/lock.h:59-105 | the invariant holds after every interleaved run |
| ClhLock.MutualExclusion | kernel/include/smp/lock.h:59-97 | in every interleaving at most one core is between the end of acquire and the grant |
| ClhLock.RequestsDistinctlyOwned | kernel/include/smp/lock.h:65-99 | the N + 1 requests always have N + 1 distinct owners, the spare one granted |
| ClhLock.SelfInQueueExact | kernel/include/smp/lock.h:102-105 | outside release the test is true exactly while the core is queued or holding; inside, exactly while the new owner of the request is |
| ClhLock.SelfInQueueInsideRelease | kernel/include/smp/lock.h:97-105 | a run in which the test is true for a core inside release that is not queued |
| ClhLock.GrantedInTailOrder | kernel/include/smp/lock.h:67-83 | cores enter in the order of their tail exchanges |
| ClhLock.PredecessorsFall | kernel/include/smp/lock.h:67-97 | a waiter's predecessors never grow in number, and fall by one at each release |
| ClhLock.NoDeadlock | kernel/include/smp/lock.h:70-97 | with a waiter, the front of the queue can always enter or grant |
| ClhLock.CoreHeldUp | kernel/include/smp/lock.h:59-100 | every core always has a next access, and it gets on with it exactly unless it is a waiter that is not at the front, whose poll changes nothing |
| ClhLock.WaiterIsReached | kernel/include/smp/lock.h:70-97 | every waiter is let in by a run of exactly as many steps as its place in the queue calls for |
| ClhLock.EveryRunCountsDown | kernel/include/smp/lock.h:70-97 | in every run, as long as a waiter has not entered, the entries and grants so far and those still due add up to its place in the queue at the start |
| ClhLock.EntryAsCounted | kernel/include/smp/lock.h:70-97 | in whatever run a waiter enters, exactly so many entries and grants have been made |
| ClhLock.BigKernelLock.constructor | kernel/src/smp/lock.c:16-27 | the lock object starts in the initial state |
| ClhLock.BigKernelLock.MarkPending | kernel/include/smp/lock.h:64-65 | the write is the announcing step of the machine |
| ClhLock.BigKernelLock.ExchangeTail | kernel/include/smp/lock.h:66-67 | the exchange is the enqueueing step |
| ClhLock.BigKernelLock.PollWatch | kernel/include/smp/lock.h:70-83 | one turn of the wait loop enters exactly if the watched request is granted, and changes nothing otherwise |
| ClhLock.BigKernelLock.PassLock | kernel/include/smp/lock.h:96-97 | the write is the granting step |
| ClhLock.BigKernelLock.TakeWatched | kernel/include/smp/lock.h:98-99 | the write is the recycling step |
| ClhLock.BigKernelLock.IsSelfInQueue | kernel/include/smp/lock.h:102-105 | computes the self test of the machine |
| Reciprocal.MagicGu | kernel/tools/reciprocal.py:24-32 | the search ends within its bound; the result divides every n up to nmax exactly if d is at most nmax + 1 or nmax is 0; for d up to nmax no smaller shift has any multiplier, and no smaller multiplier works at this shift |
| Reciprocal.SearchSucceeds | kernel/tools/reciprocal.py:27-30 | the loop's test holds at twice the bit length for every nmax and d |
| Reciprocal.SufficientShiftDivides | kernel/tools/reciprocal.py:28-36 | where the test holds, multiplying and shifting gives every quotient |
| Reciprocal.RejectedShiftHopeless | kernel/tools/reciprocal.py:27-28 | where the test fails, no multiplier at all gives every quotient |
| Reciprocal.MultiplierAtLeast | kernel/tools/reciprocal.py:29-30 | no smaller multiplier than the one returned works at that shift |
| Reciprocal.OversizedDivisor | kernel/tools/reciprocal.py:24-36 | for a divisor beyond nmax + 1 the result is multiplication by one, right only for nmax 0 |
| CSpace.ResolveAddressBits | kernel/src/kernel/cspace.c:126-193 | the shifting loop ends on cyclic CNode graphs with what the path of the address calls for: a slot, with the bits its CNodes leave over and none over if it holds a CNode, or a fault with the guard, sizes and bits left at the last CNode |
| CSpace.ResolveExplained | kernel/src/kernel/cspace.c:126-193 | for every address there is a path of CNodes, each in the slot the one before names, whose last one and summed level bits give slot, bits remaining and every value of a fault |
| CSpace.NamesSplits | kernel/src/kernel/cspace.c:156-172 | the bits of an address that names a slot are the CNode's guard, the slot's place in the CNode and the bits left, one after the other |
| CSpace.SlowStep | kernel/src/kernel/cspace.c:147-191 | one turn of the loop, with its word shifts, is one level of the resolution |
| CSpace.WalkLevels | kernel/src/kernel/cspace.c:147-193 | the loop computes the recursive resolution, whose outcome `ResolveExplained` pins |
| CSpace.LookupCap | kernel/src/kernel/cspace.c:15-63 | the capability found for a whole word, with what its path leaves over, or the null capability with the fault its path calls for |
| CSpace.LookupFp | kernel/include/fastpath/fastpath.h:89-132 | the fastpath loop returns the capability the recursive resolution names, null exactly on a fault |
| CSpace.FastLevel | kernel/include/fastpath/fastpath.h:102-123 | one turn of the fastpath loop, with the postponed depth check, keeps the capability to be found |
| CSpace.LookupsAgree | kernel/include/fastpath/fastpath.h:89-132 | on every address of every well-formed capability space, cyclic ones included, both lookups return the same capability |
| CSpace.SlowGuard | kernel/src/kernel/cspace.c:156-157 | the shift taken modulo the word width still reads the guard of the remaining bits |
| CSpace.FastIndexRight | kernel/include/fastpath/fastpath.h:105-118 | with enough bits left, the two word shifts read the same slot index as the general lookup |
| EndpointQueue.DequeueQueuesOk | kernel/src/fastpath/fastpath.c:177-183 | taking the head off keeps every endpoint queue linked, ordered by priority and arrival, and Idle exactly when empty |
| EndpointQueue.EnqueueQueuesOk | kernel/include/object/tcb.h:132-162 | a thread joining at its place keeps every queue linked, in non-increasing priority, first come first served among equals |
| EndpointQueue.EnqueueThis | kernel/include/object/tcb.h:132-162 | the thread stands behind everyone of its priority or higher and ahead of all others |
| CallStack.HandOverChains | kernel/src/fastpath/fastpath.c:187-206 | pushing a reply keeps all reply chains linked and disjoint, only tops marked head, every reply with a waiting thread that has no context |
| CallStack.HandOverBound | kernel/src/fastpath/fastpath.c:187-206 | contexts and threads, and replies and threads, still name each other after a call |
| CallStack.HandBackChains | kernel/src/fastpath/fastpath.c:441-498 | popping a reply keeps all reply chains well-formed |
| CallStack.HandBackBound | kernel/src/fastpath/fastpath.c:441-498 | contexts and threads, and replies and threads, still name each other after a reply |
| Fastpath.CallInvariant | kernel/src/fastpath/fastpath.c:177-228 | a call keeps the whole invariant |
| Fastpath.ReplyRecvInvariant | kernel/src/fastpath/fastpath.c:441-542 | a reply keeps the whole invariant |
| Fastpath.StepInvariant | kernel/src/fastpath/fastpath.c:19-551 | every fastpath that goes ahead keeps the whole invariant |
| Fastpath.Run | kernel/src/fastpath/fastpath.c:19-551 | so does every run of fastpaths |
| Fastpath.CallPushes | kernel/src/fastpath/fastpath.c:187-228 | a call keeps the running context, puts the receiver on top of its stack, and leaves all other chains alone |
| Fastpath.ReplyPops | kernel/src/fastpath/fastpath.c:305-317 | a reply keeps the running context and resumes the most recent caller that was not answered |
| Fastpath.RunKeepsContext | kernel/src/fastpath/fastpath.c:195-206 | through any run the running thread holds the same context, and the stack is as deep as calls minus replies say |
| Fastpath.NestedRunRestoresStack | kernel/src/fastpath/fastpath.c:305-317 | after any well-nested run the stack is what it was, with the open calls on top, and a balanced run ends in the thread it began with |
| Fastpath.ChainUnique | kernel/src/fastpath/fastpath.c:200-206 | the links determine the chain, which therefore is acyclic |
| Fastpath.QueueUnique | kernel/include/object/tcb.h:132-162 | the links determine the queue |
| FastpathCode.IpcKernel.FastpathCall | kernel/src/fastpath/fastpath.c:19-233 | goes ahead exactly if all checks pass, then performs the call step; otherwise nothing changes; who runs afterwards can run, in the current domain, and is behind no ready thread if the caller was not; the capability can send and grant or grant a reply |
| FastpathCode.IpcKernel.CallRuns | kernel/src/fastpath/fastpath.c:121-147 | where the checks pass, the thread that runs after the call step can run and is behind no ready thread if the caller was not |
| FastpathCode.IpcKernel.CallLeftFor | kernel/src/fastpath/fastpath.c:37-165 | a call is left to the slow path exactly for one of the reasons listed, the scheduling one being a receiver behind both the caller and a ready thread |
| Outcomes.CallOutcome | kernel/src/fastpath/fastpath.c:177-228 | the thread that waits first runs on the caller's context, the caller waits with the reply object the receiver brought, and no other thread, queue or object changes but for links |
| FastpathCode.IpcKernel.CommitCall | kernel/src/fastpath/fastpath.c:177-228 | the writes past the point of no return are the call step |
| FastpathCode.IpcKernel.PerformCall | kernel/src/fastpath/fastpath.c:177-228 | taking the receiver off its queue and handing the context over, one after the other, with nothing else changed |
| FastpathExample.CallThenReply | kernel/src/fastpath/fastpath.c:177-228 | a kernel with a client and a waiting server that meets the invariant, in which the call and then the reply can go ahead |
| FastpathCode.IpcKernel.DequeueHead | kernel/src/fastpath/fastpath.c:177-183 | the writes take exactly the head off its queue |
| FastpathCode.IpcKernel.HandOverContext | kernel/src/fastpath/fastpath.c:187-228 | the writes push the reply and donate the context |
| FastpathCode.IpcKernel.FastpathReplyRecv | kernel/src/fastpath/fastpath.c:240-551 | goes ahead exactly if all checks pass, then performs the reply step; otherwise nothing changes; the caller resumed can run, in the current domain, has no fault pending and is behind no ready thread; the endpoint capability can receive |
| FastpathCode.IpcKernel.ReplyRuns | kernel/src/fastpath/fastpath.c:378-416 | where the checks pass, the caller resumed can run and is behind no ready thread |
| FastpathCode.IpcKernel.ReplyLeftFor | kernel/src/fastpath/fastpath.c:260-429 | a reply is left to the slow path exactly for one of the reasons listed, a caller behind a ready thread among them |
| Outcomes.ReplyOutcome | kernel/src/fastpath/fastpath.c:441-542 | the thread waiting with the reply object runs on the server's context, the server waits at the endpoint with that object, behind its equals and ahead of lower priorities, and nothing else changes but links |
| FastpathCode.IpcKernel.CommitReplyRecv | kernel/src/fastpath/fastpath.c:441-542 | the writes past the point of no return are the reply step |
| FastpathCode.IpcKernel.BlockServer | kernel/src/fastpath/fastpath.c:441-449 | the writes block the server and move the reply object to it |
| FastpathCode.IpcKernel.PopContext | kernel/src/fastpath/fastpath.c:483-498 | the writes give the context back and take the top off the call stack |
| Fastpath.JoinThenPop | kernel/src/fastpath/fastpath.c:441-498 | queueing the server between the two halves of the hand-back makes the same step as queueing it afterwards |
| FastpathCode.IpcKernel.JoinQueue | kernel/src/fastpath/fastpath.c:455-481 | the server joins the queue at its place by priority, as the queueing function says |
| FastpathCode.IpcKernel.LinkIn | kernel/src/fastpath/fastpath.c:455-481 | the direct write to an empty queue and the ordered insertion agree |
| FastpathCode.IpcKernel.TcbEPAppend | kernel/include/object/tcb.h:132-162 | relinks the neighbours so that the thread stands at its place by priority |
| FastpathCode.FindPlace | kernel/include/object/tcb.h:134-142 | the search from the back finds the two neighbours of that place |
| Wire.VarintRoundTrip | tools/nanopb/pb_encode.c:570-620 | every 64-bit value survives encoding and decoding, whatever follows, in at most ten bytes |
| Wire.VarintMinimal | tools/nanopb/pb_encode.c:570-620 | no shorter byte string reads as the same value |
| Wire.Varint32RoundTrip | tools/nanopb/pb_decode.c:169-236 | the 32-bit reader recovers every 32-bit value |
| Wire.Varint32OfNegative | tools/nanopb/pb_decode.c:203-212 | it recovers the pattern of every negative 32-bit value from its sign-extended ten bytes |
| Wire.Varint32Agrees | tools/nanopb/pb_decode.c:169-259 | whatever it accepts, the 64-bit reader accepts, with the same bytes consumed and the same low 32 bits |
| Wire.ZigZagInverse | tools/nanopb/pb_encode.c:622-631 | zigzag maps n to 2n or -2n - 1 and is undone by decoding |
| Wire.UnZigZagInverse | tools/nanopb/pb_decode.c:1314-1326 | decoding a zigzag value and encoding it again gives the value back |
| Wire.FixedRoundTrip | tools/nanopb/pb_encode.c:633-658 | little-endian integers survive |
| WireForm.VarintByteAt | tools/nanopb/pb_encode.c:570-620 | byte k of a varint is digit k to the base 128, with the top bit on all but the last |
| WireForm.VarintDigits | tools/nanopb/pb_encode.c:570-620 | it has as many digits as the value needs, and no leading zero |
| WireForm.FixedByteAt | tools/nanopb/pb_encode.c:633-658 | byte k of a fixed-width integer is digit k to the base 256 |
| WireForm.AnyReaderSees | tools/nanopb/pb_encode.c:788-812 | whatever the member's size, what is written for a number reads as that number in the widest type of its kind: signed, unsigned, zigzag, and true as 1 |
| WireForm.NoShorterForm | tools/nanopb/pb_encode.c:788-812 | no shorter bytes read so |
| WireForm.WidthsAgree | tools/nanopb/pb_decode.c:1385-1451 | a narrower unsigned or zigzag reader accepts exactly what the widest reads within its range, and reads the same |
| WireForm.SignedWidthsAgree | tools/nanopb/pb_decode.c:1424-1451 | a narrower signed reader gives the one number in its range with the same low 32 bits, and fails if there is none |
| WireForm.SignedInRange | tools/nanopb/pb_decode.c:1424-1451 | a number in range is read alike by every signed reader |
| WireForm.BooleanReads | tools/nanopb/pb_decode.c:1304-1312 | a number reads as true unless its low 32 bits are zero |
| WireForm.RecordTag | tools/nanopb/pb_encode.c:661-700 | every record begins with eight times the field number plus the wire type of its value |
| WireForm.PayloadExactly | tools/nanopb/pb_decode.c:304-314 | what is skipped as one value of a wire type: one varint, four or eight bytes, or a length and that many; nothing else |
| WireForm.OtherWireTypesRefused | tools/nanopb/pb_decode.c:304-314 | every other wire type, group markers among them, is an error |
| WireForm.MismatchRefused | tools/nanopb/pb_decode.c:392-461 | a field in another wire type than its own is an error, packed arrays apart |
| WireForm.ZeroTagRefused | tools/nanopb/pb_decode.c:1003-1012 | so is field number 0 |
| WireExamples.MinusOne | tools/nanopb/pb_encode.c:788-812 | -1 in a signed member of any size is nine bytes of ones and a last 1 |
| WireExamples.ZigZagNumber | tools/nanopb/pb_encode.c:622-631 | -1, 1 and -2 are written as 1, 2 and 3 |
| WireExamples.Number | tools/nanopb/pb_encode.c:661-700 | field 1 with the number 150, byte for byte |
| WireExamples.Text | tools/nanopb/pb_encode.c:883-906 | a string is its tag, its length and its bytes without the terminator |
| WireExamples.Nested | tools/nanopb/pb_encode.c:710-758 | a submessage is its tag, its length and its records |
| WireExamples.Array | tools/nanopb/pb_encode.c:125-192 | an array of numbers is one record of all their varints |
| Encoder.SplitHalfVarint | tools/nanopb/pb_encode.c:570-602 | the encoder that works on two 32-bit halves writes the minimal base-128 form of the 64-bit value |
| Encoder.OutputStream.Write | tools/nanopb/pb_encode.c:81-102 | a buffer stream takes all bytes or none, a sizing stream counts them |
| Encoder.OutputStream.EncodeVarint | tools/nanopb/pb_encode.c:604-620 | writes the base-128 form, one-byte case included |
| Encoder.EncodeTag | tools/nanopb/pb_encode.c:661-665 | writes every 32-bit field number and the wire type as one varint |
| Encoder.EncodeString | tools/nanopb/pb_encode.c:702-708 | writes the length and the bytes |
| Encoder.EncodeNum | tools/nanopb/pb_encode.c:762-840 | writes a number in its type's form, which `WireForm.AnyReaderSees` pins; an error for an unsupported size |
| Encoder.BoundedStringLength | tools/nanopb/pb_encode.c:883-906 | finds the string in its buffer and says exactly whether it ends in time |
| Encoder.EncodeValue | tools/nanopb/pb_encode.c:359-401 | writes the value, or fails, just as the encoding function says |
| Encoder.EncodeSubmessage | tools/nanopb/pb_encode.c:710-758 | the sizing pass counts exactly what the writing pass emits; given room, the check for a changed size is never reached |
| Encoder.EncodeRecord | tools/nanopb/pb_encode.c:359-401 | writes tag and value |
| Encoder.EncodePackedItems | tools/nanopb/pb_encode.c:153-192 | counting or writing, the item loop takes exactly the items' bytes |
| Encoder.EncodePacked | tools/nanopb/pb_encode.c:143-192 | the length prefix of a packed array is exact, with and without a counting run |
| Encoder.EncodeRecords | tools/nanopb/pb_encode.c:196-234 | one record per item of an unpacked array |
| Encoder.EncodeArray | tools/nanopb/pb_encode.c:125-237 | packed or not, nothing for an empty array, an error for one past its size |
| Encoder.EncodeField | tools/nanopb/pb_encode.c:415-466 | presence, has-flag, array and union tag decide what is written |
| Encoder.Encode | tools/nanopb/pb_encode.c:509-531 | the field loop writes exactly the encoding of the message, or fails exactly if there is none or no room |
| RoundTrip.NumRoundTrip | tools/nanopb/pb_decode.c:1378-1453 | every number of every scalar type and size survives |
| RoundTrip.ArrayRoundTrip | tools/nanopb/pb_decode.c:475-516 | every array is read back item by item, packed or not |
| RoundTrip.FieldRoundTrip | tools/nanopb/pb_decode.c:463-537 | everything written for a field is read back over a message that has the field fresh |
| RoundTrip.MessageRoundTrip | tools/nanopb/pb_decode.c:963-1125 | decoding the bytes of any message of any well-formed type succeeds, uses all of them and gives its visible content, at any depth, if every submessage and packed array directly in it is below 4 GiB |
| RoundTrip.RoundTripExactly | tools/nanopb/pb_decode.c:358-371 | it does so exactly when every submessage and packed array directly in it is below 4 GiB, and fails otherwise |
| RoundTrip.LongLengthRefused | tools/nanopb/pb_decode.c:200-226 | the length reader refuses every length from 4 GiB up to 2^63 |
| Sizes.RoundTripSixteenBit | tools/nanopb/pb.h:741-754 | with the 16-bit sizes the static assertions demand, and types nested less than 4096 deep, every message that can be written is read back |
| Sizes.MessageAtMost | tools/nanopb/pb_encode.c:415-531 | an encoding is at most 16 bytes a level for each byte of the structure it comes from, unions counted once |
| Sizes.SixteenBitField | tools/nanopb/pb.h:741-754 | up to that depth no length prefix of a 16-bit member outgrows 32 bits |
| Sizes.LongStringFails | tools/nanopb/pb_decode.c:200-226 | with 32-bit sizes, a submessage that holds a string of nearly 4 GiB is written but not read |
| Sizes.DeepNestingFails | tools/nanopb/pb_decode.c:200-226 | with types nested 2^31 deep, a message in a structure of one byte is written but not read, so sizes alone do not bound the encoding |
| NormalForm.NormalEncodesAlike | tools/nanopb/pb_encode.c:415-531 | a message and its visible content are written as the same bytes |
| NormalForm.SameBytesSameContent | tools/nanopb/pb_encode.c:509-531 | two messages are written alike exactly if their visible content is the same |
| NormalForm.RewriteIsStable | tools/nanopb/pb_decode.c:1155-1168 | decoding and encoding again gives the same bytes |
| Rewrite.MessageWritten | tools/nanopb/pb_encode.c:509-531 | whatever a structure holds within its room is written, for types of supported sizes |
| Rewrite.AcceptedIsWritten | tools/nanopb/pb_decode.c:1155-1168 | whatever bytes a message was read from, it can be written |
| Rewrite.CanonicalForm | tools/nanopb/pb_decode.c:1155-1168 | every accepted stream has a canonical form, which is accepted, shows the same content and is its own canonical form |
| Rewrite.CanonicalSixteenBit | tools/nanopb/pb.h:741-754 | with 16-bit sizes and types nested less than 4096 deep, without a condition on the content |
| Rewrite.SameForm | tools/nanopb/pb_encode.c:509-531 | two accepted streams have the same canonical form exactly if they show the same content |
| Storage.DecodedMessageStored | tools/nanopb/pb_decode.c:963-1125 | whatever the bytes, an accepted message has every number in range, every array within its size and every string within its buffer |
| Storage.FieldStored | tools/nanopb/pb_decode.c:463-537 | each decoded field leaves every member within its room |
| Merging.SeenMore | tools/nanopb/pb_decode.c:1076-1121 | more fields already seen make no difference to a stream accepted without them |
| Merging.StreamsJoin | tools/nanopb/pb_decode.c:989-1125 | two accepted streams, the second read over what the first left, are accepted as one, with the same message |
| Merging.SubmessageRecord | tools/nanopb/pb_decode.c:1545-1596 | a record of a submessage is its payload, read over what the member holds |
| Merging.SubmessagesMerge | tools/nanopb/pb_decode.c:1578-1589 | two records of a submessage, whatever comes behind, are as one record with both payloads, if the second has its required members; otherwise they are refused |
| Merging.LastValueCounts | tools/nanopb/pb_decode.c:463-474 | of two records of a number, string or byte string the second alone decides |
| Merging.LastMemberCounts | tools/nanopb/pb_decode.c:518-531 | of two records of members of a union, submessages too, the second alone decides: it starts afresh |
| Merging.PackedRecord | tools/nanopb/pb_decode.c:477-504 | a packed record is its items behind those the array has |
| Merging.PackedRecordsJoin | tools/nanopb/pb_decode.c:477-504 | two packed records are as one with both payloads |
| Merging.UnpackedIsPacked | tools/nanopb/pb_decode.c:477-516 | a record of one item is as the packed record of that item |
| Decoder.FieldIndex | tools/nanopb/pb_common.c:195-244 | the field with a tag, or none; `SchemaTable.FindField` is the search that finds it |
| DecoderCode.InputStream.ReadByte | tools/nanopb/pb_decode.c:123-142 | takes the first byte, or fails on an empty stream and changes nothing |
| DecoderCode.InputStream.Read | tools/nanopb/pb_decode.c:84-119 | takes exactly the asked bytes, or fails if there are too few |
| DecoderCode.InputStream.DecodeVarint | tools/nanopb/pb_decode.c:239-259 | the shifting loop, kept to 64 bits, reads what the group-by-group definition says |
| DecoderCode.InputStream.DecodeVarint32 | tools/nanopb/pb_decode.c:169-236 | the loop accepts exactly 32-bit values, padding and sign extension |
| DecoderCode.InputStream.SkipVarint | tools/nanopb/pb_decode.c:262-271 | skips to the end of the varint |
| DecoderCode.InputStream.SkipField | tools/nanopb/pb_decode.c:304-314 | skips the payload of each wire type, an error for the others |
| DecoderCode.InputStream.DecodeFixed | tools/nanopb/pb_decode.c:1328-1376 | reads little-endian integers of 4 and 8 bytes |
| DecoderCode.InputStream.MakeSubstream | tools/nanopb/pb_decode.c:358-371 | the substream holds exactly the counted bytes, and the parent has given them up |
| DecoderCode.InputStream.CloseSubstream | tools/nanopb/pb_decode.c:373-387 | the parent continues behind the substream's last byte |
| DecoderCode.CastExact | tools/nanopb/pb_decode.c:1383-1453 | casting to the member's size and comparing finds exactly the values out of range |
| DecoderCode.DecodeNum | tools/nanopb/pb_decode.c:1378-1453 | reads a scalar as its meaning says and fails exactly where there is none |
| DecoderCode.DecodeValue | tools/nanopb/pb_decode.c:392-461 | so for every type, submessages over what the member holds |
| DecoderCode.DecodeSubmessage | tools/nanopb/pb_decode.c:1545-1596 | a submessage is decoded over what the member holds, uses up its substream and nothing behind it |
| DecoderCode.DecodePacked | tools/nanopb/pb_decode.c:487-500 | the item loop ends at the end of the substream, or fails on overflow |
| DecoderCode.DecodePackedField | tools/nanopb/pb_decode.c:477-504 | a packed record appends its items to the array |
| DecoderCode.DecodeField | tools/nanopb/pb_decode.c:463-537 | presence, arrays and unions are updated as the meaning of the record says |
| DecoderCode.CheckRequired | tools/nanopb/pb_decode.c:1094-1121 | the check of whole words and remaining bits finds exactly whether all tracked required fields were seen |
| RequiredFields.AcceptedHasRequired | tools/nanopb/pb_decode.c:1076-1121 | however an accepted stream is split into records, every required field among the first 64 has one |
| RequiredFields.AcceptedStreamHasRequired | tools/nanopb/pb_decode.c:1094-1121 | with at most 64 required fields, an accepted stream has a record for each |
| RequiredFields.CheckIsThorough | tools/nanopb/pb_decode.c:1094-1121 | the final check implies that all required fields were seen exactly for types with at most 64 of them |
| RequiredFields.UntrackedDispensable | tools/nanopb/pb_decode.c:1076-1121 | without the records of a required field behind the 64th an accepted stream stays accepted and says the same about all other fields |
| RequiredFields.AcceptanceIsThorough | tools/nanopb/pb_decode.c:1094-1121 | a type for which some stream is accepted accepts only streams with every required field exactly if it has at most 64 |
| RequiredFields.UntrackedMissing | tools/nanopb/pb_decode.c:1076-1081 | for every number of required fields above 64, a type and an accepted stream without a record for any behind the 64th |
| RequiredFields.SixtyFifthMissing | tools/nanopb/pb_decode.c:1076-1081 | so with 65 fields and the last one missing |
| DecoderCode.DecodeRecord | tools/nanopb/pb_decode.c:1015-1085 | the rest of a turn of the loop decodes or skips one record and keeps the bit field in step with the fields seen |
| DecoderCode.DecodeRecords | tools/nanopb/pb_decode.c:989-1125 | the record loop accepts exactly the byte strings that have a meaning, uses them up, and gives it |
| DecoderCode.Decode | tools/nanopb/pb_decode.c:1155-1168 | so does decoding into a fresh message |
| UnknownFields.FieldSkips | tools/nanopb/pb_decode.c:304-314 | decoding a known field consumes exactly what skipping it would |
| UnknownFields.RecordWhole | tools/nanopb/pb_decode.c:1035-1088 | what a record does, known or not, depends on nothing behind it |
| UnknownFields.AcceptedSplits | tools/nanopb/pb_decode.c:989-1088 | every accepted stream is a sequence of complete records |
| UnknownFields.UnknownRecordsIrrelevant | tools/nanopb/pb_decode.c:1013-1050 | deleting any set of complete records whose tags are not in the type never changes the result, errors included |
| FieldIter.PackRoundTrip | tools/nanopb/pb.h:716-754 | in all four widths, reading a descriptor that passes the static assertions gives back what was packed, exactly if it is not a one-word descriptor of array size 0, which reads as 1 |
| FieldIter.PackedWords | tools/nanopb/pb.h:716-733 | one descriptor of each width, bit for bit |
| FieldIter.TableAt | tools/nanopb/pb_common.c:147-149 | the descriptor of each field stands at the summed widths of those before it |
| FieldIter.Iterator.Load | tools/nanopb/pb_common.c:8-120 | shows the field the iterator stands at |
| FieldIter.Iterator.Advance | tools/nanopb/pb_common.c:122-154 | word offset, required count and submessage count stay those of the next field, round the end |
| FieldIter.Iterator.Begin | tools/nanopb/pb_common.c:156-164 | stands at the first field, if there is one |
| FieldIter.Iterator.Next | tools/nanopb/pb_common.c:188-193 | goes round all fields and says when it is back |
| FieldIter.Iterator.Candidate | tools/nanopb/pb_common.c:221-235 | the quick look at six tag bits misses no field |
| FieldIter.Iterator.Find | tools/nanopb/pb_common.c:195-244 | from any position, ends at the field with the tag if there is one, else back where it was |
| SchemaTable.FindField | tools/nanopb/pb_decode.c:1015-1015 | in the table of a message type the iterator finds a field exactly if the list of fields has one with the tag, stands at it, and numbers it among the required fields as the decoder does |
| SchemaTable.FindInType | tools/nanopb/pb_common.c:156-244 | so it does from a fresh iterator over the table of any well-formed type |
| SchemaTable.RequiredAgree | tools/nanopb/pb_common.c:150-152 | the count of required fields kept while walking the table is the count over the list of fields |
| ReservedTable.MergeRegions | kernel/src/kernel/boot.c:46-64 | the same addresses; an ordered table ends with a gap between any two entries |
| ReservedTable.RemoveAt | kernel/src/kernel/boot.c:53-56 | later entries move down over the one removed |
| ReservedTable.InsertAt | kernel/src/kernel/boot.c:95-99 | later entries move up and the new one takes its place |
| BootMemory.Memory.ReserveRegion | kernel/src/kernel/boot.c:66-117 | the table's addresses become the union with the region; entries stay ordered and separated if the region was apart from them; fails only when full, changing nothing, and records it |
| BootMemory.Memory.InsertRegion | kernel/src/kernel/boot.c:119-153 | appends to the regions found, of which the list holds as many as it has places, and reserves the physical addresses; fails exactly when the list is full, and records whether anything found no place |
| FreeMemory.CheckAvailable | kernel/src/kernel/boot.c:876-912 | accepts exactly non-empty lists of non-empty regions in order without overlap |
| FreeMemory.CheckReserved | kernel/src/kernel/boot.c:915-940 | accepts exactly lists in order without overlap |
| FreeMemory.CeilingExact | kernel/src/kernel/boot.c:865-874 | comparing physical addresses clips every address to the window, wrapped ones included |
| FreeMemory.ConvertAvailable | kernel/src/kernel/boot.c:966-971 | the available regions at their kernel-virtual addresses, clipped to the window |
| Sweep.PassReserved | kernel/src/kernel/boot.c:977-986 | passing an empty or lower reserved region keeps what the pass has established |
| Sweep.Take | kernel/src/kernel/boot.c:987-1011 | taking the part below the next reserved region keeps it |
| Sweep.Trim | kernel/src/kernel/boot.c:993-997 | trimming a reserved front keeps it |
| Sweep.Finish | kernel/src/kernel/boot.c:973-1028 | at the end the free regions are, as addresses, what is available and not reserved, in the largest pieces of single available regions |
| Sweep.PiecesUnique | kernel/src/kernel/boot.c:973-1028 | the inputs determine the free regions, their order and number included |
| FreeMemory.SubtractReserved | kernel/src/kernel/boot.c:973-1014 | the main loop ends, although overlaps advance neither index; list, table and pass agree, the list as far as it has places, the table on all of it unless something was lost |
| FreeMemory.Overlap | kernel/src/kernel/boot.c:991-1012 | the overlap step shrinks what is left of the available region |
| FreeMemory.OverlapInside | kernel/src/kernel/boot.c:998-1012 | the part below a reserved region that starts inside is taken, and what is left shrinks |
| FreeMemory.TakeRest | kernel/src/kernel/boot.c:1016-1027 | the two closing loops record what is left of either list |
| FreeMemory.FindFree | kernel/src/kernel/boot.c:962-1027 | the free regions found are the unreserved pieces of the clipped available regions, of which the list holds as many as it has places; the table holds only them and the reserved regions, all of them unless something was lost, and stays separated |
| FreeMemory.RoundDownGreatest | kernel/include/util.h:42-42 | rounding down gives the greatest aligned address not above |
| FreeMemory.CarveOut | kernel/src/kernel/boot.c:1029-1089 | cuts the top-most aligned block of the computed size from the last region that has room; fails exactly if no region has, or the list is full |
| FreeMemory.TopFit | kernel/src/kernel/boot.c:1058-1064 | rounding down finds the highest place an aligned block fits, and finds one whenever there is one |
| FreeMemory.AllCarved | kernel/src/kernel/boot.c:1063-1078 | after the cut the list is in order and lacks exactly the block |
| FreeMemory.RoomIsFit | kernel/src/kernel/boot.c:1050-1066 | the block fits in a free region exactly if an aligned block lies in one available region with nothing of it reserved |
| FreeMemory.LastFitHighest | kernel/src/kernel/boot.c:1050-1066 | the place found in the last region with room is the highest there is at all |
| FreeMemory.InitFreemem | kernel/src/kernel/boot.c:949-1090 | succeeds exactly if the inputs pass the checks, the list has a place more than there are free regions, and there is room for the block; then the block is at the highest aligned place that is available and not reserved, cut from one region of the list, the list is exact, and the table knows of everything unless it lost an entry |
| WordBits.Clz64 | kernel/src/util.c:251-304 | the halving rounds find the highest bit; 64 for zero |
| WordBits.Ctz64 | kernel/src/util.c:370-419 | the halving rounds find the lowest bit; 64 for zero |
| Untypeds.ChunkBits | kernel/src/kernel/boot.c:757-768 | the largest size that is aligned, within the length and an untyped's limit |
| Untypeds.CapStore.Provide | kernel/src/kernel/boot.c:664-722 | succeeds exactly if size, alignment, window and slots allow; the list grows by the chunk, or not at all once it is full |
| Untypeds.CapStore.OfferChunk | kernel/src/kernel/boot.c:775-779 | the capabilities stay those of the useful chunks offered so far, as far as the list goes |
| Untypeds.CreateUntypedsForRegion | kernel/src/kernel/boot.c:739-783 | cuts the region, wrapped or not, completely and offers every chunk; device regions and regions inside the window always succeed given slots |
| Chunks.CuttingTiles | kernel/src/kernel/boot.c:752-781 | an address is in a chunk exactly if it is in the region, wrapped regions included |
| Chunks.CutsDisjoint | kernel/src/kernel/boot.c:752-781 | no two chunks share an address |
| Chunks.CutsLargeEnough | kernel/src/kernel/boot.c:770-779 | with start and length aligned, no chunk is smaller than the alignment |
| Chunks.CuttingLargeEnough | kernel/src/kernel/boot.c:770-779 | with both ends of a region aligned, wrapped or not, none of its chunks is too small to be offered |
| Chunks.AlignedDist | kernel/src/kernel/boot.c:757-757 | the distance between two aligned addresses is aligned, also round the top |
| Chunks.SizesAtMostTwice | kernel/src/kernel/boot.c:757-768 | each size below the largest occurs at most twice |
| WordBits.AlignedBelowTop | kernel/src/kernel/boot.c:746-748 | an aligned chunk does not cross the top of the address space |
| Untypeds.OneMoreApart | kernel/src/kernel/boot.c:739-783 | the chunks of one more region overlap an earlier one exactly if the region does |
| Untypeds.CutsTile | kernel/src/kernel/boot.c:739-783 | the chunks of any regions cover the same addresses as the regions, and are apart exactly if those are |
| Untypeds.UsefulApart | kernel/src/kernel/boot.c:775-779 | of chunks that do not overlap, neither do those large enough to be offered |
| Untypeds.OfferDeviceMemory | kernel/src/kernel/boot.c:787-817 | the regions offered are exactly the memory below the device top, or the last entry, that is not reserved, and are apart; it succeeds given slots |
| Untypeds.OfferGap | kernel/src/kernel/boot.c:790-817 | one more gap of the table is offered |
| Untypeds.OfferFreeMemory | kernel/src/kernel/boot.c:831-842 | every free region is cut completely and offered as ordinary memory, and its place in the list emptied; it succeeds given slots if the regions are in the window |
| Untypeds.CreateUntypeds | kernel/src/kernel/boot.c:785-849 | an address is in an offer exactly if it is device, reusable image or free memory, and offers and capabilities with the device flag hold device memory only, those without it image or free memory only; the capabilities are the offers large enough, as far as the list goes; two offers overlap exactly if some image or free memory is missing from the table and taken for device memory; in a sound state none is, and no capability overlaps another or the root server's block; the free list is emptied; it succeeds given slots if the regions are in the window |
| Untypeds.InitSound | kernel/src/kernel/boot.c:949-1090 | what the first step leaves is tidy, if the kernel image was reserved and nothing was reserved twice, and sound if besides the table lost nothing |
| Untypeds.BlockOffered | kernel/src/kernel/boot.c:785-849 | memory of the root server is offered exactly where it is missing from the table |
| Untypeds.OffersFlagged | kernel/src/kernel/boot.c:797-835 | every address offered with the device flag is device memory, and every one offered without is in the image or the free list |
| Untypeds.OfferInCut | kernel/src/kernel/boot.c:739-783 | every offer is a chunk of a region cut, with that region's flag |
| Untypeds.GrantedSelected | kernel/src/kernel/boot.c:664-722 | the capabilities are offers of an allowed size, aligned, and all of them while the list has places |
| Untypeds.DeviceEndExact | kernel/src/kernel/boot.c:790-817 | device memory is what the table lacks below the device top or below one of its entries |
| Untypeds.InitMemory | kernel/src/kernel/boot.c:785-1090 | end to end: it succeeds if the inputs pass the checks, the list has a place more than there are free regions, an aligned block has room, slots suffice and image and memory are in the window; the root server's block is at the highest place there is; then, if the kernel image was reserved and nothing was reserved twice, the offers are exactly device memory, reusable image and what is available less the reserved and the root server's, with the device flag on device memory only and without it on the others only, and they overlap exactly where the table lost an entry; if it lost none, no two capabilities overlap and none overlaps the root server's objects |
| BootExample.LostEntryOverlaps | kernel/src/kernel/boot.c:119-132 | a boot that succeeds, whose table has no room, and whose offers overlap |
| TaggedUnions.TaggedUnion.MakeClasses | kernel/tools/bitfield_gen.py:2229-2342 | works out offsets, masks and widths; accepts exactly unions whose masks lie in their fields, nest, and have no zero or duplicate where forbidden |
| TaggedUnions.ResolveTagValues | kernel/tools/bitfield_gen.py:1311-1321 | accepts exactly distinct names and values |
| TaggedUnions.CheckValue | kernel/tools/bitfield_gen.py:2164-2201 | accepts exactly values that fit, have all narrower masks and not their own |
| TaggedUnions.TaggedUnion.Resolve | kernel/tools/bitfield_gen.py:1323-1378 | accepts exactly unions that pass all checks for every block, base and size of the blocks included |
| TaggedUnions.CheckBlocks | kernel/tools/bitfield_gen.py:1343-1375 | accepts exactly blocks whose tag lies where it should, is in its class and low-aligned, and that agree in base and size |
| TaggedUnions.TaggedUnion.SetBase | kernel/tools/bitfield_gen.py:1387-1402 | accepts exactly unions whose tag fields lie in one word, and finds it |
| TaggedUnions.ReaderFindsTag | kernel/tools/bitfield_gen.py:462-471 | for every accepted union, block and word holding the block's tag, whatever its other bits, the emitted reader returns that tag |
| TaggedUnions.BlocksTellApart | kernel/tools/bitfield_gen.py:1311-1321 | no word holds the tags of two blocks |
| TaggedUnions.TagAlone | kernel/tools/bitfield_gen.py:2164-2172 | every accepted tag value fits its field, so a word with only the tag exists, and reads as it |
| TaggedUnions.MasksChain | kernel/tools/bitfield_gen.py:2316-2334 | comparing neighbours accepts exactly masks of which each includes all narrower ones and, but for the widest, more than them, from a first above zero |
| TaggedUnions.DeclaredMaskFits | kernel/tools/bitfield_gen.py:2279-2314 | a declared mask, moved to where its field lies, passes exactly if it has no more bits than the field |
| TaggedUnions.WithoutMasks | kernel/tools/bitfield_gen.py:2287-2306 | without declared masks exactly the unions with tags of one width pass |
| TaggedExample.UnionAccepted | kernel/tools/bitfield_gen.py:2229-2342 | a union with tags of two widths at different places that is accepted |
| TaggedExample.TagsRead | kernel/tools/bitfield_gen.py:462-471 | two of its words, and the tags the reader finds in them |
| BitSets.AndMask | kernel/tools/bitfield_gen.py:462-468 | masking and comparing tests for all bits of the mask |

## Left out

- Weak memory ordering and inter-processor interrupts in the lock: the wait is a plain spin under sequential consistency.
- Message registers, ASID, page-table and affinity checks, single stepping, and the exception fastpath: parameters of a thread (`validVTable`, `faulted`) or absent, as they depend on the architecture. The reply capabilities of the non-MCS kernel are absent.
- The highest ready priority is a constant of the fastpath model; scheduler and ready queues are not modelled.
- The heap of the fastpath is a map per kind of object: pointers cannot be of the wrong kind.
- nanopb callbacks, extensions, pointer fields, fixed-count and singular fields, fixed-length byte strings, default-value streams, float conversion and UTF-8 validation.
- DecoderCode.DecodeRecords: the destination structure is a value that is rebuilt, so what a failed decode leaves behind in it is not captured.
- RoundTrip.RoundTripExactly: for encodings below 2^63 bytes; `size_t` is otherwise unbounded, and a payload of 2^64 bytes or more is an encoding error.
- FieldIter: the addresses computed from offsets, and extension descriptors; 16-bit sizes as in the default configuration.
- Sizes.RoundTripSixteenBit: its condition is on the type alone; of types nested 4096 deep or more some messages are read back and some not, by the condition of `RoundTripExactly`.
- Padding: the size of a structure is the sum of its members, a lower bound of what a compiler lays out.
- The root server's objects are one block of the computed size; how it is divided is not modelled.
- clz32 and ctz32: the same rounds as the 64-bit ones, of which only the 64-bit forms are used.
- Words have 64 bits; the smallest and largest untyped sizes are parameters.
- Untypeds.CreateUntypeds: boot information is a list and the root CNode a number of free slots.
- Sliced tags, the comparing tag readers, high-aligned blocks beyond their rejection and all proof-text output of the bitfield generator.
- The HyperAMP queues, fastpath call boosting, signals, VM faults, scheduling and refills, system-call dispatch, and all configuration and documentation tools.
