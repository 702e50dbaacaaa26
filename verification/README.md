# tlsprint: the HTTP/2 stack and the ClientHello codec

This project models the hard parts of the forked HTTP/2 stack and of the TLS ClientHello codec in
Dafny 4.11 and proves properties of the model. `dafny verify dfyconfig.toml` checks all of it.

Where the program computes values, the model is functions and lemmas. Where it changes objects
step by step, the model is classes and methods with loops, and each method is proved against a
function on values or against the invariant it keeps. A panic that the program can reach is a
result of the method, with the exact condition for it. Four methods instead require what all
their callers establish, so that their panics are unreachable: `HeaderFieldTable.EvictOldest` (no
more entries than there are), `Links.SetParent` (not its own parent), `VarInt.ReadVarInt` (a prefix
of 1 to 8 bits) and `ServerConn.CloseStream` (a stream in the map; `WroteHandlerPanic`, the one
caller that does not look, answers the panic itself). Links between objects are described by
snapshots of the link fields, so that what keeps lists and rings intact is stated and proved on
values.

| part | files |
|---|---|
| HPACK (RFC 7541) | `VarInt`, `Huffman`, `HuffmanEncoder`, `HuffmanTrie`, `HuffmanDecoder`, `HuffmanTable`, `HuffmanCodes`, `HpackTables`, `HpackWire`, `HpackDecoder`, `HpackEncoder`, `HpackLockstep`, `HpackPrefix`, over `Bytes`, `Bits` and `Wrappers` |
| RFC 7540 priority tree | `PriorityModel`, `PriorityLinks`, `PriorityLife`, `PriorityScheduler`, over `Sequences` |
| write queues, round robin, RFC 9218 | `WriteQueue`, `SchedulerModel`, `QueueStore`, `Rings`, `StreamRings`, `RoundRobinModel`, `RoundRobin`, `UrgencyModel`, `UrgencyScheduler` |
| flow control and the serve loop | `Flow`, `ServerModel`, `Server` |
| framing, and header blocks end to end | `Frames`, `HeaderBlocks`, `Framer`, `HeaderLists`, `MetaHeaders` |
| request bodies | `DataBuffer`, `Pipe` |
| ClientHello and JA3 | `Hello`, `HelloCodec`, `Ja3Strings`, `Ja3`, `Ja3Codec` |

Where the code decides against what one would expect, the model follows the code and says so:

- HPACK: a gap that lowers the table size and raises it again makes the decoder refuse the next
  block if an entry survives the smaller size (`HpackLockstep.BlockDecodes` gives the exact
  condition, `HpackLockstep.ClashExample` an input). The limit setter does not lower the remembered
  smallest size, so the encoder's table is the newest part of the decoder's, not equal to it.
- RFC 7540 scheduler: a stream opened from idle stays in the idle list and can be driven out of
  the tree while open (`PriorityScheduler.EvictedWhileOpen`). `PriorityLife.OpenStreamLeaves` gives
  the exact condition; a stream that never was idle stays (`PriorityLife.SettledStays`). An
  identifier opened again while a list still holds its discarded node loses its place in the map
  (`PriorityScheduler.StaleEntryReached`); HTTP/2 never reuses identifiers.
- Server: octets that a handler reads from a body after its stream closed are credited twice
  (`ServeLoop.DoubleCredit`). `ServeLoop.ServerConn.Serve` gives the exact account; `inflow.add`
  panics exactly when that surplus lifts the window above 2^31-1.
- Server: the frame that reports a panicked handler closes its stream without asking whether the
  stream is still open. It is not written for a closed stream, but the stream can be closed while
  it is being written, and then the program panics (`ServeLoop.PanicAfterReset`).
- Client framing: a HEADERS frame with a fingerprint priority can be five octets larger than the
  peer's limit, which the peer then refuses (`HeaderBlocks.BlockRoundTrip`).
- Client framing: a fingerprint priority with an invalid dependency loses the HEADERS frame, and
  the CONTINUATION frames are written all the same (`Framers.HeadersLost`).
- Header lists: the limit is doubled in 32 bits. A limit of 2^31 refuses every block, one a little
  above it every first fragment longer than twice the excess (`MetaHeaders.HugeLimitRefuses`);
  `MetaHeaders.WholeListArrives` gives the exact condition for every limit.
- Frame order: a header block opened on stream 0 is not tracked
  (`HeaderBlocks.StreamZeroIsForgotten`).
- JA3: a profile keeps the last of repeated extensions, the direct derivation the first, and a
  profile forgets the legacy version (`Ja3.DerivationsAgree`).

## Model

| member | source | states |
|---|---|---|
| `VarInt.Append` | http2/hpack/encode.go:200-211 | appends exactly the reference encoding of the integer, for every prefix size |
| `VarInt.AppendGroups` | http2/hpack/encode.go:206-210 | the loop writes the seven-bit groups of the remainder, low group first |
| `VarInt.ReadVarInt` | http2/hpack/hpack.go:442-473 | the uint64 loop computes the unbounded reference reader: no addition or shift ever wraps |
| `VarInt.ReadContinuation` | http2/hpack/hpack.go:457-472 | the same for the loop over the continuation octets, with the accumulator reduced modulo 2^64 |
| `VarInt.ReadShape` | http2/hpack/hpack.go:434-473 | a successful read returns a value below 2^64 and a strict suffix of its input |
| `VarInt.ReadExtend` | http2/hpack/hpack.go:442-473 | more input never changes a value that was read or an overflow, only a request for more |
| `VarInt.ReadInvertsAppend` | http2/hpack/hpack.go:442-473 | reading inverts appending whatever type bits are set in the first octet, exactly for integers below 2^63 above the prefix; all others overflow |
| `Huffman.DecodeInvertsEncode` | http2/hpack/huffman.go:49-106 | decoding the encoding of any string gives the string if it is within the length limit, and the length error exactly if it is not, for every well-formed table |
| `Huffman.EncodeInvertsDecode` | http2/hpack/huffman.go:79-106 | every accepted input is the encoding of its result: the padding is forced |
| `Huffman.EncodeLength` | http2/hpack/huffman.go:220-226 | the computed length is the length of the encoding |
| `HuffmanEncoder.AppendHuffmanString` | http2/hpack/huffman.go:171-216 | the 64-bit buffer loop appends exactly the reference encoding |
| `HuffmanEncoder.PadAndFlush` | http2/hpack/huffman.go:189-216 | the pending bits are padded with ones to an octet boundary and written |
| `HuffmanTrie.BuildRoot` | http2/hpack/huffman.go:138-167 | the lookup tree has a leaf exactly where a code ends and an inner node exactly where one passes |
| `HuffmanTrie.Walk` | http2/hpack/huffman.go:147-157 | the loop for one symbol adds the inner nodes along its code and nothing else |
| `HuffmanTrie.Fill` | http2/hpack/huffman.go:158-165 | the loop sets the leaf at every octet that starts with the rest of the code |
| `HuffmanDecoder.HuffmanDecode` | http2/hpack/huffman.go:49-106 | the bit-buffer walk through the tree computes the reference decoder, with its length limit and all its errors |
| `HuffmanDecoder.Drain` | http2/hpack/huffman.go:60-77 | the inner loop consumes whole symbols while at least eight bits are buffered |
| `HuffmanDecoder.Close` | http2/hpack/huffman.go:79-106 | the loop for the last bits and the three padding checks accept exactly fewer than eight one bits |
| `HuffmanTable.ChainedIsWellFormed` | http2/hpack/tables.go:127-403 | a table whose neighbours in code order leave no gap up to EOS is prefix free, complete, and its padding is no symbol |
| `HuffmanCodes.HpackIsChained` | http2/hpack/tables.go:127-403 | the 256 codes and lengths of the program, checked neighbour by neighbour, are such a table |
| `HuffmanCodes.HpackTableIsWellFormed` | http2/hpack/tables.go:127-403 | the table of the program is well formed, so all of the above holds for it |
| `HpackTables.ScanNameNewest` | http2/hpack/tables.go:102-112 | the reference scan finds the newest entry with the name and misses none |
| `HpackTables.ScanPairNewest` | http2/hpack/tables.go:102-112 | the same for name and value |
| `HpackTables.HeaderFieldTable.AddEntry` | http2/hpack/tables.go:56-61 | appends the entry and keeps both maps on the newest matches |
| `HpackTables.HeaderFieldTable.EvictOldest` | http2/hpack/tables.go:64-87 | drops the n oldest entries and exactly the map entries that pointed to them |
| `HpackTables.HeaderFieldTable.SearchTable` | http2/hpack/tables.go:102-112 | the map lookups return what the linear scan returns: newest exact match, else newest name match, else 0 |
| `HpackTables.HeaderFieldTable.IdToIndex` | http2/hpack/tables.go:116-125 | every id in the maps is in range, so the panic is unreachable, and the index is the position from the newest entry (or in the static table) |
| `HpackTables.EvictLongest` | http2/hpack/hpack.go:180-187 | eviction keeps the longest suffix of the entries that fits |
| `HpackTables.DynamicTable.SetMaxSize` | http2/hpack/hpack.go:168-171 | sets the limit and evicts; size is the sum of the entry sizes and within the limit |
| `HpackTables.DynamicTable.Add` | http2/hpack/hpack.go:173-177 | adds the entry, then evicts; an entry larger than the table empties it; size is within the limit |
| `HpackTables.DynamicTable.EvictExcess` | http2/hpack/hpack.go:180-187 | the loop leaves exactly the suffix of the eviction rule |
| `HpackWire.ReprExtend` | http2/hpack/hpack.go:304-430 | one representation parsed from a prefix of the input parses the same from the whole |
| `HpackWire.WriteSplit` | http2/hpack/hpack.go:244-282 | writing two chunks equals writing their concatenation, unless the first leaves more octets than may be kept |
| `HpackWire.ChunkingDoesNotMatter` | http2/hpack/hpack.go:244-282 | however the input is cut into Write calls, the fields, the table, the first-field flag, the saved rest and the error are those of one call, if no call leaves more octets than may be kept |
| `HpackWire.UnlimitedIsRoomy` | http2/hpack/hpack.go:261-275 | without a string limit no call ever does |
| `HpackWire.AcceptedChunks` | http2/hpack/hpack.go:244-282 | under any string limit, Write calls that all succeed do exactly what one call with all octets does |
| `HpackDecoder.Decoder.At` | http2/hpack/hpack.go:196-212 | the entry of the static or dynamic table at an index, newest dynamic entry first |
| `HpackDecoder.Decoder.ReadString` | http2/hpack/hpack.go:479-502 | a string literal with its limit, or a request for more input |
| `HpackDecoder.Decoder.DecodeString` | http2/hpack/hpack.go:509-523 | the string of the reference decoder |
| `HpackDecoder.Decoder.CallEmit` | http2/hpack/hpack.go:399-409 | emits the field unless a string is too long or emission is off |
| `HpackDecoder.Decoder.ParseFieldIndexed` | http2/hpack/hpack.go:338-350 | the object computes the reference step for an indexed field |
| `HpackDecoder.Decoder.ParseFieldLiteral` | http2/hpack/hpack.go:353-397 | the object computes the reference step for the three literal forms |
| `HpackDecoder.Decoder.ParseDynamicTableSizeUpdate` | http2/hpack/hpack.go:412-430 | a size update is refused after a field with entries left or above the allowed size, else applied |
| `HpackDecoder.Decoder.ParseHeaderFieldRepr` | http2/hpack/hpack.go:304-335 | the dispatch on the first octet |
| `HpackDecoder.Decoder.Write` | http2/hpack/hpack.go:244-282 | the object computes the reference run on the saved rest followed by the new octets |
| `HpackDecoder.Decoder.ParseBuffer` | http2/hpack/hpack.go:261-281 | the loop over representations, with incomplete input saved |
| `HpackDecoder.Decoder.Close` | http2/hpack/hpack.go:235-242 | reports truncated input and readies the decoder for the next block |
| `HpackEncoder.AppendHpackString` | http2/hpack/encode.go:218-230 | the shorter of the plain and the Huffman form, with its length |
| `HpackEncoder.AppendTyped` | http2/hpack/encode.go:146-151 | an integer with its type bits in the first octet |
| `HpackEncoder.AppendNewName` | http2/hpack/encode.go:160-164 | a literal with a new name |
| `HpackEncoder.AppendIndexedName` | http2/hpack/encode.go:173-184 | a literal with an indexed name |
| `HpackEncoder.AppendTableSize` | http2/hpack/encode.go:188-193 | a table size update |
| `HpackEncoder.EncoderObject.SearchTable` | http2/hpack/encode.go:91-103 | the index of the static table, else of the dynamic table after it |
| `HpackEncoder.EncoderObject.AnnounceSizes` | http2/hpack/encode.go:53-60 | pending size updates, the smaller first, once |
| `HpackEncoder.EncoderObject.WriteField` | http2/hpack/encode.go:50-82 | the object writes the reference octets, as many as the writer takes, and reaches the reference state even when they do not arrive; an error exactly on a failed or short write |
| `HpackEncoder.EncoderObject.EncodeField` | http2/hpack/encode.go:51-76 | the octets of the size updates and the field are exactly the reference ones, and the table follows |
| `HpackEncoder.EncoderObject.SetMaxDynamicTableSize` | http2/hpack/encode.go:108-117 | the size within the limit, the smallest size of the gap remembered |
| `HpackEncoder.EncoderObject.SetMaxDynamicTableSizeLimit` | http2/hpack/encode.go:131-137 | a smaller limit shrinks the table; the remembered smallest size is not lowered |
| `HpackLockstep.StringRoundTrip` | http2/hpack/hpack.go:479-523 | a decoder reads back every string an encoder writes that is within its limit, and refuses every other |
| `HpackLockstep.FieldRoundTrip` | http2/hpack/encode.go:62-76 | a decoder whose newest entries are the encoder's parses the written field to that field and adds what the encoder added, emitting it or not; one that emits refuses it exactly when a string is over its limit |
| `HpackLockstep.FieldsRoundTrip` | http2/hpack/encode.go:50-82 | the same for any list of fields, sensitive ones included; of a list with a string over the limit exactly the fields before it are emitted |
| `HpackLockstep.BlockDecodes` | http2/hpack/hpack.go:412-430 | a block decodes to its fields, and encoder and decoder stay in step, except in three cases: two size updates are due and an entry survives the first, the last size is not allowed, or a string is over the limit; each gives its error and emits what came before |
| `HpackLockstep.SettersKeepSync` | http2/hpack/encode.go:108-137 | size and limit changes between blocks keep the encoder's entries the newest of the decoder's |
| `HpackLockstep.Lockstep` | http2/hpack/encode.go:50-137 | over every run of blocks and size changes the decoder fails exactly when some block is refused; it emits the encoded blocks in order, and without a refusal all of them, with the encoder's entries as its newest |
| `HpackLockstep.NoDipIsSmooth` | http2/hpack/encode.go:108-137 | no block is refused when at none the size was lowered below its final value before, the sizes announced are allowed and the strings within the limit |
| `HpackLockstep.LockstepFromStart` | http2/hpack/encode.go:35-60 | the same from a new encoder and a decoder with a table of at least 4096 and any string limit |
| `HpackLockstep.LockstepWithHpackTable` | http2/hpack/tables.go:127-403 | the same with the code table of the program and no assumption about it |
| `HpackLockstep.ClashExample` | http2/hpack/encode.go:55-59 | lowering to 100 and raising to 4096 with a small entry in the table makes the decoder refuse the next block |
| `HpackPrefix.FieldLength` | http2/hpack/encode.go:146-184 | an encoded field has at most as many octets as its size in the table, and no more than a decoder with a string limit keeps |
| `HpackPrefix.PartialField` | http2/hpack/hpack.go:261-281 | a part of an encoded field asks for more and is never too long to keep |
| `HpackPrefix.FieldsLeft` | http2/hpack/encode.go:146-184 | what is left of the octets of some fields is no longer than the sizes of the fields that have not ended |
| `HpackPrefix.BlockLeft` | http2/hpack/encode.go:50-82 | the same for a block with its size updates, with twice the sizes |
| `HeaderLists.TalliedExact` | http2/frame.go:1603-1638 | all fields are kept exactly when they are valid, pseudo fields come first and their 32-bit sizes together are within the limit |
| `HeaderLists.KeptIsLongest` | http2/frame.go:1603-1638 | what is kept of any list is its longest part from the start that is proper and within the limit; it counts as truncated exactly when the next field would have been proper |
| `HeaderLists.PseudoFields` | http2/frame.go:1541-1548 | the loop counts the pseudo fields that come first |
| `HeaderLists.CheckPseudos` | http2/frame.go:1550-1575 | the loops accept exactly the lists whose leading pseudo fields are known, pairwise different, and not of both a request and a response |
| `HeaderLists.SiftSplit` | http2/frame.go:1675-1677 | a call without an error, with emission switched off at whatever field, and the next call together do what one call does |
| `HeaderLists.SiftIsWrite` | http2/frame.go:1603-1638 | while all fields are kept, decoding with the callback is Write and the tally of what it emitted |
| `HeaderLists.FieldsSift` | http2/hpack/hpack.go:353-397 | any part of the octets of some fields decodes without an error to the tally of the fields that have ended, and the table follows the encoder also while emission is off |
| `HeaderLists.BlockSift` | http2/hpack/hpack.go:261-281 | the same for a block with its size updates |
| `MetaHeaders.FeedStep` | http2/frame.go:1643-1677 | a fragment is refused by size or after an invalid field, else it leaves decoder, saved octets and tally exactly as one call on the octets so far |
| `MetaHeaders.ReadMetaReads` | http2/frame.go:1589-1710 | reading the frames of any block, written by whomever, gives exactly the outcome that single calls on its parts decide |
| `MetaHeaders.EndToEnd` | http2/frame.go:1589-1710 | the exact outcome, for every limit, of a block with strings within the limit and table sizes that are not refused, encoded, cut into frames of any size, written, read back and decoded fragment by fragment: the whole list, a truncated one, a malformed one or an error |
| `MetaHeaders.AfterInSync` | http2/frame.go:1619-1632 | a list that was cut short or is malformed leaves encoder and decoder in step |
| `MetaHeaders.WholeListArrives` | http2/frame.go:1589-1710 | the list is received as a whole, with the same fields in order, exactly when its table sizes are not refused, its strings and sizes are within the limit, its fields are proper, each fragment is admitted at its turn and the first frame fits |
| `MetaHeaders.OrdinaryListArrives` | http2/frame.go:1654-1662 | with a limit below 2^31 the test of fragments refuses no proper list within the limit |
| `MetaHeaders.HugeLimitRefuses` | http2/frame.go:1654-1662 | a limit from 2^31 on loses 2^32 when doubled: a first fragment longer than what is left is refused; with 2^31 itself every block is |
| `MetaHeaders.MessagesArrive` | http2/frame.go:1589-1710 | whatever an encoder sends, with changes of its table size in between, one decoder reads all of it back in order, and nothing beyond, exactly when each message arrives as a whole |
| `MetaHeaders.OrdinaryMessagesArrive` | http2/frame.go:1589-1710 | with a limit below 2^31 and proper lists within it, exactly when no block is refused |
| `PriorityModel.MoveKeepsTree` | http2/writesched_priority_rfc7540.go:109-142 | moving a stream under one that does not depend on it keeps every chain of parents ending at stream 0 |
| `PriorityModel.ExclusiveKeepsTree` | http2/writesched_priority_rfc7540.go:365-379 | so does an exclusive move, although its loop may make a cycle on the way |
| `PriorityModel.ReprioritizeKeepsTree` | http2/writesched_priority_rfc7540.go:351-380 | so does every reprioritization, also under a stream's own descendant |
| `PriorityModel.ReprioritizeMeaning` | http2/writesched_priority_rfc7540.go:351-380 | section 5.3.3 of RFC 7540: the new parent, a former descendant moved to the former parent, an exclusive stream as only child with the former siblings below it, all else unchanged |
| `PriorityLinks.UnlinkKeepsLinked` | http2/writesched_priority_rfc7540.go:116-126 | the unlinking assignments keep all sibling lists doubly linked and take out exactly the node |
| `PriorityLinks.LinkKeepsLinked` | http2/writesched_priority_rfc7540.go:127-141 | the linking assignments put the node at the head of the new parent's list and keep all lists |
| `PriorityLinks.Links.SetParent` | http2/writesched_priority_rfc7540.go:109-142 | all lists stay linked both ways; the parent of the node, and the two lists concerned, change as said and nothing else does |
| `PriorityLinks.Links.Resort` | http2/writesched_priority_rfc7540.go:187-197 | detaching all children and linking them again in any other order keeps all lists linked, all parents, and the same children |
| `PriorityScheduler.Scheduler.constructor` | http2/writesched_priority_rfc7540.go:58-82 | a tree with stream 0 only |
| `PriorityScheduler.Scheduler.OpenStream` | http2/writesched_priority_rfc7540.go:257-286 | an idle stream opens in place, a new one as child of its pusher or of stream 0; panics exactly on a stream in the tree that is not idle; nodes, lists and states change exactly as in PriorityLife; the invariant is kept exactly when no list still holds a discarded node of that identifier |
| `PriorityScheduler.Scheduler.CloseStream` | http2/writesched_priority_rfc7540.go:288-310 | the stream is kept closed, driving out the oldest closed one when the list is full, or removed; panics exactly on stream 0 and on streams not open; states and lists change exactly as in PriorityLife; the linked nodes are exactly the nodes map and form a tree |
| `PriorityScheduler.Scheduler.AdjustStream` | http2/writesched_priority_rfc7540.go:312-381 | creates idle streams, driving out the oldest when full, and reprioritizes as in section 5.3.3, an unknown parent counting as stream 0; an exclusive stream ends as only child in the list; states and lists change exactly as in PriorityLife; tree and map as above |
| `PriorityScheduler.Scheduler.Reparent` | http2/writesched_priority_rfc7540.go:351-380 | search, move of a dependent parent, exclusive loop and final move together are the reprioritization |
| `PriorityScheduler.Scheduler.DependsOn` | http2/writesched_priority_rfc7540.go:357-363 | the walk up the parents finds the stream exactly when the parent depends on it |
| `PriorityScheduler.Scheduler.TakeSiblings` | http2/writesched_priority_rfc7540.go:365-377 | the exclusive loop, over a list it is changing, gives every other child to the stream |
| `PriorityScheduler.Scheduler.RemoveNode` | http2/writesched_priority_rfc7540.go:444-450 | the children go to the parent and the node leaves tree and map; a node removed before changes nothing |
| `PriorityScheduler.Scheduler.AddClosedOrIdleNode` | http2/writesched_priority_rfc7540.go:430-442 | appends to the list; the oldest of a full list leaves the tree |
| `PriorityScheduler.Scheduler.AddBytes` | http2/writesched_priority_rfc7540.go:144-149 | adds to the node and to the subtree count of every node it depends on, and to no other |
| `PriorityScheduler.Scheduler.Walk` | http2/writesched_priority_rfc7540.go:157-208 | the walk, which detaches and links children while it goes, keeps the tree and all parents, and finds a stream that can send below the node if there is one, none of whose ancestors can |
| `PriorityScheduler.Scheduler.Pop` | http2/writesched_priority_rfc7540.go:403-428 | serves nothing exactly when no stream in the tree can send, else one none of whose ancestors can; states, lists and parents stay, children are only reordered |
| `PriorityScheduler.Scheduler.Charge` | http2/writesched_priority_rfc7540.go:413-425 | the octets are counted and the throttle grows to at most 2^31-1 or is reset |
| `PriorityLife.StepIsOrderly` | http2/writesched_priority_rfc7540.go:257-349 | every call keeps the closed list on closed streams and all identifiers at or below the highest, an opening if no list names a discarded node of its identifier |
| `PriorityLife.OpenStreamLeaves` | http2/writesched_priority_rfc7540.go:288-349 | a call other than its own close takes an open stream out of the tree exactly when it makes a new stream idle while the idle list is full and starts with that stream; any other call leaves it open |
| `PriorityLife.OpenedIsSettled` | http2/writesched_priority_rfc7540.go:257-286 | a stream opened without having been idle is in no idle list |
| `PriorityLife.SettledStays` | http2/writesched_priority_rfc7540.go:257-381 | over every run such a stream keeps its node and stays open until its own close, which then does not panic |
| `PriorityLife.OpenedFromIdleLeaves` | http2/writesched_priority_rfc7540.go:259-264 | a stream opened from idle that does leave: two idle streams and a list for one |
| `PriorityScheduler.StaleEntryLosesStream` | http2/writesched_priority_rfc7540.go:430-450 | driving out a node that was discarded before takes the stream opened anew under its identifier out of the map but not out of the tree |
| `PriorityScheduler.Scheduler.RemoveStale` | http2/writesched_priority_rfc7540.go:444-450 | removing a discarded node whose identifier is in use again takes the new node from the map and leaves it in the tree |
| `PriorityLife.ReopenedIsListed` | http2/writesched_priority_rfc7540.go:257-310 | the calls after which a list names the former node of an open stream |
| `PriorityScheduler.StaleEntryReached` | http2/writesched_priority_rfc7540.go:430-450 | a run of the scheduler that gets there |
| `PriorityScheduler.ReprioritizedUnique` | http2/writesched_priority_rfc7540.go:351-380 | what a reprioritization asks is one definite tree |
| `PriorityScheduler.EvictedWhileOpen` | http2/writesched_priority_rfc7540.go:259-264 | a stream opened from idle can be driven out of the tree by the next idle stream, after which closing it panics |
| `Flow.AddAcceptsWhatFits` | http2/flow.go:113-120 | the wrap-around test accepts exactly the sums that are 32-bit numbers |
| `Flow.OutFlow.Available` | http2/flow.go:93-99 | the smaller of the stream's and the connection's window |
| `Flow.OutFlow.Take` | http2/flow.go:101-109 | takes from both windows in 32-bit arithmetic, or panics exactly when too little is available |
| `Flow.OutFlow.Add` | http2/flow.go:113-120 | adds exactly when the sum fits |
| `Flow.CreditedConserves` | http2/flow.go:33-53 | credit is announced or kept, never lost; the announced increment is exactly the growth of the window; little is kept back |
| `Flow.InFlow.Add` | http2/flow.go:33-53 | the window after a credit, and the increment to announce; panics exactly on a negative amount or above 2^31-1 |
| `Flow.InFlow.Take` | http2/flow.go:57-63 | takes exactly when the window allows it |
| `Flow.TakeInflows` | http2/flow.go:68-75 | takes from both windows or from neither |
| `Flow.WindowsStayBounded` | http2/server.go:1817-1843 | over every run a send window stays between the initial size less 2^31-1 and 2^31-1, whether a failed addition ends the run or is ignored |
| `Flow.ShrinkingNeverFails` | http2/server.go:1828-1841 | so a smaller initial size is applied in full and no 32-bit difference overflows |
| `Flow.SendSide.OpenStream` | http2/server.go:2207-2208 | a new stream starts with the initial window |
| `Flow.SendSide.CloseStream` | http2/server.go:1724-1724 | a closed stream is forgotten and never idle again |
| `Flow.SendSide.Take` | http2/flow.go:101-109 | sending takes the same amount from the stream and the connection |
| `Flow.SendSide.AwaitFlowControl` | http2/transport.go:2090-2102 | waits exactly while a window is exhausted, else takes the most that both windows, the request and the frame size allow; taking never panics |
| `Flow.SendSide.WindowUpdate` | http2/server.go:1656-1686 | the window grows; a stream or connection error exactly on overflow, a protocol error exactly on an idle stream; an update for a closed stream changes nothing |
| `Flow.SendSide.ServerInitialWindow` | http2/server.go:1817-1843 | every window moves by the difference, in any order of the map; an error exactly when one would overflow, never when shrinking |
| `Flow.SendSide.ClientInitialWindow` | http2/transport.go:2945-2963 | the same at the client, where a window that would overflow stays |
| `WriteQueues.ConsumeFrame` | http2/writesched.go:108-160 | nothing, the whole frame or a cut, as the windows and the frame size allow, and the windows charged |
| `WriteQueues.ServeKeepsContent` | http2/writesched.go:128-160 | what leaves a queue and what stays carry together what was in it: octets, then END_STREAM, then the reply to the writer |
| `WriteQueues.ServeCharges` | http2/writesched.go:117-160 | a chunk is within the stream window, the connection window, the limit and the frame size, and both windows drop by its size; other frames are free |
| `WriteQueues.WriteQueue.Push` | http2/writesched.go:214-216 | the two-stage queue behaves as one sequence: push appends |
| `WriteQueues.WriteQueue.Shift` | http2/writesched.go:218-229 | shift takes the first frame, or panics exactly on the empty queue |
| `WriteQueues.WriteQueue.ConsumeFirst` | http2/writesched.go:245-259 | consume serves the first frame, whole or in part |
| `SchedulerModel.StreamKeepsContent` | http2/writesched.go:202-259 | over every run of any scheduler, what was queued and pushed on an open stream is what was popped followed by what is queued |
| `SchedulerModel.EndStreamAfterAllOctets` | http2/writesched.go:130-151 | once END_STREAM was popped no octet of the stream is left |
| `SchedulerModel.WindowsPay` | http2/flow.go:101-109 | over every run both windows change by exactly what was granted less what was sent |
| `QueueStores.QueueStore.Push` | http2/writesched_roundrobin.go:80-97 | frames go to their stream's queue, others to the control queue; panics exactly on DATA for a stream not open |
| `QueueStores.QueueStore.Get` | http2/writesched.go:278-288 | an empty queue that no stream uses, from the pool or new |
| `QueueStores.QueueStore.DropQueue` | http2/writesched.go:264-275 | the stream's frames are forgotten and its queue goes back empty |
| `Rings.InsertedIsRing` | http2/writesched_roundrobin.go:45-56 | the assignments put the queue last in a ring linked both ways |
| `Rings.RemovedIsRing` | http2/writesched_roundrobin.go:64-73 | the assignments take one queue out of a ring, moving the head if need be |
| `Rings.InsertLast` | http2/writesched_roundrobin.go:45-56 | the same on the objects, other rings untouched |
| `Rings.Remove` | http2/writesched_roundrobin.go:64-73 | the same on the objects, other rings untouched |
| `StreamRings.Scan` | http2/writesched_roundrobin.go:107-118 | one turn round the ring serves the first stream that can send, or none exactly when none can |
| `RoundRobinModel.TurnKeepsRing` | http2/writesched_roundrobin.go:39-119 | the ring always holds exactly the open streams, each once |
| `RoundRobinModel.StuckOnlyWhenNothingReady` | http2/writesched_roundrobin.go:104-118 | Pop finds nothing exactly when no stream can send |
| `RoundRobinModel.BoundedWaiting` | http2/writesched_roundrobin.go:99-119 | a stream at distance d that stays able to send sees at most d frames of other streams, whatever opens or closes meanwhile |
| `RoundRobinModel.FairRunsAreRuns` | http2/writesched_roundrobin.go:39-119 | runs of this scheduler are runs, so contents and windows are preserved |
| `RoundRobinScheduler.Scheduler.OpenStream` | http2/writesched_roundrobin.go:39-57 | the stream joins at the end of the ring; panics exactly on an open stream |
| `RoundRobinScheduler.Scheduler.CloseStream` | http2/writesched_roundrobin.go:59-76 | the stream leaves the ring and its frames are dropped; unknown streams are ignored |
| `RoundRobinScheduler.Scheduler.Push` | http2/writesched_roundrobin.go:80-97 | one push of the model |
| `RoundRobinScheduler.Scheduler.Pop` | http2/writesched_roundrobin.go:99-119 | a control frame first, else a frame of the first stream that can send, after which the ring turns past it |
| `UrgencyModel.StepKeepsPartition` | http2/writesched_priority_rfc9218.go:58-224 | the sixteen rings always partition the open streams by current urgency and kind |
| `UrgencyModel.RunKeepsPartition` | http2/writesched_priority_rfc9218.go:58-224 | over every run |
| `UrgencyModel.PopServesLowestUrgency` | http2/writesched_priority_rfc9218.go:184-223 | no stream of a lower urgency number could send |
| `UrgencyModel.StuckOnlyWhenNothingReady9218` | http2/writesched_priority_rfc9218.go:184-223 | Pop finds nothing exactly when no stream can send |
| `UrgencyModel.ToggleDecides` | http2/writesched_priority_rfc9218.go:175-191 | when both kinds can send at the served urgency the toggle decides between them |
| `UrgencyModel.KindsAlternate` | http2/writesched_priority_rfc9218.go:175-191 | two consecutive Pops with both kinds able to send serve different kinds, whatever happens between |
| `UrgencyModel.NonIncrementalGoesOn` | http2/writesched_priority_rfc9218.go:202-212 | a non-incremental stream goes on being served while it can send |
| `UrgencyModel.UrgencyRunsAreRuns` | http2/writesched_priority_rfc9218.go:58-224 | runs of this scheduler are runs, so contents and windows are preserved |
| `UrgencyScheduler.Scheduler.OpenStream` | http2/writesched_priority_rfc9218.go:58-85 | the stream joins the ring of its priority, a buffered update for it taking precedence; panics exactly on an open stream |
| `UrgencyScheduler.Scheduler.CloseStream` | http2/writesched_priority_rfc9218.go:87-105 | the stream leaves its ring; unknown streams are ignored |
| `UrgencyScheduler.Scheduler.AdjustStream` | http2/writesched_priority_rfc9218.go:107-148 | the stream moves to the end of the ring of its new priority, or the update is buffered |
| `UrgencyScheduler.Scheduler.Push` | http2/writesched_priority_rfc9218.go:150-167 | one push of the model |
| `UrgencyScheduler.Scheduler.Pop` | http2/writesched_priority_rfc9218.go:169-224 | a control frame first, else the chosen stream's frame, with the toggle and the served ring updated |
| `ServerModel.ClosedStaysClosed` | http2/server.go:706-728 | along any steps of the life cycle a stream reported closed stays closed and none becomes idle again |
| `ServerModel.AheadTransitive` | http2/server.go:706-728 | steps of the life cycle compose |
| `ServeLoop.ServerConn.ProcessData` | http2/server.go:1845-1940 | the verdict on every frame, what it does to its stream, and what it costs the window; every branch keeps the credit, the counts and the life cycle, and none panics |
| `ServeLoop.ServerConn.Buffer` | http2/server.go:1906-1935 | both windows are charged, padding and discarded octets are given back |
| `ServeLoop.ServerConn.Discard` | http2/server.go:1878-1881 | a frame nobody will read costs no credit |
| `ServeLoop.ServerConn.EndStream` | http2/server.go:1961-1975 | the body is closed and the stream half closed by the client; only reached from open |
| `ServeLoop.ServerConn.ProcessHeaders` | http2/server.go:2008-2099 | the answer to every HEADERS frame and the streams after it: new streams only above all earlier ones and within the advertised limit, repeated headers are trailers |
| `ServeLoop.ServerConn.ProcessTrailers` | http2/server.go:2143-2171 | trailers are noted, and end an open stream if they are good; twice is a connection error |
| `ServeLoop.ServerConn.CloseStream` | http2/server.go:1707-1752 | the stream leaves the map and the count of its kind; what its body buffers is given back, and stays readable; panics exactly when that lifts the window above 2^31-1 |
| `ServeLoop.ServerConn.ResetStream` | http2/server.go:1511-1517 | the reset is noted on the stream if there is one |
| `ServeLoop.ServerConn.HandleResult` | http2/server.go:1553-1576 | stream errors reset exactly their stream; connection errors end the connection and close idle streams below |
| `ServeLoop.ServerConn.ProcessResetStream` | http2/server.go:1688-1705 | closes the stream; connection error exactly on an idle one |
| `ServeLoop.ServerConn.WroteEndStream` | http2/server.go:1363-1388 | an open stream is half closed with a reset queued, one half closed by the client is closed |
| `ServeLoop.ServerConn.WroteReset` | http2/server.go:1391-1395 | a written reset closes the stream if it is still there |
| `ServeLoop.ServerConn.WroteHandlerPanic` | http2/server.go:1396-1397 | closes the stream; panics exactly when it is closed already |
| `ServeLoop.ServerConn.StartHandlerPanic` | http2/server.go:1292-1340 | the frame of a panicked handler is begun on a stream that is not closed, one frame at a time |
| `ServeLoop.ServerConn.WrotePanicFrame` | http2/server.go:1396-1397 | when it is written its stream is closed; panics exactly when the stream was closed in between |
| `ServeLoop.PanicAfterReset` | http2/server.go:1396-1397 | request, panic of the handler, reset while the frame is being written: the program panics |
| `ServeLoop.ServerConn.HandlerRead` | http2/server.go:2555-2572 | octets leave the body and await their note; a read after the close of the stream is what makes credit exceed the grant |
| `ServeLoop.ServerConn.HandlerClose` | http2/server.go:2546-2553 | closing a body keeps what is unread charged |
| `ServeLoop.ServerConn.NoteBodyRead` | http2/server.go:2499-2507 | the connection, and a stream the client may still send on, get the octets back; panics exactly when that lifts the window above 2^31-1 |
| `ServeLoop.ServerConn.AllocatePromisedID` | http2/server.go:3192-3237 | a pushed stream gets the next even identifier, half closed by the client, or the push is refused |
| `ServeLoop.ServerConn.GoAway` | http2/server.go:1492-1504 | an error of the connection without a frame to blame |
| `ServeLoop.ServerConn.ReceiveData` | http2/server.go:1579-1603 | a DATA frame from the reader, also while going away: the verdict, the new record of its stream also after an error, the reset or the end of the connection, and the cost to the window |
| `ServeLoop.ServerConn.ReceiveHeaders` | http2/server.go:1579-1609 | a HEADERS frame from the reader: the answer, and all streams after it, whether it opens one, trails one or is refused |
| `ServeLoop.ServerConn.ReceiveReset` | http2/server.go:1579-1616 | a RST_STREAM frame from the reader: the stream is gone, its unread octets are given back and stay readable |
| `ServeLoop.ServerConn.Handle` | http2/server.go:981-1063 | one event of the loop or of a handler, resets asked for by handlers and refused frames of other types included, goes ahead in every life cycle and keeps the invariant; panics exactly on a credit above 2^31-1 or on the written panic frame of a stream that is gone |
| `ServeLoop.ServerConn.Serve` | http2/server.go:981-1063 | over every run of events up to the first panic, closed streams stay closed, none becomes idle again, and the credit is exactly the grant and what the run read from bodies of closed streams; while that is below 2^31 one thing ends the run: a panic frame begun on an open stream and written after the stream closed |
| `ServeLoop.WholeRun` | http2/server.go:706-728 | steps that go ahead one by one go ahead over the whole run |
| `ServeLoop.DoubleCredit` | http2/server.go:1734-1740 | request, ten octets, reset, late read: the window is ten octets larger than the grant |
| `DataBuffers.DataBuffer.Read` | http2/databuffer.go:80-103 | returns the oldest octets, as many as fit, and leaves the rest; an error exactly when empty |
| `DataBuffers.DataBuffer.Write` | http2/databuffer.go:118-136 | appends everything |
| `DataBuffers.DataBuffer.LastChunkOrAlloc` | http2/databuffer.go:138-149 | makes room without changing the contents |
| `DataBuffers.DataBuffer.AllocationBound` | http2/databuffer.go:13-18 | allocated chunks exceed the contents by at most 32 KiB |
| `Pipes.Pipe.Len` | http2/pipe.go:44-51 | what was written less what was read, also after close and break |
| `Pipes.Pipe.Read` | http2/pipe.go:55-78 | octets come in order; the error of a close only once all are read, the error of a break at once; the trailer function runs once |
| `Pipes.Pipe.Write` | http2/pipe.go:87-104 | all octets or none; none once the pipe is closed, broken or without buffer |
| `Pipes.Pipe.CloseWithError` | http2/pipe.go:122-145 | the first error stays; panics exactly without an error |
| `Pipes.Pipe.BreakWithError` | http2/pipe.go:122-145 | the first error stays; what is unread is only counted; panics exactly without an error |
| `Pipes.Pipe.SetBuffer` | http2/pipe.go:35-42 | no effect on a closed pipe; otherwise unread octets go with the buffer that held them |
| `Frames.RawRoundTrip` | http2/frame.go:241-253 | a written frame is read back, with nothing beyond it, exactly when the reader takes its size |
| `Frames.HeadersRoundTrip` | http2/frame.go:1062-1102 | HEADERS with any padding and priority parses to what was written |
| `Frames.DataRoundTrip` | http2/frame.go:639-671 | DATA with or without padding parses to its data |
| `Frames.PriorityFrameRoundTrip` | http2/frame.go:1227-1267 | PRIORITY parses to its parameters |
| `Frames.WindowUpdateRoundTrip` | http2/frame.go:994-1032 | WINDOW_UPDATE parses to its increment |
| `Frames.SettingsRoundTrip` | http2/frame.go:758-794 | SETTINGS parses to its settings in order, unless its first initial window size is too big |
| `HeaderBlocks.AcceptsContiguous` | http2/frame.go:583-616 | the frame-order automaton accepts exactly the sequences in which a block left open on a stream other than 0 is continued at once; these are the contiguous ones if none is left open on stream 0 |
| `HeaderBlocks.StreamZeroIsForgotten` | http2/frame.go:607-613 | a block on stream 0 escapes the automaton; the frame itself is refused |
| `HeaderBlocks.PiecesShape` | http2/transport.go:1843-1874 | HEADERS, then CONTINUATION only, END_HEADERS on the last only, payloads within the frame size, or five more on a HEADERS frame with priority |
| `HeaderBlocks.PiecesAccepted` | http2/write.go:164-186 | the automaton accepts the frames of every block |
| `HeaderBlocks.BlockRoundTrip` | http2/transport.go:1843-1874 | the written frames are read back and merged to the block; a reader with the same limit refuses it exactly when the priority does not fit the first frame |
| `Framers.Framer.EndWrite` | http2/frame.go:363-383 | the length is filled in and the frame written, unless it has 2^24 octets or more |
| `Framers.Framer.WriteHeaders` | http2/frame.go:1139-1174 | the HEADERS frame, or nothing for an invalid stream or dependency |
| `Framers.Framer.WriteContinuation` | http2/frame.go:1329-1340 | the CONTINUATION frame, or nothing for an invalid stream |
| `Framers.Framer.CheckFrameOrder` | http2/frame.go:583-616 | one step of the automaton |
| `Framers.Framer.WriteBlock` | http2/transport.go:1843-1874 | the loop writes exactly the frames of the block that are not refused, whatever the identifiers and sizes |
| `Framers.BlockWritten` | http2/transport.go:1843-1874 | on a valid stream, with a valid dependency and frames below 2^24 octets, these are all frames of the block |
| `Framers.InvalidStreamWritesNothing` | http2/transport.go:1843-1874 | on an invalid stream none |
| `Framers.HeadersLost` | http2/transport.go:1852-1871 | with an invalid dependency, or a priority that makes the first frame too large, all but the HEADERS frame |
| `Hello.ExtensionsRoundTrip` | hello/parse.go:161-173 | parsing extensions inverts printing them |
| `Hello.ParseExtensionsInverse` | hello/parse.go:161-173 | whatever parses is the print of its extensions |
| `Hello.BodyRoundTrip` | hello/parse.go:104-175 | parsing inverts marshalling for every hello that can be marshalled |
| `Hello.MarshalInvertsParse` | hello/build.go:13-53 | marshalling inverts parsing exactly on inputs with a cipher suite and either nothing after the compression methods or one extension block that is not empty and ends the input |
| `Hello.ParsedIsNoLonger` | hello/parse.go:104-175 | a parsed hello never prints longer than its input |
| `Hello.BodyIsSmall` | hello/build.go:13-53 | a body has between 40 and 131619 octets and starts with its version |
| `Hello.HandshakeRoundTrip` | hello/build.go:57-67 | the handshake message parses to the hello, whatever follows |
| `Hello.RecordRoundTrip` | hello/build.go:71-88 | the record parses to the hello and its record version |
| `Hello.ParseFindsRecordsAndHandshakes` | hello/parse.go:29-53 | the framing of records and handshake messages is detected |
| `Hello.ParseFindsBodies` | hello/parse.go:43-64 | a bare body is recognised exactly when neither its first octet nor its embedded length looks like framing |
| `Hello.ModernBodiesAreFound` | hello/parse.go:44-64 | with legacy version 0x0303 it always is |
| `HelloCodec.ParseBodyBytes` | hello/parse.go:104-175 | the slice-advancing parser computes the reference parser, errors included |
| `HelloCodec.ReadExtensions` | hello/parse.go:161-173 | the loop over the extension block |
| `HelloCodec.ReadU16s` | hello/parse.go:134-137 | the loop over a list of 16-bit numbers |
| `HelloCodec.MarshalBody` | hello/build.go:13-53 | an error exactly when a part is too long or there is no cipher suite, else the body |
| `HelloCodec.ExtBytesLen` | hello/build.go:90-96 | the length of the printed extensions |
| `HelloCodec.List16RoundTrip` | hello/ext.go:71-84 | decoding inverts encoding exactly for lists whose length fits two octets |
| `HelloCodec.List8RoundTrip` | hello/ext.go:101-114 | the same for supported versions and one octet |
| `HelloCodec.Bytes8RoundTrip` | hello/ext.go:87-98 | the same for point formats |
| `Grease.GreaseTable` | iana/grease.go:23-34 | the bit test accepts exactly the sixteen values of the table |
| `Grease.FilterIgnoresGrease` | ja3/ja3.go:152-166 | a GREASE value more or less does not change a filtered list |
| `Ja3Strings.ListRoundTrip` | ja3/ja3.go:179-197 | parsing a joined list gives the list |
| `Ja3.ParseFormat` | ja3/ja3.go:114-138 | parsing a JA3 string gives the version, the GREASE-free lists and the formats |
| `Ja3.FormatInjective` | ja3/ja3.go:99-111 | two JA3 strings are equal exactly when versions, GREASE-free lists and formats are |
| `Ja3.DerivationsAgree` | ja3/ja3.go:74-95 | the string of the extracted profile is the string of the hello exactly when the version is 0x0303 and repeated extensions agree |
| `Ja3.DistinctExtensionsAgree` | hello/extract.go:21-87 | so it is for every hello of that version with distinct extension types |
| `Ja3.ComputeIgnoresGreaseCipher` | ja3/ja3.go:74-81 | one GREASE cipher suite more or less, anywhere, does not change the string of a hello |
| `Ja3.ComputeIgnoresGreaseExtension` | ja3/ja3.go:74-81 | nor does a GREASE extension |
| `Ja3.ComputeIgnoresGreaseGroup` | ja3/ja3.go:74-81 | nor does a GREASE value among the supported groups |
| `Ja3.FromProfileIgnoresGrease` | ja3/ja3.go:83-95 | nor do GREASE values in any list of a profile |
| `Ja3Codec.JoinFiltered` | ja3/ja3.go:152-166 | the loop with its separator flag joins the filtered list |
| `Ja3Codec.ParseU16List` | ja3/ja3.go:179-197 | the loop computes the reference parser, errors included |
| `Ja3Codec.ExtractProfile` | hello/extract.go:21-87 | the loops compute the profile, a later extension of a type replacing an earlier one |

## Left out

- Flow.SendSide.Take: negative amounts, which would lift a window over its bound, are not modelled; no caller takes one, and Flow.OutFlow.Take covers them.
- Framers.Framer.WriteBlock: an error of the connection, which ends the loop, is not modelled.
- HpackWire.ChunkingDoesNotMatter: excludes calls that leave more octets than a decoder with a string limit keeps, because when that is reported depends on the chunks; HpackWire.AcceptedChunks covers every run without an error.
- MetaHeaders.EndToEnd: of a block that is refused or has a string over the limit it is only shown, in MetaHeaders.WholeListArrives, that the list is not received as a whole; which field names and values are valid is a parameter; int has 64 bits, so the string limit is the limit for the list.
- ServeLoop.ServerConn.ProcessData: frames that the program writes from within a step, when the connection is idle, are modelled as the next step.
- The static table of HPACK is a parameter; its entries and precomputed maps are not copied.
- Nodes of the Huffman lookup tree are named by the octets that lead to them, not by pointers; sharing and pooling of nodes is not modelled.
- Sizes of header fields in tables are natural numbers, not uint32; for the limit of header lists they are reduced to 32 bits.
- Bodies in the serve loop are counts of octets; their contents are modelled with the buffer and the pipe.
- Chunks of the data buffer are values; reuse of chunk memory is not modelled.
- PriorityScheduler.Scheduler.Pop: which streams can send is a parameter instead of their queues, and children of different weight may come in any order, because the comparison of byte counts is floating point.
- The random scheduler, which adds nothing but the iteration order of a map.
- Server: handlers, timers, settings other than the initial window, the h2c upgrade, graceful shutdown beyond dropping frames, and counting of control frames.
- Client: connection pool, request and response goroutines, receive windows, fingerprint settings.
- HTTP field validation, making requests of header lists, GOAWAY, PING and PUSH_PROMISE payloads.
- ClientHello: building a hello from a profile, and the decoders of key shares, SNI and ALPN, which are further length-prefixed lists.
- JA3 and JA4 hashes, JA4 strings, presets, the uTLS adapter, command line and proxy code.
