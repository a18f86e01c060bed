# A verified model of the reliable UDP stack's core

The repository is a game server with its own reliability layer over UDP.  This project
models, in Dafny, the parts where a slip in a mask, a counter or an order costs data, and
proves what they promise:

* the bit-level serializer: `appBitsCpy`, `BitWriter`, `BitReader` and the three integer codecs;
* the reliable channel: the builder that gathers messages into numbered bunches, the
  retransmission queue, the reorder buffer, the messages framed in a bunch, and all of it end
  to end over two connections;
* the packet assembly of a connection, with the ledger that leads acks and nacks from a
  packet back to its channels;
* the acknowledgements themselves: 14-bit sequence numbers, the 256-bit history of arrivals,
  the header that carries them, and `NetPacketNotify` with the queue of packets to dispatch at
  both ends of a network that loses, repeats and reorders packets;
* the two allocators: `MallocBinned` and `StompAllocator` in overrun mode.

`dafny verify dfyconfig.toml` checks the whole project.

## Files

| files | subject |
|---|---|
| Bits, BitCopy | bits of byte buffers; `appBitsCpy` against a bit-by-bit copy |
| MathUtility, BitCodec, PackedCodec | what the integer codecs write and read, as bit sequences |
| BitWriter, BitReader, BitStream | the two classes; whole streams of operations |
| BufferReader | message frames and their parser |
| BunchBuilder, BunchRuns | the builder; which pumped bunches travel and what becomes of the rest |
| OrderedMap, NetChannel, ReceiveRuns, SendRuns | the channel as a class, its receive side and its send side over runs |
| ChannelRecord, PacketAssembly, PacketFilling, NetConnection | the ledger, its coupling with the channels, what an assembly sends in which packet, the connection's send side |
| SequenceNumber, SequenceHistory, PackedHeader | wrapping numbers, the arrival history, the packed header word |
| AckProtocol, AckRuns, RecoveryRuns, FlushRuns | the notification protocol over plain counts; two ends over every run; which states recover; what a flush records |
| PacketHeader | the 80-bit header on the bit stream, and which headers can be read back |
| PacketNotify, NotifyRuns | the 14-bit implementation of that protocol; its windows, met in the runs |
| PendingPackets, DeliveryRuns | the queue of packets to dispatch; sent, dispatched, recorded and reported over every run |
| ChannelRuns, PrefixRuns | a channel end to end: sealed, assembled, sent, dispatched, received; how far its order holds |
| AlignTemplate, Regions, BinnedPool, MallocBinned, StompAllocator | the allocators |

Values that are shifted or masked are bit-vectors; values that are added or compared are
integers with the word size written out (`% 0x1_0000_0000`).  A bit-vector is never converted
from an integer.  Objects the program updates in place are classes; their methods are proved
against functions on values, and the lemmas are about those functions.  Iteration over a
`std::map` is by its least or greatest key.

## What the code does differently from what its names, comments and documents say

Where a promised property fails, the exact condition under which it holds is proved, and an
input or a run on which it does not.

* **More than 32 unconfirmed packets end a connection.**  The documents give the header up to
  eight history words.  The header buffer is 80 bits, of which 47 are taken before the history,
  so the writer takes one word (`OneWordAccepted`), and a header that announces two cannot be
  read (`ReadableIsRead`); its packet is ignored.  A packet that gets through tells its receiver
  everything recorded at the other end exactly when the history is at most 32 packets long, or
  there is nothing to tell (`RecoversIff`).  As the connection always acknowledges what it
  dispatches, an end takes in another packet of its peer, in some continuation, exactly when it is
  not deaf to it (`HearsAgainIff`): when one can still be read, or the peer can be told enough to
  shorten its history to 32 packets, or to move it on past nothing but losses.  That holds while
  nothing that would shorten the history runs into a flush, in particular before any flush
  (`UnflushedIsClear`).  From every state the end recovers exactly when the peer's history becomes
  short by what the end says alone, the peer sending nothing meanwhile (`OneWayIff`).  Deaf ends
  stay deaf (`DeafForever`).  Of n packets sent before the other end sends its first, nothing is
  ever heard in any continuation exactly when n is above 32 (`OneSidedIff`).  It takes no more
  than three packets that arrive before the first of them is dispatched, the second 290 after the
  first: the history moves on to the last two, older arrivals stay in its view, the dispatch comes
  too late, and their sender is deaf with no flush awaited (`BuriedRun`).
* **What is dispatched is not what is recorded as arrived.**  `ReceivedPacket` queues every
  readable packet, accepted or not, except an accepted one that meets a flush, and
  `DispatchPendingPacket` acknowledges only the packet taken in last (`RecordedIff`).  A packet
  taken in is recorded as arrived exactly when until the dispatch no other is taken in and no
  flush has recorded it as lost (`TakenInRecordedIff`).  Two packets that wait in one queue are both
  dispatched and the first is reported lost (`TogetherLost`); a packet that arrives after a later
  one has been dispatched is dispatched, alone in its queue, and stays lost (`OvertakenLost`).
  Their bunches are sent again, and every duplicate of a packet is dispatched again
  (`RepeatIsDispatched`): that is what feeds late bunches to the channels.  In the other
  direction the promise holds: what is reported delivered has been dispatched
  (`DeliveredWasDispatched`).
* **Late bunches stop the reorder buffer.**  `DispatchPacket` buffers every bunch that is not the
  next one, those already delivered included, so each late arrival makes the buffer stale
  (`LateIff`).  Then the drain loop stops for ever (`StaleForever`); a state keeps delivering
  everything contiguous exactly when no late bunch is buffered (`NeverStuckIff`).  Arrivals 1, 1,
  3, 2 leave bunch 3 stuck (`LateRepeatSticks`).
* **Very late bunches are delivered twice.**  The channel's order survives every network for 1023
  bunches (`PrefixUpTo1023`), and beyond as long as each bunch meets its channel within 512
  sequences (`ReceivedIsPrefix`).  With 1024, a repeat of the first that arrives after 577 is
  taken for the 1025th, and delivered again after the last (`DeliveredTwice`).
* **Malformed bunches deliver their front and hold the channel.**  The dispatch loop's comment
  promises all or nothing.  A malformed bunch hands out its whole frames first, so it delivers
  nothing exactly when its first frame is broken (`FailedDeliversNothingIff`, `HalfDelivered`).
  `bSkipAck` is never set, so its packet is acknowledged and its sender forgets the bunch, while
  the channel stands still exactly until that sequence arrives whole, handing out the front again
  each time it arrives malformed (`HeldUntilWhole`).
* **Nacks reverse packets.**  Each nack pushes its packet to the front of the queue, and the nacks
  of a header come in ascending order (`NackUpReverses`, `NotifyAllQueue`).  They keep the sending
  order exactly when no more than one packet is outstanding (`NackUpKeepsOrderIff`), and among
  acks exactly when at most one packet reported lost held bunches of the channel (`OrderKeptIff`);
  two lost packets are swapped (`TwoLostPackets`).  Forced retransmission keeps the order
  (`ForceIsNackDown`).
* **What does not fit a packet is lost, and its channel with it.**  The builder gathers up to 1176
  bytes, and drops a message above that, against its comment that a first insertion must succeed;
  the assembly throws away bunches above 1024 bytes and those without bytes; a packet has room for
  1014.  A list pumped tick by tick comes out at the other end as it was sent, arriving in order
  and once, exactly when no payload is above 1172 bytes and every bunch holds 1 to 1004 bytes
  (`PumpedArrivesIff`); for lists of fewer than 255 small messages, when together they have at
  most 1004 (`SmallListTravelsIff`).  Twenty messages of 51 bytes are one bunch of 1110, which is
  thrown away (`TwentyLost`); a message of 1177 leaves a bunch without messages (`LargeDropped`);
  a payload of 65532 bytes wraps its frame's 16-bit size to 0 (`LongestLost`, and `FramingIff` for
  encoder and parser alone).  A bunch of 1015 to 1024 bytes is recorded as sent and carried
  nowhere, and the ack for its packet makes the channel forget it (`CarriedIff`,
  `LargeBunchLost`, `SentIff`), so that of the bunches acknowledged the peer has got exactly those of up to
  1014 (`AckedReceivedIff`).  Each bunch that does not travel has taken a sequence: the receiving
  channel waits for it and never gets past it, whatever else arrives out of the 1024 sequences
  around it (`HeldByLostBunch`).
* `WriteIntWrapped` wraps to the value modulo the bound exactly for powers of two
  (`WrapsModuloMaxIff`); 5 with bound 5 comes back as 1 (`WrapIsNotModulo`).
* The four bits of the word count let a header announce up to 16 words, of which eight are stored;
  the reports stay inside those exactly when no more than eight are announced or no more than
  256 packets are reported on (`StaysInsideIff`).
* `Align` and `AlignDown` mask, and the mask takes off the remainder exactly for powers of two
  (`MaskRoundsIff`); 10 aligned down to 3 is 8 (`MaskOfThree`), and anything aligned down to 0 is
  0 (`AlignDownZero`), which makes `StompAllocator`'s pointer null although it computes sizes for
  alignment 0 (`PlacedNullIff`).  For other alignments up to a page its header is inside the
  region exactly when the mask leaves it room (`HeaderInsideIff`); 3063 bytes aligned to 514
  put it into the page before (`HeaderOutside`).
* `operator<` of sequence numbers is the negation of `operator>=`, so two numbers half a turn
  apart are each less than the other (`OrderIff`).
* The documents say that all history words are written while a flush is awaited; the number
  written always follows the history's length (`NetPacketNotify.WriteHeader`).
* `MallocBinned` does not look at alignments above 16 for pooled sizes: a pool's blocks have one
  exactly when it divides the block size and the pool's address (`AlignedIff`); the first block of
  a fresh pool of 16 is not a multiple of 32 (`FirstBlockOf16`).
* After a refused reservation `StompAllocator`'s cursor lies in addresses nobody reserved, and
  later requests are placed there; the system grants no pages for them, so they return null and
  all others stay apart (`StompAllocator.Malloc`).

## Model

| member | source | states |
|---|---|---|
| BitCopy.AppBitsCpy | Project/Core/src/BitReader.cpp:7-123 | for all offsets and counts, destination bit DestBit+j becomes source bit SrcBit+j for j < BitCount and every other bit stays; all accesses lie inside arrays that end with the last byte copied |
| BitCopy.CopyShort | Project/Core/src/BitReader.cpp:11-44 | the path for up to 8 bits, over one or two source and destination bytes, is the same bit-by-bit copy |
| BitCopy.CopyLong | Project/Core/src/BitReader.cpp:46-122 | the accumulator path, lead-in, loop and lead-out together, is the same bit-by-bit copy |
| BitCopy.LeadIn | Project/Core/src/BitReader.cpp:49-99 | the lead-in reads one or two source bytes, completes the first destination byte, and FullLoop equals DestLoop in both alignment cases |
| BitCopy.InnerStep | Project/Core/src/BitReader.cpp:101-108 | one turn of the loop extends the copied run by a byte and keeps the accumulator aligned |
| BitCopy.LeadOut | Project/Core/src/BitReader.cpp:110-122 | the lead-out reads one more source byte exactly when the remaining bits need it and leaves the bits behind the run alone |
| BitCopy.WriteByte | Project/Core/src/BitReader.cpp:101-122 | overwriting one byte extends a partial copy when that byte's bits are right |
| Bits.SameBitsSameBuffer | Project/Core/src/BitReader.cpp:7-123 | buffers are determined by their bits, so the copy's result is unique |
| MathUtility.CeilLogTwoExact | Project/Core/include/MathUtility.h:10-21 | CeilLogTwo(arg) is the least k with arg at most 2^k, for every 32-bit argument |
| BitCodec.MaskRounds | Project/Core/src/BitWriter.cpp:207-221 | the wrapping guard of the mask loops agrees with its unwrapped meaning in each round, and the mask is 0 after 32 rounds |
| BitCodec.IntRoundTrip | Project/Core/src/BitReader.cpp:245-270 | reading what the mask loop wrote yields its NewValue and uses exactly the bits written, whatever follows |
| BitCodec.IntResultIs | Project/Core/src/BitWriter.cpp:207-221 | after n rounds NewValue is the value modulo 2^n, below the bound, and the loop stops only when the next bit could reach the bound |
| BitCodec.IntLength | Project/Core/src/BitWriter.cpp:196-221 | the number of bits never exceeds CeilLogTwo(bound), which AllowAppend was asked for |
| BitCodec.ReadIntIs | Project/Core/src/BitReader.cpp:245-270 | for any bits and bound: the reader takes bits as long as the next one, if set, would stay below the bound, 32 at most, returns the number they spell, and sets the error exactly when they run out before that |
| BitCodec.SerializeIntRoundTrip | Project/Core/src/BitWriter.cpp:192-227 | the reader with the same bound gets min(value, bound-1), uses exactly the bits written, at most CeilLogTwo(bound) |
| BitCodec.WrappedRoundTrip | Project/Core/src/BitWriter.cpp:274-295 | read back: below the bound, the value modulo 2^n for the n bits written, and unchanged for values below the bound |
| BitCodec.WrapIsModulo | Project/Core/src/BitWriter.cpp:274-295 | for a bound of 2^m the result is the remainder and takes m = CeilLogTwo(bound) bits |
| BitCodec.WrapsModuloMaxIff | Project/Core/src/BitWriter.cpp:274-295 | the result is the value modulo the bound for every value if and only if the bound is a power of two |
| BitCodec.WrapIsNotModulo | Project/Core/src/BitWriter.cpp:274-295 | value 5, bound 5 is read back as 1 |
| PackedCodec.GroupsRoundTrip | Project/Core/src/BitWriter.cpp:229-272 | every word comes back from its 7-bit groups, the reader using exactly the groups written, at most five |
| PackedCodec.GroupsLength | Project/Core/src/BitWriter.cpp:233-246 | a value takes n groups or fewer exactly when nothing of it is left after n |
| PackedCodec.PackedRoundTrip | Project/Core/src/BitReader.cpp:272-311 | every 32-bit word comes back from its bits whatever follows; eight bits a group, one to five groups |
| PackedCodec.ReadGroupsIs | Project/Core/src/BitReader.cpp:286-311 | for any bytes: the reader takes them up to the first without the continuation bit, five at most, and sets the error exactly when they run out before that, returning what an empty group in their place would end |
| BitWriter.BitWriter.constructor | Project/Core/src/BitWriter.cpp:17-30 | an empty writer: nothing written, all bits zero, ceil(Max/8) bytes |
| BitWriter.BitWriter.Reset | Project/Core/src/BitWriter.cpp:36-47 | nothing written, all bits zero again |
| BitWriter.BitWriter.SerializeBits | Project/Core/src/BitWriter.cpp:69-95 | appends exactly the given bits when they fit, else changes nothing; the bits behind the content stay zero |
| BitWriter.BitWriter.SerializeBitsWithOffset | Project/Core/src/BitWriter.cpp:97-104 | the same from a bit offset in the source |
| BitWriter.BitWriter.Serialize | Project/Core/src/BitWriter.cpp:106-114 | the same for whole bytes |
| BitWriter.BitWriter.WriteBit | Project/Core/src/BitWriter.cpp:127-135 | appends one bit when it fits |
| BitWriter.BitWriter.SerializeInt | Project/Core/src/BitWriter.cpp:192-227 | appends the bits of the clamped value when CeilLogTwo(bound) bits fit, nothing for bounds below 2 |
| BitWriter.BitWriter.WriteIntWrapped | Project/Core/src/BitWriter.cpp:274-295 | appends the mask-loop bits of the unclamped value when CeilLogTwo(bound) bits fit |
| BitWriter.BitWriter.SerializeIntPacked | Project/Core/src/BitWriter.cpp:229-272 | appends the groups across byte boundaries when they fit; the or and add writes are exact because the bits were zero |
| BitWriter.HoldsSet | Project/Core/src/BitWriter.cpp:127-135 | setting the bit at Pos, by or as well as by add, appends a one |
| BitWriter.SameContentSameBuffer | Project/Core/src/BitWriter.cpp:137-152 | the content determines every byte, so a rejected append changes nothing in the buffer |
| BitReader.BitReader.constructor | Project/Core/src/BitReader.cpp:125-146 | holds the first CountBits bits of the source, the rest of the last byte masked to zero; all zero without a source |
| BitReader.BitReader.SerializeBits | Project/Core/src/BitReader.cpp:193-225 | hands out the next bits and advances; past the end it sets the error, hands out zeros and stays |
| BitReader.BitReader.SerializeBitsWithOffset | Project/Core/src/BitReader.cpp:227-243 | copies the next bits to a bit offset, or sets the error and leaves the destination alone |
| BitReader.BitReader.Serialize | Project/Core/src/BitReader.cpp:367-370 | the same as SerializeBits for whole bytes |
| BitReader.BitReader.ReadBit | Project/Core/src/BitReader.cpp:347-365 | the next bit, or 0 at the end without setting the error |
| BitReader.BitReader.SerializeInt | Project/Core/src/BitReader.cpp:245-270 | refines the codec's reader; on running out of bits the error is set and the partial value handed out |
| BitReader.BitReader.ReadInt | Project/Core/src/BitReader.cpp:328-335 | the same starting from 0 |
| BitReader.BitReader.SerializeIntPacked | Project/Core/src/BitReader.cpp:272-311 | refines the group reader bit by bit from any position |
| BitStream.OpRoundTrip | Project/Core/src/BitWriter.cpp:69-135 | each operation's bits, read with the same width or bound, give the expected value and exactly those bits, and fit the room asked for |
| BitStream.ReadInPlace | Project/Core/src/BitReader.cpp:193-311 | standing where the writer stood before operation i, the reader reads its value and moves to where the writer stood after it |
| BitStream.RoundTrip | Project/Core/src/BitReader.cpp:125-146 | any list of operations, those that do not fit rejected without effect, written and read back with the same widths and bounds: all values, positions equal after each operation, no error |
| BufferReader.BufferReader.ReadUint16 | Project/Core/include/BufferReader.h:11-54 | two bytes, or the error and no movement |
| BufferReader.BufferReader.ReadView | Project/Core/include/BufferReader.h:11-54 | the next bytes as a range, or the error and no movement |
| BufferReader.Parse | Project/Network/src/channel/NetChannel.cpp:167-200 | hands out exactly the frames of the specification and fails at the first that is not whole |
| BufferReader.FramesAre | Project/Network/src/channel/NetChannel.cpp:173-199 | any run of whole frames that ends at the count or at a broken frame is the run delivered |
| BufferReader.FramesRun | Project/Network/src/channel/NetChannel.cpp:173-199 | what is delivered is the longest run of whole frames up to the count; success exactly when the count is reached |
| BufferReader.FramingRoundTrip | Project/GameServer/service/NetworkService.h:71-97 | frames whose payloads are at most 65531 bytes, concatenated and parsed with their number, deliver their ids over consecutive ranges, wherever they start and whatever follows |
| BufferReader.LaidPayloads | Project/Network/src/channel/NetChannel.cpp:182-196 | each of those ranges holds the payload that was framed, back to back |
| BufferReader.FramingIff | Project/GameServer/service/NetworkService.h:71-97 | encoder against parser, with nothing in between: the frames of a list that the sender serializes, concatenated, are parsed back, number, ids and payloads, if and only if every payload is at most 65531 bytes |
| BunchBuilder.ChannelBunchBuilder.constructor | Project/Network/src/net_packet/NetBunchBuilder.cpp:6-16 | nothing gathered, queued or sealed |
| BunchBuilder.ChannelBunchBuilder.TryInsert | Project/Network/src/net_packet/NetBunchBuilder.cpp:119-134 | the message joins the active bunch when that has fewer than 255 and stays within 1176 bytes, else nothing changes |
| BunchBuilder.ChannelBunchBuilder.SealAndPush | Project/Network/src/net_packet/NetBunchBuilder.cpp:136-172 | the active messages become a bunch under the next sequence, wrapping at 32 bits, an empty one as well |
| BunchBuilder.ChannelBunchBuilder.PumpMessage | Project/Network/src/net_packet/NetBunchBuilder.cpp:35-45 | one message goes into the active bunch or, after sealing, a new one, and is dropped when that refuses it too; a full bunch is sealed |
| BunchBuilder.ChannelBunchBuilder.Pump | Project/Network/src/net_packet/NetBunchBuilder.cpp:23-65 | up to the batch limit the queued messages are pumped in order, and the tail is sealed when due or asked for |
| BunchBuilder.PumpKeeps | Project/Network/src/net_packet/NetBunchBuilder.cpp:23-65 | however messages are pumped, every bunch has at most 255 of them and 1176 bytes, its sizes are right, and the sequences are consecutive around the wrap |
| BunchBuilder.PumpGathers | Project/Network/src/net_packet/NetBunchBuilder.cpp:23-65 | every message of up to 1176 bytes goes into exactly one bunch, in order, and every other one into none |
| BunchBuilder.PumpNonEmpty | Project/Network/src/net_packet/NetBunchBuilder.cpp:35-40 | a sequence is given to a bunch without messages only when a message is above 1176 bytes |
| BunchBuilder.PumpFills | Project/Network/src/net_packet/NetBunchBuilder.cpp:23-65 | of two neighbouring bunches sealed by one pump, without messages above 1176 bytes, the first has 255 messages, or 1176 bytes, or more than that together with the first message of the second |
| BunchBuilder.OneBunchIff | Project/Network/src/net_packet/NetBunchBuilder.cpp:23-65 | messages of 1 to 1176 bytes, pumped from a builder with nothing gathered, make a single bunch if and only if there are at most 255 of them with at most 1176 bytes together |
| BunchBuilder.LargeSeals | Project/Network/src/net_packet/NetBunchBuilder.cpp:35-40 | a message above 1176 bytes seals what has been gathered, be it nothing, and is dropped |
| BunchBuilder.TwoGathered | Project/Network/src/net_packet/NetBunchBuilder.cpp:35-45 | messages of 600 and 300 bytes share a bunch of 910, and messages of 600 and 500 one of 1110 |
| BunchBuilder.TickedKeeps | Project/Network/src/channel/NetChannel.cpp:227-236 | the same over any number of ticks, from a builder with nothing active |
| BunchBuilder.AppendedIsSealed | Project/Network/src/channel/NetChannel.cpp:227-236 | what the ticks append to the channel's queue, one after the other, is what the pumps have sealed in all, in order |
| BunchBuilder.EachOnce | Project/Network/src/net_packet/NetBunchBuilder.cpp:136-172 | no two of up to 2^32 bunches are the same |
| BunchRuns.FramesDelivered | Project/Network/src/channel/NetChannel.cpp:167-200 | a bunch of whole frames is whole when it arrives and hands out each of them |
| BunchRuns.ArrivesAtMost | Project/Network/src/channel/NetChannel.cpp:122-154 | over any arrivals no more messages are received than the bunches announce |
| BunchRuns.PumpedArrivesIff | Project/Network/src/channel/NetChannel.cpp:227-236 | a list of any length, pumped by 256 messages a tick with the tail sealed each time, from a builder with nothing active, assembled and received in order and once, is received as it was sent if and only if every payload is at most 1172 bytes and every sealed bunch is one the assembly carries |
| BunchRuns.HeldByLostBunch | Project/Network/src/net_packet/NetBunchBuilder.cpp:136-171 | a channel that waits for the sequence of a bunch that does not travel never gets past it, whatever bunches within 1024 of it arrive, in any order and repeatedly |
| BunchRuns.SmallListTravelsIff | Project/Network/src/connection/NetConnection.cpp:113-147 | fewer than 255 messages of at most 172 bytes, pumped together, all travel if and only if they have at most 1004 bytes together |
| BunchRuns.TwentyLost | Project/Network/src/connection/NetConnection.cpp:119-123 | twenty messages of 51 payload bytes make one bunch of 1110 bytes, which is thrown away |
| BunchRuns.LargeDropped | Project/Network/src/net_packet/NetBunchBuilder.cpp:35-40 | a message above 1176 bytes leaves one bunch, without messages, which is thrown away |
| BunchRuns.LongestLost | Project/GameServer/service/NetworkService.h:74-96 | a payload of 65532 bytes leaves a frame of no bytes and a bunch that is thrown away |
| NetChannel.NetChannel.AddUnAckedOutBunch | Project/Network/src/channel/NetChannel.cpp:47-61 | records the bunch under its packet, or refuses and closes when RELIABLE_BUFFER packets wait; never more than RELIABLE_BUFFER |
| NetChannel.NetChannel.Acked | Project/Network/src/channel/NetChannel.cpp:73-76 | forgets the packet's bunches |
| NetChannel.NetChannel.Nacked | Project/Network/src/channel/NetChannel.cpp:78-96 | the packet's bunches go to the front of the queue in their order |
| NetChannel.NetChannel.ForceRetransmitAllUnAcked | Project/Network/src/channel/NetChannel.cpp:98-120 | all unacknowledged bunches, in ascending packet order, before the old queue |
| NetChannel.NetChannel.DequeueReadyBunch | Project/Network/src/channel/NetChannel.cpp:156-165 | the front of the queue, if any |
| NetChannel.NetChannel.TickFlush | Project/Network/src/channel/NetChannel.cpp:227-236 | up to 256 queued messages are pumped to the last one, and every bunch sealed moves to the end of the queue in order |
| NetChannel.NetChannel.AddUnreadInCopyBunch | Project/Network/src/channel/NetChannel.cpp:63-71 | buffers a bunch unless its sequence is buffered already |
| NetChannel.NetChannel.DispatchRawBunch | Project/Network/src/channel/NetChannel.cpp:122-154 | dispatches the bunch and drains the reorder buffer as the specification says, for well-formed and malformed bunches |
| ReceiveRuns.ReceiveBunch | Project/Network/src/connection/NetConnection.cpp:657-700 | the connection's choice between dispatching and buffering, on the channel object; an unreliable bunch is dispatched as it comes |
| ReceiveRuns.RelativeExactIff | Project/Network/src/connection/NetConnection.cpp:15-23 | for all uint32 sequences and counts, MakeRelative gives the sequence back exactly when it is within -512 to 511 of InReliable |
| ReceiveRuns.AliasIsDispatched | Project/Network/src/connection/NetConnection.cpp:661-692 | a bunch 1024 ahead of the next one is dispatched as the next one |
| ReceiveRuns.InOrderExactlyOnce | Project/Network/src/channel/NetChannel.cpp:122-154 | well-formed bunches arriving in any order, repeated and late ones included: what was delivered is at all times the concatenation of bunches first+1 to InReliable, each once and in order, and a bunch arrived exactly if it is delivered or buffered |
| ReceiveRuns.DrainMaximal | Project/Network/src/channel/NetChannel.cpp:135-153 | without late bunches in the buffer draining takes out exactly the contiguous run that follows InReliable, up to and with the first malformed bunch, and leaves everything else as it was |
| ReceiveRuns.DrainHandsOut | Project/Network/src/channel/NetChannel.cpp:133-153 | draining hands out the messages of the bunches it passes, in order, and then the whole frames of the malformed one that ends them, if any |
| ReceiveRuns.FirstCopyKept | Project/Network/src/channel/NetChannel.cpp:63-71 | whatever arrives, what waits under a sequence is the copy buffered first |
| ReceiveRuns.BufferAhead | Project/Network/src/channel/NetChannel.cpp:128-153 | reorder-buffer invariant: without late arrivals every buffered sequence stays above InReliable+1, malformed bunches included |
| ReceiveRuns.LateIff | Project/Network/src/connection/NetConnection.cpp:676-684 | an arrival puts an already delivered sequence into a clean buffer exactly when it is late |
| ReceiveRuns.DispatchDrainsIff | Project/Network/src/channel/NetChannel.cpp:135-153 | the next bunch is left waiting after a dispatch exactly when it was buffered and a late bunch is buffered too |
| ReceiveRuns.StaleForever | Project/Network/src/connection/NetConnection.cpp:676-684 | a late bunch never leaves the buffer and from then on only bunches arriving in turn are delivered |
| ReceiveRuns.NeverStuckIff | Project/Network/src/connection/NetConnection.cpp:676-684 | everything contiguous is delivered in every continuation without late arrivals if and only if no late bunch is buffered |
| ReceiveRuns.LateRepeatSticks | Project/Network/src/connection/NetConnection.cpp:676-684 | arrivals 1, 1, 3, 2 leave bunch 3 in the buffer although it is next |
| ReceiveRuns.FailedDeliversNothingIff | Project/Network/src/channel/NetChannel.cpp:172-199 | a malformed bunch delivers nothing exactly when its first frame is broken |
| ReceiveRuns.HalfDelivered | Project/Network/src/channel/NetChannel.cpp:172-199 | a bunch of five bytes that announces two messages and holds one is malformed and delivers the one |
| ReceiveRuns.HeldUntilWhole | Project/Network/src/channel/NetChannel.cpp:122-154 | over any arrivals, InReliable moves on if and only if one taken for the bunch in turn is whole; until then what is received is what the malformed arrivals in turn hand out, each time again, and nothing else |
| ReceiveRuns.InTurnIff | Project/Network/src/connection/NetConnection.cpp:15-23 | an arrival is taken for the bunch in turn if and only if its sequence agrees with the next one modulo 1024 |
| ReceiveRuns.HeldBehind | Project/Network/src/channel/NetChannel.cpp:122-154 | a channel never gets past a sequence that nothing agrees with modulo 1024, whatever else arrives |
| SendRuns.StepConserves | Project/Network/src/channel/NetChannel.cpp:47-61 | each step keeps every bunch in exactly one of queue, sender's hands, unacknowledged, acknowledged, refused, and at most RELIABLE_BUFFER packets waiting |
| SendRuns.RunConserves | Project/Network/src/channel/NetChannel.cpp:73-120 | the same over every run of flushes, dequeues, sends, acks, nacks and forced retransmissions |
| SendRuns.ForceIsNackDown | Project/Network/src/channel/NetChannel.cpp:98-120 | forced retransmission is Nacked on every outstanding packet from the highest id down |
| SendRuns.NackUpReverses | Project/Network/src/channel/NetChannel.cpp:78-96 | nacks from the lowest id up leave the packets in reverse order |
| SendRuns.NackUpKeepsOrderIff | Project/Network/src/channel/NetChannel.cpp:78-120 | where packets can be told apart by their last bunch, nacks from the lowest id up leave the channel as forced retransmission does if and only if no more than one packet is outstanding |
| SendRuns.RunDistinguishable | Project/Network/src/channel/NetChannel.cpp:47-61 | in every run in which the bunches handed over are numbered as the builder numbers them the packets can be told apart |
| SendRuns.TwoLostPackets | Project/Network/src/channel/NetChannel.cpp:78-120 | two lost packets: order kept by forced retransmission, reversed by two nacks |
| SendRuns.NackTwice | Project/Network/src/channel/NetChannel.cpp:78-96 | a second nack for the same packet changes nothing |
| ChannelRecord.DecodeFlatten | Project/Network/src/connection/ChannelRecord.h:12-20 | the flat tagged queue decodes to the list of packet groups it was made of |
| ChannelRecord.ConnectionChannelRecord.PushPacketId | Project/Network/src/connection/ChannelRecord.cpp:3-11 | opens a group for the packet unless it is the last one pushed |
| ChannelRecord.ConnectionChannelRecord.PushChannelRecord | Project/Network/src/connection/ChannelRecord.cpp:13-19 | adds the channel to the packet's group; for a packet consumed already the raw entry is appended all the same |
| ChannelRecord.ConnectionChannelRecord.Consume | Project/Network/src/connection/ChannelRecord.h:27-59 | removes exactly the front group when it is the packet's and reports its channels with equal neighbours collapsed; any other packet is refused and changes nothing |
| ChannelRecord.CollapseCovers | Project/Network/src/connection/ChannelRecord.h:44-57 | every channel written is reported and nothing else |
| ChannelRecord.CollapseAlternates | Project/Network/src/connection/ChannelRecord.h:44-57 | no two reports in a row name the same channel |
| ChannelRecord.CollapseNext | Project/Network/src/connection/ChannelRecord.h:44-57 | one entry more makes one report more, unless it repeats the one before it |
| ChannelRecord.OrphanIff | Project/Network/src/connection/ChannelRecord.cpp:13-19 | a push breaks the record for ever exactly when its packet is the last pushed and everything has been consumed |
| PacketAssembly.BunchAdds | Project/Network/src/connection/NetConnection.cpp:140-147 | recording a bunch with ledger and channel and appending it keeps every packet carrying exactly the fitting bunches recorded under its id |
| PacketAssembly.PacketOpens | Project/Network/src/connection/NetConnection.cpp:82-88 | opening a packet puts it on the ledger once, also when its id stands there already |
| PacketAssembly.PacketSeals | Project/Network/src/connection/NetConnection.cpp:130-138 | sealing a packet frees the next id, under which nothing is recorded |
| PacketAssembly.NotifyTwice | Project/Network/src/connection/NetConnection.cpp:304-308 | reporting a packet to a channel a second time, or to one that holds nothing for it, changes nothing |
| PacketAssembly.OnlyReported | Project/Network/src/connection/ChannelRecord.h:44-57 | a channel not among those reported for the front packet holds nothing for it |
| PacketAssembly.NotifiedIdle | Project/Network/src/connection/NetConnection.cpp:296-347 | once all channels are notified the front packet comes off the ledger and the coupling holds |
| PacketAssembly.SendKeepsFlow | Project/Network/src/connection/NetConnection.cpp:140-147 | sending the head of the queue under the newest packet keeps the order of what the channel still has to get across |
| PacketAssembly.ForceKeepsFlow | Project/Network/src/channel/NetChannel.cpp:98-120 | forced retransmission keeps that order |
| NetConnection.NetConnection.constructor | Project/Network/src/connection/NetConnection.cpp:510-541 | the coupled start state after InitSequence |
| NetConnection.NetConnection.HandlePacketNotification | Project/Network/src/connection/NetConnection.cpp:240-264 | a report with the next number acks or nacks that packet on every channel exactly once; one with another number is counted and changes nothing else |
| NetConnection.NetConnection.Received | Project/Network/src/connection/NetConnection.cpp:296-347 | for the packet in turn the ledger never refuses, and reporting its channels, some repeatedly, acks or nacks that packet on every channel exactly once |
| NetConnection.NetConnection.HandleReports | Project/Network/src/connection/NetConnection.cpp:240-268 | all reports that ProcessReceivedAcks makes for one header, one after the other, on every channel |
| NetConnection.ReportsConserve | Project/Network/src/connection/NetConnection.cpp:296-347 | a channel loses exactly the bunches of packets reported delivered; those of packets reported lost are queued again |
| NetConnection.NotifyAllUnacked | Project/Network/src/connection/NetConnection.cpp:296-347 | nothing is left waiting for a packet reported on and all else waits as before |
| NetConnection.NotifyAllQueue | Project/Network/src/connection/NetConnection.cpp:240-264 | after acks and nacks in any mixture the lost packets stand in front of the old queue, the last one lost first, each in its own order |
| NetConnection.OrderKeptIff | Project/Network/src/connection/NetConnection.cpp:240-264 | a header's reports leave the lost bunches in sending order if and only if at most one packet reported lost held bunches of the channel |
| NetConnection.NetConnection.ForceRetransmitAll | Project/Network/src/connection/NetConnection.cpp:270-282 | every channel's unacknowledged bunches go back to its queue, the order kept and the coupling intact |
| NetConnection.NetConnection.TickFlush | Project/Network/src/channel/NetChannel.cpp:227-236 | the coupling survives new bunches |
| NetConnection.NetConnection.MakeRoom | Project/Network/src/connection/NetConnection.cpp:125-138 | the open packet when its size and the bunch's together are at most 1024, nothing else changing; otherwise an empty one under the next id, and only then the open one is sealed |
| NetConnection.NetConnection.Place | Project/Network/src/connection/NetConnection.cpp:141-147 | unless 512 packets wait on the channel, which closes the connection, the bunch is recorded last with the ledger and the channel under the open packet's id and joins it if it fits |
| NetConnection.NetConnection.SendNext | Project/Network/src/connection/NetConnection.cpp:113-147 | the head of a queue without messages or above 1024 bytes is thrown away, and ledger, unacknowledged bunches, ids and packets stay as they were; any other is recorded last under exactly one id, that of the open packet when it has room, else the next |
| NetConnection.NetConnection.SendRound | Project/Network/src/connection/NetConnection.cpp:104-149 | one round from any starting channel empties every queue |
| NetConnection.NetConnection.SendKeepAlive | Project/Network/src/connection/NetConnection.cpp:63-78 | a header-only packet with the next id, on the ledger without channels |
| NetConnection.NetConnection.AssembleOutgoingPackets | Project/Network/src/connection/NetConnection.cpp:59-167 | unless the connection closes: if an open channel has anything queued, all queues end empty, closed channels' too, and what is not thrown away is recorded channel by channel, in order, once, under ids that go on by one exactly when the packet before has no room for the next bunch; the new packets are those ids' bunches of up to 1014 bytes; if none has, nothing changes and nothing is sent but a due keepalive |
| NetConnection.NetConnection.IsRequireAssembleBunch | Project/Network/src/connection/NetConnection.cpp:169-180 | true exactly when some open channel has anything queued |
| PacketFilling.FilledUp | Project/Network/src/connection/NetConnection.cpp:130-138 | a packet is sealed only when its size and that of the first bunch under the next id together exceed 1024, so that no two neighbouring packets could have been one |
| PacketFilling.OneIsEnough | Project/Network/src/connection/NetConnection.cpp:130-138 | what fits one packet is sent in one |
| PacketFilling.ContentsAre | Project/Network/src/connection/NetConnection.cpp:59-167 | the packets of an assembly carry every bunch recorded of up to 1014 bytes, once and in the order in which they were recorded |
| PacketFilling.SentIff | Project/Network/src/connection/NetConnection.cpp:113-147 | of the bunches queued, an assembly carries exactly those that have messages and at most 1014 bytes |
| NetConnection.CarriedIff | Project/Network/src/net_packet/NetPacketBuilder.cpp:10-27 | a recorded bunch travels in its packet exactly when it is at most 1014 bytes, and the ack makes the channel forget it either way |
| NetConnection.LargeBunchLost | Project/Network/src/connection/NetConnection.cpp:113-147 | a bunch of 1015 to 1024 bytes is recorded in flight, its packet carries nothing, and the ack leaves nothing of it |
| SequenceNumber.DiffIs | Project/Network/src/sequence/SequenceNumber.h:103-112 | the two shifts compute the signed difference modulo 2^14, between -8192 and 8191 |
| SequenceNumber.GreaterIsPositive | Project/Network/src/sequence/SequenceNumber.h:32-33 | greater exactly for a positive difference, greater or equal exactly for one not negative |
| SequenceNumber.OrderIff | Project/Network/src/sequence/SequenceNumber.h:42-49 | of two different numbers exactly one is less, except half a turn apart, where both are |
| SequenceNumber.Window | Project/Network/src/sequence/SequenceNumber.h:28-33 | less than half a turn apart, wrapped numbers compare and subtract like the counts |
| SequenceHistory.SequenceHistory.AddDeliveryStatus | Project/Network/src/sequence/SequenceHistory.h:83-98 | the 256-bit history moves on by one packet across its eight words, the oldest dropping out |
| SequenceHistory.AllShifted | Project/Network/src/sequence/SequenceHistory.h:83-98 | shifting each word with the carry of the one before shifts the whole bit sequence |
| PackedHeader.PackRoundTripIff | Project/Network/src/sequence/NetPacketNotify.cpp:17-31 | the three parts are read back exactly when each fits its field |
| PacketHeader.OneWordAccepted | Project/Network/src/net_packet/NetPacketBuilder.h:5-30 | of the operations that write a header the 80-bit writer takes the fixed part and the first history word, 79 bits, and rejects all further words |
| PacketHeader.ReadableIsRead | Project/Network/src/sequence/NetPacketNotify.cpp:106-120 | a header with the history it announces is read back without an error if and only if it has one word, which is when the writer has rejected nothing; the rule Readable of the protocol is this |
| PacketHeader.AnnouncedIsWritten | Project/Network/src/sequence/NetPacketNotify.cpp:17-31 | numbers and a count of one to eight words come back from the packed word as written |
| AckRuns.ReportsAreRecorded | Project/Network/src/sequence/NetPacketNotify.cpp:193-247 | over every run of a network that loses, repeats and reorders, flushes included, what was reported to an end, each own packet once and in order, is what the other end recorded |
| AckRuns.StepKeeps | Project/Network/src/sequence/NetPacketNotify.cpp:193-247 | each send, arrival and dispatch keeps the two ends' invariant |
| AckRuns.WordsSuffice | Project/Network/src/sequence/NetPacketNotify.cpp:149-161 | what the history written leaves out the peer knows, or it was lost |
| AckRuns.ReportsPrefix | Project/Network/src/sequence/NetPacketNotify.h:105-158 | the reports a header gives rise to are the statuses it was written from |
| AckRuns.NewlyKnown | Project/Network/src/sequence/NetPacketNotify.cpp:163-191 | what an end newly takes for known its peer has been told |
| AckRuns.NothingUnacknowledged | Project/Network/src/sequence/NetPacketNotify.cpp:249-260 | when the history moves on only losses are forgotten |
| AckRuns.ReadableIff | Project/Network/src/net_packet/NetPacketBuilder.h:5-30 | the header an end writes can be read exactly while its unconfirmed history is at most 32 packets long |
| AckRuns.DeadForever | Project/Network/src/sequence/NetPacketNotify.cpp:106-120 | once an end has recorded more than 32 unconfirmed packets, one arrived, and no readable header is left, nothing is ever reported again |
| AckRuns.RecoversIff | Project/Network/src/sequence/NetPacketNotify.h:105-158 | in every reachable state, a packet sent and received with nothing in between tells its receiver all that the sender has recorded if and only if the history is at most 32 packets long or there is nothing to tell |
| AckRuns.OneSidedRun | Project/Network/src/sequence/NetPacketNotify.cpp:73-104 | the state after n packets from one end, each received and dispatched, and none from the other is reached by a run, for any n, flush included |
| AckRuns.OneSidedIff | Project/Network/src/sequence/NetPacketNotify.cpp:73-104 | for any n: of n packets sent before the other end sends its first, nothing is reported in any continuation if and only if n is above 32 |
| RecoveryRuns.DeafForever | Project/Network/src/sequence/NetPacketNotify.cpp:106-120 | from a deaf state on no packet of the peer is taken in, in any continuation in which what is dispatched is acknowledged, flushes included |
| RecoveryRuns.HearsAgainIff | Project/Network/src/sequence/NetPacketNotify.cpp:193-247 | for every reachable state in which what would shorten the peer's history can be said without running into a flush: some continuation, what is dispatched being acknowledged as the connection does, takes in another packet of the peer if and only if the state is not deaf, that is, one can be read, or something that can still be said shortens the history enough, or moves it on with nothing but losses in view |
| RecoveryRuns.UnflushedIsClear | Project/Network/src/sequence/NetPacketNotify.cpp:207-233 | that is so in every reachable state with no flush awaited and at most 256 packets unconfirmed |
| RecoveryRuns.OneWayIff | Project/Network/src/sequence/NetPacketNotify.cpp:193-247 | for every reachable state, flushes or not: some continuation takes in another packet of the peer if and only if one can be read, or the peer's history becomes short enough for a header by one-way traffic alone, the peer sending nothing and nothing of it being heard |
| RecoveryRuns.BuriedRun | Project/Network/src/connection/NetConnection.cpp:349-375 | a run from the start: ten packets of an end, one answer, and three more packets, taken in and not dispatched yet, leave that end deaf to its peer with no flush awaited, and no continuation in which dispatches are acknowledged recovers it |
| RecoveryRuns.DeadIsDeaf | Project/Network/src/sequence/NetPacketNotify.cpp:106-120 | the dead ends are among the deaf states |
| PacketNotify.NetPacketNotify.constructor | Project/Network/src/sequence/NetPacketNotify.cpp:40-52 | the numbers stand for the start of the counts |
| PacketNotify.NetPacketNotify.Ack | Project/Network/src/sequence/NetPacketNotify.cpp:278-288 | packets up to the one nearest to InAckSeq with that number are recorded as lost, the last as said, for every number |
| PacketNotify.NetPacketNotify.CurrentSequenceHistoryLength | Project/Network/src/sequence/NetPacketNotify.cpp:149-161 | at most 256; the length of the unconfirmed history as counted when its ends are less than half a turn apart |
| PacketNotify.NetPacketNotify.HasUnacknowledgedAcks | Project/Network/src/sequence/NetPacketNotify.cpp:249-260 | whether a packet of the unconfirmed history arrived |
| PacketNotify.NetPacketNotify.WriteHeader | Project/Network/src/sequence/NetPacketNotify.cpp:73-104 | one to eight history words and the last number acknowledged; in the window the notification stands for the header of the protocol, with as many words as its history needs |
| PacketNotify.NetPacketNotify.CommitAndIncrementOutSeq | Project/Network/src/sequence/NetPacketNotify.cpp:54-71 | after a header is written its entry joins the record, with what was acknowledged then, and the next number is free; before that nothing changes |
| PacketNotify.NetPacketNotify.GetSequenceDelta | Project/Network/src/sequence/NetPacketNotify.cpp:122-147 | never negative; in the window positive exactly for a newer packet that acknowledges nothing unsent and takes nothing back, and then how much newer |
| PacketNotify.NetPacketNotify.UpdateInAckSeqAck | Project/Network/src/sequence/NetPacketNotify.cpp:163-191 | drops the entries up to the packet acknowledged and returns what it carried, or the fallback |
| PacketNotify.NetPacketNotify.ReportAcks | Project/Network/src/sequence/NetPacketNotify.h:120-147 | one call for each own packet up to the one acknowledged, in order, lost beyond the history sent; also for headers that announce more words than are stored, as long as the reports stay inside |
| PacketNotify.StaysInsideIff | Project/Network/src/sequence/NetPacketNotify.h:123-147 | the reports look only at the eight stored words if and only if no more than eight are announced or at most 256 packets are reported on |
| PacketNotify.NetPacketNotify.ProcessReceivedAcks | Project/Network/src/sequence/NetPacketNotify.h:105-158 | refines the protocol step with 14-bit numbers |
| PacketNotify.NetPacketNotify.InternalUpdate | Project/Network/src/sequence/NetPacketNotify.cpp:193-247 | refines taking in, flushing and moving the history on, which FlushRuns states in numbers; the result is how far InSeq moved |
| FlushRuns.TakenIn | Project/Network/src/sequence/NetPacketNotify.cpp:193-215 | with no flush awaited, a packet that fits is taken in and nothing else changes; one beyond the history that finds only losses in view makes everything before it known |
| FlushRuns.FlushFills | Project/Network/src/sequence/NetPacketNotify.cpp:193-240 | a packet beyond the history, with an arrival among the n packets unconfirmed, starts a flush unless one is awaited, and losses are recorded up to InAckSeqAck + 256 - n exactly when that is at or beyond InSeq; otherwise nothing moves |
| FlushRuns.FlushCountsLost | Project/Network/src/sequence/NetPacketNotify.cpp:218-240 | during a flush any other packet is recorded as lost with all before it |
| FlushRuns.FlushRun | Project/Network/src/sequence/NetPacketNotify.cpp:193-240 | a run from the start: ten packets dispatched, 290 lost, and packet 300 makes the receiver record losses up to packet 245, and is not queued |
| FlushRuns.AcceptedIff | Project/Network/src/sequence/NetPacketNotify.cpp:122-147 | in every reachable state a packet is acceptable if and only if it is newer than the last one taken in and acknowledges no less than has been reported |
| FlushRuns.WordsAre | Project/Network/src/sequence/NetPacketNotify.cpp:73-104 | the words announced are the fewest, from one to eight, that hold the packets unconfirmed |
| PacketNotify.NetPacketNotify.Update | Project/Network/src/sequence/NetPacketNotify.h:91-103 | the whole step for a received header refines the protocol's |
| NotifyRuns.ArrivalInWindow | Project/Network/src/sequence/NetPacketNotify.h:91-103 | in every reachable state of two ends, a header that arrives meets all windows that Update asks for, as long as the oldest and the newest packet still counted are less than half a turn apart; its reports stay inside the stored words when it can be read |
| NotifyRuns.FirstPacketsInWindow | Project/Network/src/sequence/NetPacketNotify.h:91-103 | so for the first 8190 packets of each end, whatever the network does |
| PendingPackets.PendingDispatch.ReceivedPacket | Project/Network/src/connection/NetConnection.cpp:217-294 | every readable packet joins the queue, repeated and overtaken ones included, except an accepted one that meets a flush; the notifications move on exactly for accepted ones |
| PendingPackets.PendingDispatch.DispatchPendingPacket | Project/Network/src/connection/NetConnection.cpp:349-375 | all packets in the queue are dispatched in order, and if there are any the one taken in last is acknowledged |
| PendingPackets.RecordedIff | Project/Network/src/connection/NetConnection.cpp:349-375 | dispatching any queue records the packet taken in last, if it is not recorded yet, and no other |
| PendingPackets.AllRecordedIff | Project/Network/src/connection/NetConnection.cpp:349-375 | all packets of a queue come out recorded as arrived exactly when each is that packet or was recorded as arrived before |
| DeliveryRuns.DeliveredWasDispatched | Project/Network/src/connection/NetConnection.cpp:217-294 | over every run of two connections, a packet reported delivered to its sender has been handed to DispatchPacket at the other end |
| DeliveryRuns.TakenInRecordedIff | Project/Network/src/connection/NetConnection.cpp:349-375 | a packet just taken in stays queued until it is dispatched, and is then recorded as arrived if and only if by then no other has been taken in and no flush has recorded it as lost |
| DeliveryRuns.RepeatIsDispatched | Project/Network/src/connection/NetConnection.cpp:237-292 | in every reachable state a readable packet received before or overtaken is queued again, and nothing else changes |
| DeliveryRuns.TogetherLost | Project/Network/src/connection/NetConnection.cpp:349-375 | a run from the start: packets 0 and 1 in one queue are both dispatched, and reported as lost and delivered |
| DeliveryRuns.OvertakenLost | Project/Network/src/connection/NetConnection.cpp:217-294 | a run from the start: packet 0 arrives after 1 has been dispatched, is dispatched alone, and stays recorded as lost |
| DeliveryRuns.RepeatedRight | Project/Network/src/connection/NetConnection.cpp:217-294 | a run from the start: packet 0 arrives twice, is dispatched twice, and is recorded as arrived |
| ChannelRuns.ReceivedIsPrefix | Project/Network/src/connection/NetConnection.cpp:657-700 | over every run of two connections that loses, repeats and reorders packets, with each bunch meeting its channel within 512 sequences: what a reliable channel has received are the messages of the bunches up to InReliable, each once and in order, a prefix of what the peer has sealed |
| ChannelRuns.ShortRunIsNear | Project/Network/src/connection/NetConnection.cpp:657-700 | no more than 511 bunches ever meet their channel further away |
| ChannelRuns.AckedReceivedIff | Project/Network/src/connection/NetConnection.cpp:140-147 | of the bunches recorded under a packet reported delivered, the peer's channel has delivered or buffered exactly those that leave room for the packet header |
| ChannelRuns.OneDelivered | Project/Network/src/connection/NetConnection.cpp:59-167 | a run: one bunch handed over, assembled, sent, received and dispatched |
| PrefixRuns.PrefixUpTo1023 | Project/Network/src/connection/NetConnection.cpp:657-700 | over every run of up to 1023 bunches, however late and often packets arrive: what the channel has received are the messages of the bunches up to InReliable, each once and in order |
| PrefixRuns.ListReceived | Project/Network/src/connection/NetConnection.cpp:657-700 | so for a list of messages within 1172 payload bytes, pumped tick by tick into up to 1023 bunches, what has been received is at all times a prefix of the list |
| PrefixRuns.DeliveredTwice | Project/Network/src/connection/NetConnection.cpp:15-23 | for any 1024 bunches that fit, 64 to a packet: a run from the start, in which packet 0 arrives once more after the tenth, delivers all of them and the first a second time |
| AlignTemplate.AlignIs | Project/Core/include/AlignTemplate.h:4-9 | for powers of two the masked sum is the least multiple from the value on |
| AlignTemplate.AlignDownIs | Project/Core/include/AlignTemplate.h:11-16 | for powers of two the masked value is the greatest multiple up to the value |
| AlignTemplate.MaskRoundsIff | Project/Core/include/AlignTemplate.h:11-16 | clearing the bits of alignment - 1 takes off the remainder, for every value, if and only if the alignment is a power of two |
| AlignTemplate.MaskOfThree | Project/Core/include/AlignTemplate.h:11-16 | 10 aligned down to 3 is 8 |
| AlignTemplate.AlignDownZero | Project/Core/include/AlignTemplate.h:11-16 | alignment 0 masks every 64-bit value to 0 |
| BinnedPool.BlockSizesOk | Project/Core/include/MallocBinned.h:22-29 | the 41 sizes increase, are multiples of 16 and fit a pool at least twice |
| BinnedPool.FirstThatFits | Project/Core/src/MallocBinned.cpp:18-24 | the first class that fits is the smallest block size that holds the request |
| BinnedPool.BlocksApart | Project/Core/src/MallocBinned.cpp:83-91 | two blocks of a pool are the same or apart |
| BinnedPool.PoolBaseIsMask | Project/Core/src/MallocBinned.cpp:54-59 | the mask of Free finds the multiple of 64 KB up to the address |
| BinnedPool.AlignedIff | Project/Core/src/MallocBinned.cpp:32-48 | for every alignment: all blocks of a pool have it exactly when it divides the pool's address and the block size; up to 64 KB it always divides the address of a pool when it is a power of two |
| BinnedPool.FirstBlockOf16 | Project/Core/src/MallocBinned.cpp:83-110 | the first block handed out for 16 bytes is 16 past a multiple of 32 |
| BinnedPool.NewPoolOk | Project/Core/src/MallocBinned.cpp:83-91 | the free list of a new pool holds each block once |
| BinnedPool.PoolInfo.constructor | Project/Core/src/MallocBinned.cpp:74-91 | a new pool with all its blocks free |
| BinnedPool.PoolInfo.Pop | Project/Core/src/MallocBinned.cpp:101-111 | the block freed last becomes live, or null from an exhausted pool; free plus live stays the block count |
| BinnedPool.PoolInfo.Push | Project/Core/src/MallocBinned.cpp:68-70 | a live block goes to the front of the free list |
| MallocBinned.MallocBinned.FindTable | Project/Core/src/MallocBinned.cpp:18-24 | the smallest class that holds the size, none exactly above 32768 |
| MallocBinned.MallocBinned.AllocatePool | Project/Core/src/MallocBinned.cpp:73-98 | registers a pool under its base and at the head of its class |
| MallocBinned.MallocBinned.MallocSmall | Project/Core/src/MallocBinned.cpp:42-47 | the front of the first pool's free list, or a block of a new pool when the first pool has none, older pools not looked at |
| MallocBinned.MallocBinned.Malloc | Project/Core/src/MallocBinned.cpp:32-48 | one more allocation of at least the size asked for, in a best-fit block or a region of its own, 16-aligned, null only when the system refuses a large request |
| MallocBinned.MallocBinned.Free | Project/Core/src/MallocBinned.cpp:50-71 | exactly this allocation ends; a block goes to the front of its own pool's free list, a region back to the system, null is ignored |
| MallocBinned.MallocBinned.AllocatedApart | Project/Core/src/MallocBinned.cpp:32-111 | in every valid state any two live allocations share no byte |
| MallocBinned.MallocBinned.MaskFindsOwner | Project/Core/src/MallocBinned.cpp:54-59 | masking a live block's address finds its own pool, where it is live, not free, 16-aligned and large enough |
| MallocBinned.MallocBinned.LargeHasNoPool | Project/Core/src/MallocBinned.cpp:54-65 | masking the address of a large region never finds a pool |
| MallocBinned.MallocBinned.FreePlusLive | Project/Core/src/MallocBinned.cpp:84-91 | FreeBlockCount is the free list's length, and free plus live blocks are 65536 / BlockSize |
| StompAllocator.Placement | Project/Core/src/StompAllocator.cpp:33-40 | for every size and power-of-two alignment: pointer aligned, header inside the region, data ending at or before the guard page, at it exactly when the guard's start is a multiple of the alignment, always for alignments up to a page |
| StompAllocator.HeaderFits | Project/Core/src/StompAllocator.cpp:80-88 | above a page, rounding down costs at most the gap set aside |
| StompAllocator.CommittedBeforeGuard | Project/Core/src/StompAllocator.cpp:83-90 | the pages to be committed start with the header's, inside the region, and end with the data, at or before the guard page |
| StompAllocator.PlacedNullIff | Project/Core/src/StompAllocator.cpp:83-83 | the pointer is null exactly for alignment 0 |
| StompAllocator.HeaderInsideIff | Project/Core/src/StompAllocator.cpp:80-88 | for any alignment up to a page, power of two or not, the header is inside the region, wherever that starts, if and only if the mask leaves it its 32 bytes |
| StompAllocator.HeaderOutside | Project/Core/src/StompAllocator.cpp:80-88 | 3063 bytes aligned to 514 in pages of 4096: the pointer stands 8 bytes into the region |
| StompAllocator.NextRegion | Project/Core/src/StompAllocator.cpp:42-58 | the region at the cursor, as far as its block reaches, is apart from all earlier ones |
| StompAllocator.GrantedInItsBlock | Project/Core/src/StompAllocator.cpp:60-107 | a request whose pages the system grants lies in the reserved block it starts in, also one larger than a block |
| StompAllocator.StompAllocator.TakeRegion | Project/Core/src/StompAllocator.cpp:41-58 | the region starts at the cursor while the block has room, else at a new block; a refused reservation leaves the cursor at the size asked for |
| StompAllocator.StompAllocator.Malloc | Project/Core/src/StompAllocator.cpp:17-107 | every call, after refusals, for any size and for alignment 0: the regions of all successful calls stay apart and inside reserved blocks, headers stay as written, null exactly when the system refuses the reservation or the pages, and always for alignment 0 |

## Left out

- BitStream.RoundTrip: `SerializeString`, `ProtobufSerialize`, the string operators and `ResetData` are not among the operations; they do not follow the bit-stream discipline.
- BitCopy.AppBitsCpy: bit positions are unbounded; the program casts them to int32, so buffers stay below 2^31 bits, and source and destination do not overlap.
- BunchBuilder.ChannelBunchBuilder.Pump: one thread; the clock is a parameter that says whether the tail is due; sizes are those of the sending service, 16 bits, so the 32-bit sum of two never wraps, and the policy is the one both channels set.
- BunchRuns.PumpedArrivesIff: for fewer than 2^32 bunches, the wrap of the sequence; every message of the list is queued when its tick comes; loss and reordering are ChannelRuns'.
- BufferReader.FramingIff: `SerializeToArray` is a parameter, the payload bytes, and refuses payloads from 65536 bytes on, so those send nothing and are not among the frames; what lies behind the bytes allocated is not modelled.
- ReceiveRuns.InOrderExactlyOnce: sequences stay below 2^32 and within 512 of InReliable, which `RelativeExactIff` shows is what MakeRelative needs; the wrap of the uint32 counter itself is not modelled.
- ReceiveRuns.ReceiveBunch: the bunch header's other fields, unknown channels and `UpdateChannelSeq` (which empties a channel) are not modelled.
- NetConnection.NetConnection.AssembleOutgoingPackets: channels are values in a sequence, not shared objects, and none is null; the clock and the driver are a parameter that says whether a keepalive is due; ids stay below 2^31, and nothing is promised once the connection has closed.
- NetConnection.NetConnection.HandleReports: the reports of one header have consecutive numbers from the next packet on, as ReportAcks makes them; a number out of step is the other case of HandlePacketNotification.
- ChannelRecord.ConnectionChannelRecord.PushChannelRecord: ids and channels are below 2^31, as the 31-bit field requires, and packet ids do not decrease; what a broken queue does afterwards is OrphanIff.
- AckRuns.ReportsAreRecorded: packets are counted without wrap-around and bSkipAck may be set; PacketNotify carries the steps over to 14-bit numbers, and NotifyRuns says for which runs.
- ChannelRuns.ReceivedIsPrefix: requires bunches to meet their channel within 512 sequences, without which it fails, see PrefixUpTo1023 and DeliveredTwice.  One channel in one direction; the bytes of headers between a packet and its bunches are not repeated, and the reliable buffer has room, as the connection closes otherwise.  Messages are whole frames within 1172 payload bytes; for others see PumpedArrivesIff and HeldUntilWhole.
- RecoveryRuns.HearsAgainIff: a condition on the state alone only where nothing that would shorten the history runs into a flush; for the other states see OneWayIff.  Continuations acknowledge what they dispatch; bSkipAck, which the connection never sets, is not used in them.
- PacketHeader.ReadableIsRead: the width of the magic number is configured; one bit, the default, is assumed.  With up to two bits one history word fits, never two.
- PacketNotify.NetPacketNotify.Update: requires what is compared to lie less than half a turn apart, as the number type's own documentation does; ArrivalInWindow says when it does.  Headers are values, bRefresh is false as in every call, and the words on the bit stream are PacketHeader's.
- PacketNotify.NetPacketNotify.ProcessReceivedAcks: requires the same window; outside it a number stands for another packet than the one meant.
- PacketNotify.NetPacketNotify.InternalUpdate: requires the same window.
- MallocBinned.MallocBinned.Malloc: sequential; locks and atomics are not modelled, `_aligned_malloc` is a parameter that answers with a fresh aligned region, and never null for a pool (asserted by the program).
- MallocBinned.MallocBinned.Free: only live pointers are freed, each once, and null.
- StompAllocator.StompAllocator.Malloc: the system is a parameter: it reserves blocks of 1 GB apart from each other and never in the first gigabyte of addresses, and commits pages only inside one reserved block.  Sizes near 2^64, where the sums wrap, and the check value in the header are not modelled.  Nothing is promised for alignments that are neither 0 nor a power of two, whose headers can lie in another region, see HeaderInsideIff and HeaderOutside.
- StompAllocator underrun mode, Free and page protection: operating-system behaviour.
- The buffers that messages are released from, round-trip times, telemetry and logging.
- Sockets, completion ports, timers, jobs and threads; the handshake; generated message code; rooms, players and configuration; the web visualisation.
