# Verified models of an Allwinner BSP's driver protocols

The drivers modelled here move bytes between a CPU and something it does not control: a Bluetooth
controller behind a serial line or a USB pipe, a memory protection unit, a hash engine, the reader of a
crash dump. Each group of files below is one of them. Code that changes state step by step is written as
methods over arrays and class fields; every such method is proved to do what a specification function or
relation says, and what the driver is for is proved about that specification, for all inputs and all runs.

**H5, the three-wire UART transport** (`H5*.dfy`, `Bytes.dfy`; `drivers/bluetooth/hci_rtk_h5.c`), which
implements the Bluetooth Core Specification, Vol 4 Part D.
- `H5Crc` - the nibble-table checksum equals the bit-serial shift register, is sent lowest bit first, and detects
  every change within 16 consecutive bits.
- `H5Frame` - header, escaping and frame layout. `H5State` - what each entry point does to the state of an
  endpoint. `H5Endpoint` - the driver's own object, updated in place, refining `H5State`.
- `H5Receive`, `H5RoundTrip` - the receiver terminates on every byte, keeps its buffer accounting, resynchronises
  at a delimiter, and understands every frame that can be built. `H5Damage` - what it makes of any bytes between two
  delimiters, and so of a frame damaged on its way.
- `H5Sender`, `H5Log` - no event, and no bytes whatever from the peer, make the sender lose, reorder or duplicate
  a packet that was queued.
- `H5GoBackN`, `H5Link`, `H5Runs`, `H5Progress` - two endpoints exchange the actual bytes of their frames over links
  that lose frames. Whatever the interleaving, what was received reliably is a prefix of what was queued for
  it. And from every reachable state, whatever was lost before, some run in which nothing goes wrong delivers
  and acknowledges everything: every frame sent arrives, and the timer fires only where it is armed.

**HCI over USB** (`HciReassembly.dfy`, `HciStream.dfy`, `PacketRing.dfy`, `FirmwareDownload.dfy`;
`drivers/bluetooth/rtk_btusb.c`) - the packet reassembler against a byte-by-byte reader, against every cut of
the streams and every mixture of their types; the packet ring behind `read`; the credit-paced firmware download.

**Region cover** (`RegionCover.dfy`, `RegionOptimality.dfy`; `drivers/andes_adaptor/cma_non_cacher.c`) - the
greedy cover of an address range uses the fewest naturally aligned regions of all covers, overlapping ones included,
and is the only one that does.

**Hash padding** (`HashPadding.dfy`; `drivers/ce/sunxi_ce_proc_comm.c`, `drivers/ce/sunxi_ce.c`) - the padding of
messages digested one after the other, against sections 5.1.1 and 5.1.2 of FIPS 180-4 and sections 3.1 and 3.2 of
RFC 1321.

**Bluetooth sleep** (`Bluesleep.dfy`; `drivers/bluetooth/bcm_btlpm.c`) and **crash notes** (`CrashNotes.dfy`;
`drivers/crashdump/`) - the low-power state machine; writing, merging and reading back ELF notes.

## Where the code does not do what it is meant to

Each of these is a property that turned out false of the code as it stands. The model keeps the code, shows an
input, and states exactly when the property does hold.

- The firmware download reports success although fragments were never sent when a batch ends with a reply that
  grants no further commands (`FirmwareDownload.TruncatedYetSuccessful`). The whole image goes out exactly when no
  batch before the last fragment ends that way (`FirmwareDownload.FaithfulDownload`).
- The buffer the reassembler asks for leaves no room for the 3-byte header of the longest SCO packets. Every SCO packet
  fits exactly when the allocator gives at least 3 bytes more than asked for (`HciStream.EveryScoFitsExactly`); with
  less, one is refused (`HciStream.LongScoRefused`). The kernel's allocator rounds sizes up and so normally gives
  more, which the code does not ask for.
- The region cover maps more than was asked for, for example for a range of no bytes or of one byte
  (`RegionOptimality.ExtraMapped`). It does not exactly when the size is a positive multiple of 32 KiB or the table is
  full before the range ends (`RegionOptimality.NoExtraExactly`). Told beforehand, for a range that starts on a unit
  of 32 KiB: more is mapped exactly when the size is zero or no multiple of 32 KiB, and fewer regions than the table
  holds can cover its whole units (`RegionOptimality.ExtraExactly`).
- When memory for the copy of a message runs out, the hash is finished over zeros in place of its tail
  (`HashPadding.StaleTailHashed`). And a message of no bytes is padded as if the tail of the message hashed before it
  were still there, because beginning a message does not clear the length of the tail
  (`HashPadding.StaleLengthHashed`). What is hashed is the standard's padded message exactly when, for a message of no
  bytes, no tail was left before, and for any other, the memory is there or its tail is all zeros
  (`HashPadding.HashCtx.Digest`).
- If the interrupt is refused when low-power mode is switched on, the UART can fall asleep without the protocol;
  switching the mode off again then leaves RTS dropped (`Bluesleep.RefusedInterruptStrandsUart`). It stays dropped
  until the mode is next switched on with the port there (`Bluesleep.StaysStranded`); then the timer and its work item
  raise it if the interrupt is granted, and the next transmission does if it is refused
  (`Bluesleep.RescuedByNextOn`). A step can do this harm exactly when the interrupt is refused, the UART device and
  its port are there, and the reception flag is clear (`Bluesleep.StepSafeExactly`), and a run is safe throughout
  exactly when it has no such step (`Bluesleep.AlwaysSafeExactly`).

- A checksummed H5 frame in which one byte or two adjacent ones have been damaged is not always dropped: a SCO packet
  of 15 bytes can be handed up cut down to three (`H5Damage.DamagedHeaderTaken`). The frame has an effect, other than
  an acknowledgement being asked for, only if it is taken, and that exactly when it passes for a frame without checksum or
  for a shorter one (`H5Damage.DamageTaken`, `H5Damage.DamagedFrameDropped`), which takes two changed bytes of
  the header. The layout of the header, and so this, is the standard's.

Three remarks on the code, of which none is a failure:

- The H5 receiver leaves its buffer pointer dangling after freeing a bad frame. `Buffer.Freed` models the dangling
  pointer, and the receiver invariant shows that it is never used or freed again.
- The merged crash notes count the last note's name without its terminator. That is right exactly when the name's
  length is not a multiple of 4 (`CrashNotes.TerminatorInPadding`), as is so for the name in use;
  `CrashNotes.AppendInfo` therefore asks for it.
- The comment at `drivers/bluetooth/hci_rtk_h5.c:168` says a packet must be shorter than 4095 bytes; the code, and the
  model, accept 4095 as well.

## Model

| member | source | states |
|---|---|---|
| `H5Crc.UpdateIsShiftRegister` | drivers/bluetooth/hci_rtk_h5.c:120-128 | the two table lookups for a byte equal eight clocks of the reflected 0x1021 shift register, for every register and byte |
| `H5Crc.CrcIsShiftRegister` | drivers/bluetooth/hci_rtk_h5.c:279-292 | the running checksum of any message equals the bit-serial shift register over its bits |
| `H5Crc.TableIsLinear` | drivers/bluetooth/hci_rtk_h5.c:103-108 | every table entry is the sum of three shifted copies of its index |
| `H5Crc.TapsArePolynomial` | drivers/bluetooth/hci_rtk_h5.c:103-108 | the feedback of the reference shift register is 0x8408, the reflected polynomial 0x1021, and also the table's entry for index 8 |
| `H5Crc.CrcBitsInjective` | drivers/bluetooth/hci_rtk_h5.c:120-128 | after any message, different registers stay different |
| `H5Crc.BurstDetected` | drivers/bluetooth/hci_rtk_h5.c:120-128 | a change confined to 16 consecutive bits, anywhere in a message of any length, changes the checksum |
| `H5Crc.AdjacentChangeDetected` | drivers/bluetooth/hci_rtk_h5.c:120-128 | so does every change of one byte or of two adjacent bytes |
| `H5Crc.TrailerBits` | drivers/bluetooth/hci_rtk_h5.c:294-299 | the two bytes sent, each read most significant bit first, are the register from its lowest bit up |
| `H5Crc.TrailerIsShiftRegister` | drivers/bluetooth/hci_rtk_h5.c:279-299 | so the trailer of a message is the bit-serial shift register after all its bits, lowest bit first |
| `H5Crc.StandardCheck` | drivers/bluetooth/hci_rtk_h5.c:103-128 | the checksum of the digits 1 to 9 is the published check value, 0x6f91 |
| `H5Crc.TrailerInjective` | drivers/bluetooth/hci_rtk_h5.c:294-299 | the two bytes sent determine the checksum register |
| `H5Crc.LastByteShows` | drivers/bluetooth/hci_rtk_h5.c:294-299 | two messages that differ in their last byte only differ in the second byte of their checksum |
| `H5Frame.HeaderFields` | drivers/bluetooth/hci_rtk_h5.c:257-276 | the receiver reads back from the four header bytes what was put in them, and accepts their checksum |
| `H5Frame.HeaderLayout` | drivers/bluetooth/hci_rtk_h5.c:206-276 | the bits of the first byte, channel number and length in the next two, and all four bytes adding up to 255 modulo 256 |
| `H5Frame.StandardEscapes` | drivers/bluetooth/hci_rtk_h5.c:139-162 | the four bytes that are escaped and what each becomes; all others stay |
| `H5Frame.NoControlBytes` | drivers/bluetooth/hci_rtk_h5.c:139-162 | neither the delimiter nor the two bytes of software flow control occur in an escaped field |
| `H5Frame.SlipAppend` | drivers/bluetooth/hci_rtk_h5.c:139-162 | escaping works byte by byte: the escaped form of a concatenation is the concatenation of the escaped forms |
| `H5Frame.Slip` | drivers/bluetooth/hci_rtk_h5.c:139-162 | no escaped byte is a delimiter |
| `H5Frame.FrameFields` | drivers/bluetooth/hci_rtk_h5.c:253-302 | delimiter, escaped header, payload and checksum and delimiter, appended one after the other, are the frame |
| `H5Frame.FrameFits` | drivers/bluetooth/hci_rtk_h5.c:242-247 | a frame never exceeds the (len + 6) * 2 + 2 bytes asked for, even if every byte is escaped |
| `H5Frame.ResetFrame` | drivers/bluetooth/hci_rtk_h5.c:198-303 | the reset command with a checksum is, byte by byte, the frame on the wire |
| `H5Receive.PutByteOk` | drivers/bluetooth/hci_rtk_h5.c:421-487 | storing a byte keeps the length accounting, the checksum covers what has been stored so far outside the checksum field, and the byte lies within the 0x1005 bytes of the buffer |
| `H5Receive.UnslipOk` | drivers/bluetooth/hci_rtk_h5.c:421-487 | so does every escaped byte; a bad escape frees the buffer once |
| `H5Receive.CompleteOk` | drivers/bluetooth/hci_rtk_h5.c:515-587 | a complete frame is handed up or freed, exactly once, and the protocol state stays in range |
| `H5Receive.AdvanceOk` | drivers/bluetooth/hci_rtk_h5.c:621-674 | the end of a field keeps all invariants and brings the receiver closer to consuming a byte |
| `H5Receive.TurnOk` | drivers/bluetooth/hci_rtk_h5.c:606-720 | every turn of the receive loop keeps the invariants and either consumes a byte or decreases the rank: the loop terminates, empty payloads and failed checksums included |
| `H5Receive.FeedAppend` | drivers/bluetooth/hci_rtk_h5.c:596-722 | how the byte stream is cut in two does not matter |
| `H5Receive.ChunksDoNotMatter` | drivers/bluetooth/hci_rtk_h5.c:596-722 | nor how it is cut into any number of chunks |
| `H5Sender.CoveredExactly` | drivers/bluetooth/hci_rtk_h5.c:385-410 | an acknowledgement matches at most one place of the window modulo 8; exactly the packets sent before it are dropped, and one that matches no place drops nothing |
| `H5Sender.EnqueueExactly` | drivers/bluetooth/hci_rtk_h5.c:164-196 | data and commands of up to 4095 bytes go to the end of the reliable queue, SCO, vendor, link and acknowledgement packets to the end of the other, and nothing else goes anywhere |
| `H5Sender.EnqueueLog` | drivers/bluetooth/hci_rtk_h5.c:164-196 | accepting a packet appends it to the log; acknowledged, in flight and waiting still make up the log in order |
| `H5Sender.SendLog` | drivers/bluetooth/hci_rtk_h5.c:333-350 | sending moves the next packet of the log into the window under its number modulo 8 |
| `H5Sender.DequeueLog` | drivers/bluetooth/hci_rtk_h5.c:306-367 | taking a frame, whichever allocations fail, keeps the log |
| `H5Sender.TimeoutLog` | drivers/bluetooth/hci_rtk_h5.c:743-748 | the timeout restores the original order and takes the numbers back |
| `H5Sender.CullLog` | drivers/bluetooth/hci_rtk_h5.c:376-419 | acknowledged packets leave the window from its head only |
| `H5Sender.AcceptLog` | drivers/bluetooth/hci_rtk_h5.c:494-511 | an accepted frame, its acknowledgement true or not, drops exactly what it covers |
| `H5Sender.DequeueOk` | drivers/bluetooth/hci_rtk_h5.c:306-367 | the window stays within 4, the queues hold only packets that can be sent, and the timer runs exactly while a packet is in flight |
| `H5Sender.NothingSentExactly` | drivers/bluetooth/hci_rtk_h5.c:306-367 | no frame goes out exactly when no kind of packet is there with memory, and, if reliable, with room among four; lacking memory for one kind does not hold up the next |
| `H5Sender.TimeoutOk` | drivers/bluetooth/hci_rtk_h5.c:725-753 | so does the timeout |
| `H5Log.RunKeepsLog` | drivers/bluetooth/hci_rtk_h5.c:164-753 | no run of events, with any bytes from the peer, breaks the log or takes back an acknowledgement |
| `H5Log.SenderLog` | drivers/bluetooth/hci_rtk_h5.c:164-196 | from the start, every run keeps the log invariant over the packets the user queued reliably, all of them and in order, and the count of acknowledged packets never decreases |
| `H5Log.UnreliableInOrder` | drivers/bluetooth/hci_rtk_h5.c:164-332 | in every run, with any bytes from the peer, SCO, vendor, link and acknowledgement packets leave in the order they were queued, one frame each, and the rest are still queued |
| `H5Log.BufferAccounting` | drivers/bluetooth/hci_rtk_h5.c:606-716 | in every run, received length plus awaited count is 4 in the header state, 4+len in the data state and 6+len in the checksum state, never above the 0x1005 allocated; bytes are awaited only into a live buffer; every buffer is freed or handed up exactly once, or is the one being filled |
| `H5RoundTrip.DelimiterResynchronises` | drivers/bluetooth/hci_rtk_h5.c:606-719 | from every reachable state a delimiter leaves the receiver waiting for a frame |
| `H5RoundTrip.SelfSynchronisation` | drivers/bluetooth/hci_rtk_h5.c:606-719 | after any bytes ending in a delimiter the receiver waits for a frame |
| `H5RoundTrip.BeforeFirstDelimiter` | drivers/bluetooth/hci_rtk_h5.c:755-781 | after power-up everything before the first delimiter is skipped |
| `H5RoundTrip.EscapedBytesRead` | drivers/bluetooth/hci_rtk_h5.c:421-487 | reading the escaped form of bytes stores exactly those bytes |
| `H5RoundTrip.OutOfTurnDropped` | drivers/bluetooth/hci_rtk_h5.c:633-647 | a reliable frame with another number is skipped to its end, is not handed up, and is answered with an acknowledgement |
| `H5RoundTrip.ContentReceived` | drivers/bluetooth/hci_rtk_h5.c:596-722 | any well-formed header, payload and trailer between delimiters is judged as the specification says, checksum failures included |
| `H5RoundTrip.ChannelIdentifiesKind` | drivers/bluetooth/hci_rtk_h5.c:208-240 | the channel and reliability a type is sent with are those it is recognised by |
| `H5RoundTrip.PassedUpExactly` | drivers/bluetooth/hci_rtk_h5.c:516-538 | what a frame is handed up as, if at all, for every channel and both kinds of delivery |
| `H5RoundTrip.FrameReceived` | drivers/bluetooth/hci_rtk_h5.c:198-303 | a frame that was built for a packet hands up that packet, or nothing if it is the transport's own or out of turn, and has its acknowledgement processed |
| `H5RoundTrip.StreamRoundTrip` | drivers/bluetooth/hci_rtk_h5.c:198-303 | the frames of any list of packets, with or without checksum, hand up exactly the packets that are not the transport's own, in order, with type and content |
| `H5RoundTrip.ChunkedRoundTrip` | drivers/bluetooth/hci_rtk_h5.c:596-722 | the same between fresh endpoints, for every cut of the stream into chunks |
| `H5RoundTrip.UnderstoodAfterGarbage` | drivers/bluetooth/hci_rtk_h5.c:606-719 | after arbitrary garbage and a delimiter a good frame is decoded |
| `H5RoundTrip.DamagedPayloadDropped` | drivers/bluetooth/hci_rtk_h5.c:660-671 | a checksummed frame damaged in one byte or two adjacent bytes of its payload is neither handed up nor acknowledged |
| `H5Damage.AnyContentReceived` | drivers/bluetooth/hci_rtk_h5.c:596-722 | any bytes between two delimiters have exactly the effect of the frame they begin with, if its header sum, number, length and checksum are right, and otherwise none but an acknowledgement being asked for; the receiver then waits for a frame |
| `H5Damage.BadEscapeDropped` | drivers/bluetooth/hci_rtk_h5.c:480-486 | a byte that cannot follow an escape byte, anywhere in a frame, drops the frame and all up to the next delimiter |
| `H5Damage.ChecksumShows` | drivers/bluetooth/hci_rtk_h5.c:660-671 | damage of one byte or two adjacent ones, in the message, the trailer or across both, never leaves message and trailer in agreement |
| `H5Damage.DamageTaken` | drivers/bluetooth/hci_rtk_h5.c:621-674 | a checksummed frame so damaged is taken if and only if it passes for a frame without checksum or a shorter one, and then two bytes of the header have changed |
| `H5Damage.DamagedFrameDropped` | drivers/bluetooth/hci_rtk_h5.c:621-674 | otherwise nothing is handed up and nothing changes but that an acknowledgement may be asked for |
| `H5Damage.DamagedHeaderTaken` | drivers/bluetooth/hci_rtk_h5.c:621-658 | with two header bytes damaged, a SCO packet of 15 bytes is handed up with three |
| `H5Endpoint.Endpoint.constructor` | drivers/bluetooth/hci_rtk_h5.c:755-781 | a new endpoint is in the initial state |
| `H5Endpoint.Endpoint.EnqueuePacket` | drivers/bluetooth/hci_rtk_h5.c:164-196 | data and commands go to the reliable queue, SCO, vendor, link and acknowledgement packets to the other; too long and unknown ones are dropped |
| `H5Endpoint.Endpoint.PutField` | drivers/bluetooth/hci_rtk_h5.c:278-292 | the byte loop appends the escaped bytes and runs the checksum over the plain ones |
| `H5Endpoint.Endpoint.NextHeader` | drivers/bluetooth/hci_rtk_h5.c:255-276 | the header carries the number of the next packet expected and, if reliable, takes the next number |
| `H5Endpoint.Endpoint.BuildFrame` | drivers/bluetooth/hci_rtk_h5.c:242-302 | the frame built is the specified one, and fits its buffer |
| `H5Endpoint.Endpoint.PreparePacket` | drivers/bluetooth/hci_rtk_h5.c:198-303 | nothing changes when the type is unknown or memory runs out |
| `H5Endpoint.Endpoint.SendReliable` | drivers/bluetooth/hci_rtk_h5.c:333-350 | a packet whose frame cannot be built goes back to the head of its queue |
| `H5Endpoint.Endpoint.DequeueFrame` | drivers/bluetooth/hci_rtk_h5.c:306-367 | unreliable packets first, then reliable ones while the window has room, then an owed acknowledgement, for every pattern of failed allocations |
| `H5Endpoint.Endpoint.CullAcknowledged` | drivers/bluetooth/hci_rtk_h5.c:376-419 | the backward search over the window drops the packets the specification says |
| `H5Endpoint.Endpoint.RollBack` | drivers/bluetooth/hci_rtk_h5.c:743-748 | moving packets one by one from the tail restores the original order |
| `H5Endpoint.Endpoint.TimedEvent` | drivers/bluetooth/hci_rtk_h5.c:725-753 | the timeout does what the specification says |
| `H5Endpoint.Endpoint.UnslipOneByte` | drivers/bluetooth/hci_rtk_h5.c:421-487 | the escape automaton does what the specification says |
| `H5Endpoint.Endpoint.CompletePacket` | drivers/bluetooth/hci_rtk_h5.c:489-588 | the whole effect of a complete frame on protocol, buffer and delivery |
| `H5Endpoint.Endpoint.TakeTurn` | drivers/bluetooth/hci_rtk_h5.c:606-720 | one turn of the loop is the specified turn |
| `H5Endpoint.Endpoint.Recv` | drivers/bluetooth/hci_rtk_h5.c:596-722 | the loop ends, leaves nothing unread, and its effect is that of the bytes one after the other |
| `H5GoBackN.NumberNotAliased` | drivers/bluetooth/hci_rtk_h5.c:633-635 | a frame on the link carries the expected number modulo 8 only if it is the expected packet, stale retransmissions included |
| `H5GoBackN.AckNotAliased` | drivers/bluetooth/hci_rtk_h5.c:385-393 | an acknowledgement on the link is never taken for a later one |
| `H5GoBackN.DirSend` | drivers/bluetooth/hci_rtk_h5.c:333-350 | sending keeps everything on the link within a window |
| `H5GoBackN.DirTimeout` | drivers/bluetooth/hci_rtk_h5.c:743-748 | so does a retransmission |
| `H5GoBackN.DirReceive` | drivers/bluetooth/hci_rtk_h5.c:633-650 | the receiver takes the expected packet and no other |
| `H5GoBackN.DirAccept` | drivers/bluetooth/hci_rtk_h5.c:508-511 | the sender drops only packets that have been received |
| `H5Link.FrameSent` | drivers/bluetooth/hci_rtk_h5.c:306-367 | the bytes put on the link are the frame of the right packet of the log, under its number modulo 8 |
| `H5Link.FrameArrives` | drivers/bluetooth/hci_rtk_h5.c:596-722 | the bytes taken from the link deliver that packet, or nothing |
| `H5Link.ActKeeps` | drivers/bluetooth/hci_rtk_h5.c:164-753 | queueing, sending, losing, receiving and timing out each keep the invariant of the two endpoints and links |
| `H5Link.OffersAccepted` | drivers/bluetooth/hci_rtk_h5.c:164-196 | what is accepted for reliable sending is every data and command packet of up to 4095 bytes the users queue, in order |
| `H5Link.ReliableDelivery` | drivers/bluetooth/hci_rtk_h5.c:164-753 | after any interleaving, what each side received reliably is a prefix of the data and commands the user of the other queued: in order, nothing skipped, nothing twice; and nothing is dropped as acknowledged before it was received |
| `H5Progress.Cross` | drivers/bluetooth/hci_rtk_h5.c:306-367 | the next reliable packet can always cross once the links are quiet |
| `H5Progress.AcknowledgeWindow` | drivers/bluetooth/hci_rtk_h5.c:376-419 | and one acknowledgement empties the window |
| `H5Progress.MakeProgress` | drivers/bluetooth/hci_rtk_h5.c:164-753 | with packets pending on calm links, some run without new packets, losses, failed allocations or timers that are not armed leaves fewer pending |
| `H5Progress.NeverWedged` | drivers/bluetooth/hci_rtk_h5.c:164-753 | from every reachable state, whatever was lost before, some run without new packets, losses, failed allocations or timers that are not armed delivers and acknowledges all data and commands queued, on both sides |
| `RegionCover.PickUnique` | drivers/andes_adaptor/cma_non_cacher.c:32-40 | at most one region size is the largest aligned power of two that fits, or the minimum |
| `RegionCover.RegionSizes` | drivers/andes_adaptor/cma_non_cacher.c:32-40 | the sizes are the eighteen powers of two from 32 KiB to 4 GiB |
| `RegionCover.PickSize` | drivers/andes_adaptor/cma_non_cacher.c:32-40 | the halving loop finds it |
| `RegionCover.GenerateMemMap` | drivers/andes_adaptor/cma_non_cacher.c:25-62 | the table holds the greedy decomposition, its total plus what is left is the size plus the reported extra, and the rest of the table is untouched |
| `RegionOptimality.EmittedTiles` | drivers/andes_adaptor/cma_non_cacher.c:31-61 | on multiples of 32 KiB the regions are contiguous, aligned to their sizes, and cover exactly the range less the remainder |
| `RegionOptimality.BlocksNest` | drivers/andes_adaptor/cma_non_cacher.c:36-37 | two aligned power-of-two blocks are nested or disjoint |
| `RegionOptimality.GreedyIsOptimal` | drivers/andes_adaptor/cma_non_cacher.c:33 | no set of aligned regions whose union is the range, overlapping or not, has fewer members; one with as many is the greedy one |
| `RegionOptimality.CoveredExactlyWhenPossible` | drivers/andes_adaptor/cma_non_cacher.c:58-61 | the table suffices if and only if some set of that many aligned regions has the range as its union |
| `RegionOptimality.NoExtraExactly` | drivers/andes_adaptor/cma_non_cacher.c:46-52 | nothing beyond the range is mapped if and only if the table is full before the range ends, or the size is a positive multiple of 32 KiB |
| `RegionOptimality.ExtraExactly` | drivers/andes_adaptor/cma_non_cacher.c:41-61 | something beyond a range that starts on a unit of 32 KiB is mapped if and only if the size is zero or no multiple of 32 KiB, and fewer regions than the table holds can cover the range without the part of a unit at its end |
| `RegionOptimality.ExtraMapped` | drivers/andes_adaptor/cma_non_cacher.c:41-52 | with room for one region, a range of no bytes and a range of one byte both map 32 KiB, and of one unit and one byte the byte is left |
| `HciReassembly.Copy` | drivers/bluetooth/rtk_btusb.c:917-987 | one pass of the copy loop, a whole piece at a time, agrees with reading byte by byte: header completed, packet completed, or more to come, and then a positive number of bytes is awaited |
| `HciReassembly.Hdev.Fill` | drivers/bluetooth/rtk_btusb.c:917-987 | the loop stops at a packet, at the end of the data or at a packet that does not fit, and consumes at least one byte |
| `HciReassembly.Hdev.Reassemble` | drivers/bluetooth/rtk_btusb.c:871-990 | one call delivers at most one packet, keeps the other slots, and frees its slot on an error |
| `HciReassembly.Hdev.RecvFragment` | drivers/bluetooth/rtk_btusb.c:992-1009 | a transfer delivers exactly what reading its bytes one by one yields, and keeps the rest for the next |
| `HciStream.ReadAppend` | drivers/bluetooth/rtk_btusb.c:871-1009 | reading two pieces is reading the first and then the second, until an error |
| `HciStream.CutAnywhere` | drivers/bluetooth/rtk_btusb.c:992-1009 | where the stream is cut into transfers makes no difference |
| `HciStream.ReadStream` | drivers/bluetooth/rtk_btusb.c:871-990 | a stream of packets is read without error if and only if every packet fits its buffer, and then yields exactly those packets |
| `HciStream.ChunkingIsInvisible` | drivers/bluetooth/rtk_btusb.c:871-1009 | every cut of a stream of packets that fit delivers exactly those packets, in order, with nothing left over |
| `HciStream.WhatFits` | drivers/bluetooth/rtk_btusb.c:889-902 | events always fit; data packets up to 1024 bytes of payload and SCO packets up to 252, plus the slack |
| `HciStream.EveryScoFitsExactly` | drivers/bluetooth/rtk_btusb.c:898-900 | every SCO packet fits its buffer if and only if the allocator gives at least 3 bytes more than asked for |
| `HciStream.LongScoRefused` | drivers/bluetooth/rtk_btusb.c:955-965 | with an allocator that gives less than 3 bytes more, the longest SCO packet is refused |
| `HciStream.RecvAll` | drivers/bluetooth/rtk_btusb.c:871-1009 | for every mixture of transfers of all types, each type is delivered exactly what its own transfers yield, and keeps its own rest |
| `HciStream.InterleavingIsInvisible` | drivers/bluetooth/rtk_btusb.c:992-1009 | a type whose transfers are a cut of a stream of packets that fit is delivered exactly those packets, whatever transfers of other types come in between |
| `HciStream.WireRead` | drivers/bluetooth/rtk_btusb.c:917-987 | a packet built from its fields is delivered by its transfer exactly if its payload fits: data up to 1024 bytes, voice up to 252, plus the slack, events always |
| `HciStream.FieldsDelivered` | drivers/bluetooth/rtk_btusb.c:871-1009 | packets built from their fields, with a little-endian length for data, are delivered exactly, however their bytes are cut and mixed with other types |
| `HciStream.RecvStreams` | drivers/bluetooth/rtk_btusb.c:871-1009 | a new device that receives streams of all three types, cut and interleaved in any way, hands up exactly those packets |
| `PacketRing.Ring.Enqueue` | drivers/bluetooth/rtk_btusb.c:503-521 | the ring with wrap-around is a queue: a new packet goes to the end unless 499 are held |
| `PacketRing.Ring.DequeueTry` | drivers/bluetooth/rtk_btusb.c:523-550 | the head is removed when it is wanted whole, else shortened |
| `PacketRing.Ring.Clear` | drivers/bluetooth/rtk_btusb.c:557-572 | the queue is emptied |
| `PacketRing.Ring.Read` | drivers/bluetooth/rtk_btusb.c:1107-1148 | a read returns the next bytes of the first packet and never those of two |
| `PacketRing.GetSplits` | drivers/bluetooth/rtk_btusb.c:487-497 | what a read takes off the queue is what it returns |
| `PacketRing.StreamIsConserved` | drivers/bluetooth/rtk_btusb.c:503-550 | over any run of arrivals and reads, the bytes read so far followed by those still queued are exactly the bytes of the accepted packets |
| `PacketRing.AllAccepted` | drivers/bluetooth/rtk_btusb.c:503-550 | with at most 499 packets unread at any moment, as counted from arrivals and reads, every arrival is accepted, and bytes read and unread together are all that arrived |
| `PacketRing.DroppedExactly` | drivers/bluetooth/rtk_btusb.c:507-512 | an arrival is dropped exactly when 499 packets are unread |
| `PacketRing.EnoughReads` | drivers/bluetooth/rtk_btusb.c:1107-1148 | enough reads of any size return all that was accepted, and with room throughout all that arrived |
| `FirmwareDownload.DownloadData` | drivers/bluetooth/rtk_btusb.c:2499-2595 | the loop sends and awaits what the specification says, for every list of replies and every failure to send |
| `FirmwareDownload.NeverTooManyOutstanding` | drivers/bluetooth/rtk_btusb.c:2529-2566 | never more commands without reply than the last reply taken granted, whatever the replies |
| `FirmwareDownload.LastEchoOnly` | drivers/bluetooth/rtk_btusb.c:2518-2520 | among the indices, 0 and then 1 to 127 over and over, only that of the last fragment ends the wait |
| `FirmwareDownload.FragmentLayout` | drivers/bluetooth/rtk_btusb.c:2508-2527 | fragments of 252 bytes and a shorter last one; indices from 0 and then 1 to 127 over and over, with the end bit on the last only |
| `FirmwareDownload.EndsExactly` | drivers/bluetooth/rtk_btusb.c:2529-2594 | for every replies and failures to send: fragments go out in order; -1 exactly when the last reply taken, and none before, has an error status; -5 exactly when a command could not be sent or a reply did not come; else success, with the last index echoed, all sent, or nothing granted |
| `FirmwareDownload.FragmentsAreImage` | drivers/bluetooth/rtk_btusb.c:2514-2527 | the data of the fragments in order is the image, the last fragment being empty when the image is a multiple of 252 bytes |
| `FirmwareDownload.FaithfulDownload` | drivers/bluetooth/rtk_btusb.c:2517-2569 | with a faithful controller the fragments go out in order and all of them are answered; all fragments go out if and only if no batch before the end is granted nothing, and then their data is the image |
| `FirmwareDownload.PositiveGrantsNeverStall` | drivers/bluetooth/rtk_btusb.c:2566 | positive grants suffice |
| `FirmwareDownload.TruncatedYetSuccessful` | drivers/bluetooth/rtk_btusb.c:2566-2594 | a grant of zero makes the download succeed after one fragment of three |
| `HashPadding.ZeroCountIsLeast` | drivers/ce/sunxi_ce_proc_comm.c:205-214 | the standard's count of zero bytes is the least that fills whole blocks |
| `HashPadding.HashCtx.SaveTail` | drivers/ce/sunxi_ce_proc_comm.c:280-320 | the bytes after the last whole block are saved, if memory allows |
| `HashPadding.HashCtx.SwPadding` | drivers/ce/sunxi_ce_proc_comm.c:194-240 | the mark, the zeros and the two length words are appended to the saved tail |
| `HashPadding.PaddedAsStandard` | drivers/ce/sunxi_ce_proc_comm.c:166-240 | the reference itself: marker, fewer zeros than a block, the length in bits in 8 or 16 bytes of the right order, whole blocks of 64 or 128 |
| `HashPadding.LengthWordsExact` | drivers/ce/sunxi_ce_proc_comm.c:200-233 | the two words and the zeros before them encode exactly eight times the length, in the byte order of the method |
| `HashPadding.DriverSuffixIsStandard` | drivers/ce/sunxi_ce_proc_comm.c:194-240 | what is appended is the standard's padding for every length below 2^32 and both block sizes |
| `HashPadding.HashCtx.Init` | drivers/ce/sunxi_ce.c:557-573 | beginning a message clears the count and the buffer, and keeps the length of the tail |
| `HashPadding.HashCtx.Update` | drivers/ce/sunxi_ce_proc_comm.c:340-356 | a message of no bytes changes nothing; any other replaces the tail and its length and is counted |
| `HashPadding.HashCtx.Digest` | drivers/ce/sunxi_ce_proc_comm.c:445-450 | the whole blocks of the message and the final buffer together are the padded message if and only if, for no bytes, no tail was left before, and for any other message, there is memory or the tail is all zeros |
| `HashPadding.EmptyMessage` | drivers/ce/sunxi_ce_proc_comm.c:342-345 | a message of no bytes is hashed as the standard says exactly when the length of the tail was zero |
| `HashPadding.StaleLengthHashed` | drivers/ce/sunxi_ce_proc_comm.c:340-346 | after a message of one byte, a message of no bytes is hashed with a zero where the marker should be |
| `HashPadding.StaleTailHashed` | drivers/ce/sunxi_ce_proc_comm.c:310-314 | without memory for the tail, a message of one byte over a cleared buffer is not hashed as the standard says |
| `HashPadding.PaddingInjective` | drivers/ce/sunxi_ce_proc_comm.c:194-240 | different messages have different padded forms |
| `Bluesleep.StepSafeExactly` | drivers/bluetooth/bcm_btlpm.c:488-529 | what follows a step stays safe in every continuation without refused interrupts, if and only if the step is not a refused interrupt with device and port there and the reception flag clear |
| `Bluesleep.HarmlessStep` | drivers/bluetooth/bcm_btlpm.c:186-561 | every other step keeps the invariant: asleep exactly when RTS is dropped, and then wake is not asserted, the protocol is on and the port is set; the open count is 0 exactly when the protocol is on; with the protocol on the reception flag implies a pending timer |
| `Bluesleep.AlwaysSafeExactly` | drivers/bluetooth/bcm_btlpm.c:186-561 | a run from the start is safe at every moment, and in every continuation without refused interrupts, if and only if it has no such step |
| `Bluesleep.RefusedInterruptStrandsUart` | drivers/bluetooth/bcm_btlpm.c:499-561 | after a refused interrupt, falling asleep and switching off leave RTS dropped |
| `Bluesleep.StaysStranded` | drivers/bluetooth/bcm_btlpm.c:171-180 | RTS then stays dropped, whatever happens, until the mode is switched on with the port there |
| `Bluesleep.RescuedByNextOn` | drivers/bluetooth/bcm_btlpm.c:488-529 | then, with the interrupt granted, the timer and its work item raise RTS and restore the invariant; with it refused, the next transmission raises RTS |
| `Bluesleep.DropsExactly` | drivers/bluetooth/bcm_btlpm.c:200-217 | RTS is dropped exactly by a work item with nothing left to send, no call either way, the reception flag clear and the port there |
| `Bluesleep.RaisesExactly` | drivers/bluetooth/bcm_btlpm.c:218-275 | and raised exactly by a work item with a reason to wake, by outgoing data, or by switching off while asleep |
| `Bluesleep.CalledExactly` | drivers/bluetooth/bcm_btlpm.c:256-561 | the wake line stays asserted from outgoing data or switching on or off, a refused interrupt included, until sleep is permitted |
| `Bluesleep.FullCycle` | drivers/bluetooth/bcm_btlpm.c:186-561 | from the start: on, asleep only once nothing is left to send, awake on a call, off, state by state |
| `Bluesleep.SleepWithinReach` | drivers/bluetooth/bcm_btlpm.c:448-468 | after any run without such a step, sleep is three events away whenever the protocol runs and the host is not being woken |
| `Bluesleep.WakesUp` | drivers/bluetooth/bcm_btlpm.c:218-231 | outgoing data, or the host-wake line, ends the sleep |
| `Bluesleep.Driver.SleepWorkItem` | drivers/bluetooth/bcm_btlpm.c:200-232 | the work item does what the step says, and keeps the invariant |
| `Bluesleep.Driver.OutgoingDataReady` | drivers/bluetooth/bcm_btlpm.c:256-275 | so does outgoing data |
| `Bluesleep.Driver.TxAllowSleep` | drivers/bluetooth/bcm_btlpm.c:448-456 | so does the permission to sleep |
| `Bluesleep.Driver.RxTimerExpire` | drivers/bluetooth/bcm_btlpm.c:463-468 | so does the timer |
| `Bluesleep.Driver.StartProtocol` | drivers/bluetooth/bcm_btlpm.c:488-529 | starting fails if the count or the interrupt says so |
| `Bluesleep.Driver.StopProtocol` | drivers/bluetooth/bcm_btlpm.c:534-561 | stopping does what the step says |
| `Bluesleep.Driver.WriteProcLpm` | drivers/bluetooth/bcm_btlpm.c:303-333 | a write to the lpm file does what the step says, and keeps the invariant unless the step is the harmful one |
| `Bluesleep.Driver.WriteProcBtwrite` | drivers/bluetooth/bcm_btlpm.c:346-365 | a write to the btwrite file does what the step says, and keeps the invariant |
| `CrashNotes.ParseOne` | drivers/crashdump/borrowed_code.c:97-117 | a reader takes a written note apart again and goes on behind it, whatever the padding holds |
| `CrashNotes.AppendElfNote` | drivers/crashdump/borrowed_code.c:97-112 | the three words, the terminated name and the data end up in their places, and nothing else changes |
| `CrashNotes.FinalNote` | drivers/crashdump/borrowed_code.c:114-117 | the list is ended |
| `CrashNotes.SaveCpu` | drivers/crashdump/sunxi-crashnote-func.c:284-322 | the buffer of a CPU reads as exactly its register note; a bad CPU number changes nothing |
| `CrashNotes.SavedFields` | drivers/crashdump/sunxi-crashnote-func.c:153-166 | sizes, type, name and data of a saved note are read back as written |
| `CrashNotes.NoteLayout` | drivers/crashdump/borrowed_code.c:97-112 | the bytes of a note: little-endian sizes and type, terminated name, data, both filled up to whole words |
| `CrashNotes.Extend` | drivers/crashdump/sunxi-crashnote-func.c:161-168 | a note written behind others is read behind them |
| `CrashNotes.TerminatorInPadding` | drivers/crashdump/sunxi-crashnote-func.c:171-173 | counting a name without its terminator is right exactly when its length is not a multiple of 4 |
| `CrashNotes.FitIsLargest` | drivers/crashdump/sunxi-crashnote-func.c:159-160 | the writer stops at the largest number of notes that fit |
| `CrashNotes.CompleteExactly` | drivers/crashdump/sunxi-crashnote-func.c:174-190 | everything is written if and only if there is room for all notes and the end of the list |
| `CrashNotes.FillMergedCrashNotes` | drivers/crashdump/sunxi-crashnote-func.c:145-190 | the segment reads as the notes of the CPUs in order, the kernel's own note and the end of the list, or as the notes that fit and no end; its counted size is the number of bytes written, within the room, and nothing outside it changes |

## Left out

- H5: allocation failure in the receiver, which drops the rest of the chunk; the spin locks, the work queue and the wake-ups, which become atomic steps; the Bluetooth coexistence hooks; flushing and closing.
- H5: shifts and masks are written as division and remainder outside the checksum.
- H5Link: the links lose whole frames and deliver the others in order and undamaged; what damage does to one frame is in `H5Damage`.
- H5Progress: names a run that delivers everything, and does not say that every schedule does: timers are events without durations.
- HciReassembly: allocation failure on the first byte of a packet; `slack` is the room the allocator may add behind a buffer, the same for all buffers.
- HciReassembly: ALSA routing of SCO packets and the printing of packets.
- PacketRing: the locks and the wait for data (a read of an empty ring returns nothing), and failure to copy to user space or to copy a packet.
- FirmwareDownload: the retries and time-outs inside sending and receiving a command, which become the reply list and `sendOk`; the packet length field; suspended downloads.
- RegionCover: the remapping and the registers the table is meant for; error messages.
- HashPadding: messages given in several updates (only the last tail is kept), hardware padding, HMAC, suspending, and the engine itself, which is taken to hash whole blocks without error.
- Bluesleep: wakeup sources, the notifier path, probing and removal, the sysfs texts; work items and file writes are atomic steps.
- CrashNotes: the ELF and program headers around the segment, the checksum, and buffers of CPUs that never saved a note; how the register block is filled in.
- Register-programming drivers, voltage tables, frequency heuristics and the character devices of the crypto engine, which are thin input and output.
