# A Dafny model of the PCC transport

This project models a userspace reliable transport, a fork of UDT whose sending rate is set by the
PCC Vivace controller, and proves what its parts promise each other. There are eight groups of files.

- **The retransmission protocol** (`Records`, `PacketTracker`, `SenderModel`, `Sender`, `RcvRing`,
  `RcvBuffer`, `Receiver`, `Protocol`, `ProtocolRuns`, `SweepRun`). The sender's packet tracker, with its lazily
  cleaned queues, is proved to agree with a plain map of records. Sender and receiver are classes
  whose methods follow `core.cpp`, each tied to a function on a sender or receiver state. The two
  state functions and a network that may lose, repeat and reorder form a state machine. Over every
  run, what the receiver has handed out is a prefix of what was given to `send`. The sender
  forgets a packet only when the receiver has it, provided every arrival is inside the receive window;
  a concrete run shows that this condition is needed. Byte counts and loss reports balance in every
  reachable state, and the send buffer lacks exactly as many blocks as `send` has cut off.
- **Loss lists** (`Intervals`, `LossSlots`, `LossArrays`, `SndLossList`, `RcvLossList`). Linked
  intervals inside arrays, each at the slot its circular distance from the head gives it, refine a
  finite set of packet positions. Positions are unbounded integers and the arrays hold their images
  modulo 2^31, so the proofs cover wrap-around.
- **Send buffer** (`SndBuffer`, `Arithmetic`, `Wrappers`). A circle of blocks with a coarser circle of
  buffers on top refines a queue of segments. Growing in mid-buffer, which renumbers blocks, keeps
  jumps by whole buffers and single steps in agreement. A change of the packet size keeps the
  queue under an exact condition, because acknowledgements overtake the read position.
- **The rate controller** (`MonitorIntervals`, `MonitorQueue`, `RateVotes`, `RateControl`,
  `PccSender`). The queue of monitor intervals and the STARTING / PROBING / DECISION_MADE machine
  keep an invariant strong enough to discharge the assertions of the source, except two, and the model
  says exactly when those fail. The comparison of two rates in `ComputeRateChange` can meet equal rates.
  A round of PROBING can be decided and be longer than the utility tag allows, if the tag has been
  changed in the round. A first event without a round-trip time makes the source divide by zero; that
  is an outcome of its own. The utility tag and its parameters may be set between any two calls.
- **Protocol and controller together** (`ControlTrace`). In every run of the protocol the calls that the
  sender makes on the controller meet the controller's preconditions, so both state machines run
  side by side and agree on which transmissions are in flight. They stop at the three outcomes just
  named and nowhere else.
- **Scheduler and timers** (`SndUList`, `RcvUList`, `UnitQueue`). The heap of sockets with
  back-pointers, the doubly linked list behind the timer sweep, and the pool of receive units.
- **MD5 buffering** (`Md5`). Any split of a message into appends compresses the blocks of the message
  padded by sections 3.1 and 3.2 of RFC 1321. The compression function is a parameter.

- **Runs that fail** (`Failures`, `RateClash`). For each failure of the code whose exact condition is
  stated with the operation, one member leads from fresh objects or a fresh connection to the state
  before the step that fails, and another takes that step.

Operations that change state are methods of classes with the fields of the source. A ghost field or
a function gives their abstract value, and lemmas about that value carry the results to whole runs.

Where the code does something else than its names or comments suggest, the model follows the code. The
range form of `CRcvLossList::remove` skips the largest number when the range wraps. `remove_` of the
heap only sifts down. The acknowledgement of a packet goes out before the receiver checks whether it
has room. Bytes of a packet acknowledged while it counts as lost stay in the bytes in flight. Nothing in
`core.cpp` moves the read position of the send buffer, so the first acknowledgement overtakes it. The last
data ack stays behind for good once the lowest recorded number is half the circle away from it.

Assumptions of the model: send time stamps are distinct, acknowledgements name packets that were
sent, sequence numbers at the sender do not wrap, and a lock-protected region is one step.

## Model

| member | source | states |
|---|---|---|
| SeqNo.SeqCmpOrders | src/core/common.h:206-210 | within half the circle the circular comparison orders wrapped positions as the positions themselves, and equal numbers mean equal positions |
| SeqNo.SeqCmpTurns | src/core/common.h:206-210 | numbers at least half the circle apart compare the other way round; the comparison is antisymmetric and ties only for equal numbers |
| SeqNo.SeqOffRecovers | src/core/common.h:216-226 | the circular offset is the true distance inside the half range, and off by at most one turn outside |
| SeqNo.SeqLenCounts | src/core/common.h:212-214 | the circular length counts the positions of a range shorter than one turn |
| SeqNo.IncSeqAdvances | src/core/common.h:228-234 | incrementing and decrementing are inverse and move one position, over the wrap |
| SeqNo.IncSeqByAdvances | src/core/common.h:236-239 | incrementing by n moves n positions, over the wrap |
| Records.MinSeq | src/core/packet_tracker.h:602-605 | the least recorded number exists for every non-empty tracker |
| Records.AgeIsMonotone | src/core/core.cpp:2013-2017 | the age computed from truncated seconds and nanoseconds is monotone in the send time, including its negative intermediate quotients |
| Records.AgeUnwrapped | src/core/core.cpp:2013-2017 | the unsigned age does not wrap for times below 2^64 microseconds |
| Records.AgeIsElapsed | src/core/core.cpp:2013-2017 | the age is the elapsed time in microseconds, less than one off |
| PacketTracking.PacketTracker.CanEnqueuePacket | src/core/packet_tracker.h:231-234 | there is room exactly while fewer packets than the limit are recorded |
| PacketTracking.PacketTracker.EnqueuePacket | src/core/packet_tracker.h:236-266 | adds a QUEUED record with the payload and nothing else, and exits exactly for a recorded number; the lazy queues stay consistent for a number not used before |
| PacketTracking.PacketTracker.OnPacketSent | src/core/packet_tracker.h:268-312 | exits unless the packet is on top of the queue its state names; otherwise the record becomes SENT with one more transmission and the next identifier; consistent when it is the next transmission of a QUEUED or LOST packet |
| PacketTracking.PacketTracker.OnPacketAck | src/core/packet_tracker.h:314-332 | exits exactly for an unknown transmission of a recorded packet; only news of the latest transmission changes a record |
| PacketTracking.PacketTracker.OnPacketLoss | src/core/packet_tracker.h:334-356 | exits exactly for an unknown transmission of a recorded packet; the news changes the record only when it is about the latest transmission; consistent when the packet was in flight |
| PacketTracking.PacketTracker.DeletePacketRecord | src/core/packet_tracker.h:358-395 | removes exactly one record and moves the minimum up to the next recorded number; consistent unless the packet was in flight |
| PacketTracking.PacketTracker.HasRetransmittablePackets | src/core/packet_tracker.h:558-567 | after dropping stale entries, true exactly when some packet is LOST |
| PacketTracking.PacketTracker.GetLowestRetransmittableSeqNo | src/core/packet_tracker.h:569-581 | the lowest LOST packet, or 0 when there is none |
| PacketTracking.PacketTracker.HasSendablePackets | src/core/packet_tracker.h:533-542 | after dropping stale entries, true exactly when some packet is QUEUED |
| PacketTracking.PacketTracker.GetLowestSendableSeqNo | src/core/packet_tracker.h:544-556 | the lowest QUEUED packet, or 0 when there is none |
| PacketTracking.PacketTracker.GetOldestSentSeqNo | src/core/packet_tracker.h:513-531 | after dropping stale times, the SENT packet whose latest transmission is the oldest; empties the queue when none is in flight |
| PacketTracking.PacketTracker.GetMinSeqNo | src/core/packet_tracker.h:602-605 | the least recorded number; without a value exactly when the source would dereference a null pointer |
| PacketTracking.PacketTracker.FindMessage | src/core/packet_tracker.h:86-103 | the scan finds a transmission exactly when the record has it |
| PacketTracking.PacketTracker.GetPacketId | src/core/packet_tracker.h:420-436 | the identifier of any one transmission; exits exactly for an unknown transmission |
| PacketTracking.PacketTracker.GetPacketSentTime | src/core/packet_tracker.h:397-418 | the time of any one transmission; exits exactly for an unknown transmission |
| PacketTracking.AfterEnqueue | src/core/packet_tracker.h:236-266 | a new record leaves every packet in exactly the place of its state |
| PacketTracking.AfterSend | src/core/packet_tracker.h:268-312 | a transmission takes the packet from the queue of its state to the sent times, and no live packet is orphaned |
| PacketTracking.AfterNews | src/core/packet_tracker.h:314-356 | an ack or a loss keeps the three places consistent, whatever stale entries remain |
| PacketTracking.AfterDelete | src/core/packet_tracker.h:358-395 | deleting a record keeps them consistent, with the count and the minimum |
| PacketTracking.TopOfSendQueue | src/core/packet_tracker.h:533-556 | a recorded top of the send queue is the lowest QUEUED packet; a stale one can be dropped |
| PacketTracking.TopOfRetransmittableQueue | src/core/packet_tracker.h:558-581 | a recorded top of the retransmission queue is the lowest LOST packet; a stale one can be dropped |
| PacketTracking.TopOfSentQueue | src/core/packet_tracker.h:513-531 | a live top of the time queue is the packet longest in flight; a stale one can be dropped |
| PacketTracking.EmptyQueues | src/core/packet_tracker.h:508-567 | an empty queue means that no packet is in the state it serves |
| SenderModel.ChunksFlatten | src/core/core.cpp:1216-1230 | cutting a user buffer into payloads loses no byte and adds none |
| SenderModel.ChunksCount | src/core/buffer.cpp:204-213 | the packets cut by `send` are as many as the blocks `addBuffer` uses |
| SenderModel.EnqueueAllKeepsInv | src/core/core.cpp:1216-1230 | packetising keeps the accounting of the sender |
| SenderModel.TransmitKeepsInv | src/core/core.cpp:1826-1853 | a transmission, first or repeated, keeps bytes in flight, identifiers and reports in balance |
| SenderModel.NextIsLostFirst | src/core/core.cpp:1826-1839 | the packet picked is one that waits for all lost packets with lower numbers, and if it is new for all lost ones and all new ones with lower numbers |
| SenderModel.LossKeepsInv | src/core/core.cpp:1579-1598 | so does a loss report |
| SenderModel.AckKeepsInv | src/core/core.cpp:1608-1672 | so does a final ack, also when the packet had been reported lost |
| SenderModel.AckReleases | src/core/core.cpp:1627-1632 | the last data ack moves up to the lowest number still recorded, and the block count down by as much, whatever the state of the packet was, if and only if that number is less than half the circle away |
| SenderModel.AckKeepsBuffer | src/core/core.cpp:1627-1632 | an acknowledgement leaves as many numbers without a block as before; it asks for more blocks than the send buffer holds if and only if fewer numbers than those remain |
| SenderModel.SendKeepsBuffer | src/core/core.cpp:1232-1243 | `send` adds as many numbers without a block as its cut-down size leaves out, and none if and only if the nominal buffer has room for the whole call |
| Sender.UdtSender.Send | src/core/core.cpp:1133-1254 | refuses exactly a non-empty buffer on a full tracker; otherwise returns the smaller of the size and the room and leaves the state that enqueuing all packets and then adding to the buffer gives |
| Sender.UdtSender.PickNext | src/core/core.cpp:1826-1839 | picks the lowest LOST packet, else the lowest QUEUED one, and counts a first transmission in flight |
| Sender.UdtSender.PackData | src/core/core.cpp:1809-1873 | sends nothing exactly when there is nothing to send or the controller says no; otherwise sends the payload copied at enqueue under the next message number, lost packets first and lowest number first, and records the transmission with its time; no exit path is reached |
| Sender.UdtSender.AddToLossRecord | src/core/core.cpp:1579-1606 | reports every packet of a range once and marks it LOST |
| Sender.UdtSender.ProcessAck | src/core/core.cpp:1608-1675 | exits exactly for an ack of an unknown transmission, meets a null minimum exactly when it removes the last record, and otherwise acknowledges exactly the final acks; each of these releases the send buffer up to the lowest number still recorded, whatever the state of the packet was |
| Sender.UdtSender.SweepLosses | src/core/core.cpp:2003-2024 | the timeout loop ends and gives what a full scan over the SENT records gives, each expired packet reported once, oldest first; those are the packets sent longer ago than the threshold, to the microsecond |
| Sender.SweepDone | src/core/core.cpp:2009-2024 | stopping at the first packet that is not expired misses none |
| Sender.SweepAdvances | src/core/core.cpp:2009-2024 | each round that reports a packet leaves fewer packets in flight |
| Sender.OrderMarks | src/core/core.cpp:2009-2024 | reporting the oldest packet in flight keeps the reports in the order of the latest transmissions |
| Sender.SweepElapsed | src/core/core.cpp:2009-2024 | what a sweep marks lost was sent longer ago than the threshold, and what was sent more than a microsecond longer ago is marked |
| SweepRuns.SweepIsRun | src/core/core.cpp:2003-2024 | after any run of the protocol, a sweep goes on with one timeout for each expired packet, in the order of its reports; that is a run again and ends in the state that the sweep leaves |
| RcvRing.AddedValid | src/core/buffer.cpp:592-630 | storing inside the window keeps every slot up to the last ack full and every slot beyond the maximum empty; the "Full Buffer" path is not reached |
| RcvRing.Run | src/core/buffer.cpp:614-626 | the new run is the longest full one, so it ends at an empty slot |
| RcvRing.TakenReads | src/core/buffer.cpp:632-666 | a read takes exactly the next bytes, as many as asked for or ready |
| RcvRing.NotchedReads | src/core/buffer.cpp:638-659 | a partial read of the first packet leaves exactly its other bytes |
| RcvRing.PoppedReads | src/core/buffer.cpp:646-656 | using a packet up leaves exactly the bytes behind it |
| RcvBuffers.PosIsMod | src/core/buffer.cpp:593-594 | the index arithmetic on the ring is reduction modulo its size |
| RcvBuffers.RcvBuffer.AddData | src/core/buffer.cpp:592-630 | refuses exactly an occupied slot; otherwise stores the packet, marks the unit used, and returns the length of the newly contiguous run |
| RcvBuffers.RcvBuffer.FirstEmpty | src/core/buffer.cpp:614-626 | the scan stops at the first empty slot behind the last ack |
| RcvBuffers.RcvBuffer.ReadBuffer | src/core/buffer.cpp:632-666 | returns the next ready bytes, as many as asked for or there, and leaves exactly the rest |
| RcvBuffers.RcvBuffer.FreeFirst | src/core/buffer.cpp:646-656 | gives the first unit back to the pool |
| RcvBuffers.RcvBuffer.GetAvailBufSize | src/core/buffer.cpp:726-730 | the slots not ready for reading, less one |
| RcvBuffers.RcvBuffer.GetRcvDataSize | src/core/buffer.cpp:732-738 | the packets ready for reading |
| Receiver.UdtReceiver.ProcessData | src/core/core.cpp:1875-1920 | acks the very transmission that arrives, by packet and message number, before any check, stores exactly what lies in the window and was not there, and advances the expected number by the contiguous run |
| Receiver.UdtReceiver.Recv | src/core/core.cpp:1256-1342 | hands out the next ready bytes |
| Protocol.SendKeeps | src/core/core.cpp:1216-1243 | `send` keeps the agreement of sender, network and receiver on which packet carries what |
| Protocol.TransmitKeeps | src/core/core.cpp:1826-1853 | so does putting a packet on the network again |
| Protocol.TimeoutKeeps | src/core/core.cpp:2009-2024 | so does a timeout |
| Protocol.DeliverDataKeeps | src/core/core.cpp:1875-1920 | so does the arrival of any copy of any packet, at any time |
| Protocol.DeliverAckKeeps | src/core/core.cpp:1608-1672 | so does the arrival of any ack ever sent |
| Protocol.ReadKeeps | src/core/buffer.cpp:632-666 | so does a read |
| Protocol.OffsetIsTrue | src/core/core.cpp:1899-1906 | the offset computed at the receiver is the true distance for every packet it stores |
| Protocol.AddedDelivers | src/core/core.cpp:1908-1912 | the newly contiguous packets carry the next payloads of the stream |
| ProtocolRuns.RunKeepsInv | src/core/core.cpp:1608-1920 | the agreement holds in every state of every run |
| ProtocolRuns.DeliveredIsPrefix | src/core/buffer.cpp:632-666 | over every run with loss, repetition and reordering the bytes read are a prefix of the bytes given to `send` |
| ProtocolRuns.CopiesAgree | src/core/packet_tracker.h:105-114 | every copy of a packet on the network carries the payload copied at enqueue |
| ProtocolRuns.AcksAreKnown | src/core/packet_tracker.h:86-103 | no ack ever names a transmission the sender does not know, so the exit paths are not reached |
| ProtocolRuns.ArrivalAcked | src/core/core.cpp:1875-1877 | over every run, what has arrived has been acknowledged under its own message number |
| ProtocolRuns.AcksAreOfPackets | src/core/core.cpp:1875-1877 | every ack on the network is that of a transmission on the network, down to the message number |
| ProtocolRuns.LatestArrivalIsFinal | src/core/core.cpp:1609-1625 | once the latest transmission of a recorded packet has arrived, an ack that the sender takes as final is on the network |
| ProtocolRuns.CanBeForgotten | src/core/core.cpp:1608-1675 | from every reachable state any run goes on to one in which a given packet, sent and perhaps retransmitted, is acknowledged and forgotten, unless it is the last record |
| ProtocolRuns.LastAckIsLowest | src/core/core.cpp:1627-1632 | in every reachable state with records the last data ack is the lowest recorded number if and only if that is less than half the circle away, so always in shorter streams |
| ProtocolRuns.RunAccounting | src/core/core.cpp:1579-1672 | in every reachable state bytes in flight equal the sizes of SENT and LOST records plus those acked while LOST, and each transmission has had one verdict or is in flight |
| ProtocolRuns.RunTracksBuffer | src/core/core.cpp:1232-1243 | in every reachable state the numbers without a block are those that calls of `send` have cut off; the block count is the range from the last ack to the current number if and only if no call was cut down |
| ProtocolRuns.ArrivalHeld | src/core/core.cpp:1875-1912 | an acked arrival is held by the receiver if and only if it was inside the window |
| ProtocolRuns.RunLosesNothing | src/core/core.cpp:1875-1912 | with arrivals inside the window, whatever has been acked is in the ring or accepted |
| ProtocolRuns.ForgottenIsAccepted | src/core/core.cpp:1608-1627 | then what the sender has deleted is held by the receiver, and the last data ack never passes what was accepted |
| ProtocolRuns.AckedButDropped | src/core/core.cpp:1875-1906 | a concrete run with a ring of two slots in which the sender forgets a packet that the receiver never stored |
| Intervals.MembersIn | src/core/list.cpp:85-236 | the finite set of a list holds a number exactly when one of its intervals does |
| Intervals.TotalIsCard | src/core/list.cpp:347-351 | the length field of an ordered list is the cardinality of its set |
| LossSlots.LayInsert | src/core/list.cpp:157-169 | writing a node into its slot and linking it in lays out the list with the new interval |
| LossSlots.LaySplit | src/core/list.cpp:309-321 | writing the rest of an interval into the slot of its first number lays out the split list |
| LossSlots.LookUp | src/core/list.cpp:279-303 | a slot is occupied by a number exactly when an interval starts there |
| LossSlots.CompareIn | src/core/common.h:206-210 | comparisons of stored numbers are comparisons of positions inside the window |
| LossArrays.DecodeEncode | src/core/packet.cpp:126-144 | decoding the loss list coding gives back the ordered intervals |
| LossArrays.WordsMean | src/core/list.cpp:664-676 | the first word of an interval names its first number, and its top bit says whether the last number follows |
| LossArrays.PagesDecode | src/core/list.cpp:657-684 | pages taken one after another decode to all the intervals in order |
| SndLossLists.SndLossList.Insert | src/core/list.cpp:85-236 | set union, returning the number of new elements, for any overlap with the intervals present |
| SndLossLists.SndLossList.Coalesce | src/core/list.cpp:203-233 | absorbing the following nodes restores an ordered list with the same set |
| SndLossLists.SndLossList.FindPrior | src/core/list.cpp:143-155 | the walk along the links, from the last insertion or the head, ends at the last interval that starts before the new one |
| SndLossLists.SndLossList.Remove | src/core/list.cpp:238-345 | deletes exactly the numbers that are not greater than its argument |
| SndLossLists.SndLossList.GetLostSeq | src/core/list.cpp:353-395 | returns and removes the least number, or -1 for the empty list |
| SndLossLists.PoppedFacts | src/core/list.cpp:368-392 | taking the first number off the list keeps its order and removes the minimum of the set |
| RcvLossLists.RcvLossList.Insert | src/core/list.cpp:426-470 | set union for a range above everything present |
| RcvLossLists.RcvLossList.Remove | src/core/list.cpp:472-604 | removes exactly one number, shrinking, dropping or splitting its interval, with both link directions inverse; the result says whether it was there |
| RcvLossLists.RcvLossList.ScanBack | src/core/list.cpp:546-553 | the backward scan over slots ends at the only interval that can hold the number |
| RcvLossLists.RcvLossList.RemoveRange | src/core/list.cpp:606-621 | removes the whole range when it does not wrap; when it wraps, all of it but the number 2^31-1; the loop counter overflows exactly for a plain range that ends at that number |
| RcvLossLists.WrappedRemoveExact | src/core/list.cpp:611-618 | the wrapped form is exact if and only if that number was not in the list |
| RcvLossLists.RcvLossList.Find | src/core/list.cpp:623-643 | true if and only if the set meets the range |
| RcvLossLists.RcvLossList.GetLossArray | src/core/list.cpp:657-684 | writes the coding of consecutive intervals from an offset, stops short of the end only when the page is full, and always makes progress |
| SndBuffers.SndBuffer.constructor | src/core/buffer.cpp:48-99 | an empty queue whose circle of blocks has one buffer |
| SndBuffers.SndBuffer.AddBuffer | src/core/buffer.cpp:204-256 | appends the segments the data is cut into, each with its message number and flags |
| SndBuffers.SndBuffer.Increase | src/core/buffer.cpp:429-561 | one more buffer of blocks, also in mid-buffer; no block moves when counted from the front, and both indexes agree again |
| SndBuffers.SndBuffer.FindBeforeFirst | src/core/buffer.cpp:447-470 | walking inside one buffer finds the block in front of the first one |
| SndBuffers.SndBuffer.SpliceBlocks | src/core/buffer.cpp:487-516 | the new blocks, numbered on from the first block, join the circle in front of it |
| SndBuffers.SndBuffer.AttachBuffer | src/core/buffer.cpp:472-529 | the new buffer takes over the old start of the first one when the front is in mid-buffer |
| SndBuffers.SndBuffer.Jump | src/core/buffer.cpp:322-338 | jumping whole buffers and walking the rest reaches the block that `offset` single steps reach, up to once around the circle |
| SndBuffers.SndBuffer.ReadData | src/core/buffer.cpp:316-367 | the segment `offset` places into the queue, bytes and message number |
| SndBuffers.SndBuffer.AckData | src/core/buffer.cpp:369-423 | drops exactly `offset` segments from the front and keeps both indexes, if and only if there are as many; otherwise the count goes below zero; what is dropped behind an overtaken read position stays in the blocks |
| SndBuffers.SndBuffer.ReadNext | src/core/buffer.cpp:300-314 | what is at the read position until the end is reached: the next segment, or an acknowledged one again once acknowledgements have overtaken it |
| SndBuffers.SndBuffer.CollectUnsent | src/core/buffer.cpp:136-152 | copies everything from the read position to the end, through acknowledged blocks if it has been overtaken |
| SndBuffers.SndBuffer.ResizeMss | src/core/buffer.cpp:125-202 | cuts everything from the read position on again; the count and the last block agree and the bytes of the queue survive if and only if the buffer is resizable |
| SndBuffers.InPlaceGrown | src/core/buffer.cpp:496-516 | block numbers restart at each buffer's first block after a splice |
| SndBuffers.HeadsGrown | src/core/buffer.cpp:520-529 | every buffer starts a whole number of units into the grown circle |
| SndBuffers.KeptGrown | src/core/buffer.cpp:510-516 | no block moves when counted from the front |
| SndBuffers.SplitPosition | src/core/buffer.cpp:323-338 | jumping and walking split a position uniquely, around the circle |
| SndBuffers.RotateIndex | src/core/buffer.cpp:369-423 | moving the front to another buffer turns both circles consistently |
| SndBuffers.RotatePassed | src/core/buffer.cpp:369-423 | acknowledged segments stay in their blocks, between the read position and the new front |
| SndBuffers.Overtaken | src/core/buffer.cpp:136-202 | after a rewrite from an overtaken read position the buffer shows the queue if and only if the passed blocks make up the same number of packets of the new size |
| SndBuffers.OvertakenBytes | src/core/buffer.cpp:157-202 | dropping as many new packets as there were passed blocks leaves exactly the queue if and only if those blocks hold that many packets of bytes |
| SndBuffers.ChunksDrop | src/core/buffer.cpp:224-232 | the bytes behind the first k packets |
| SndBuffers.MessageParts | src/core/buffer.cpp:234-240 | number and flags can be read back from a message word |
| SndBuffers.SegmentFlags | src/core/buffer.cpp:224-245 | the first packet of a buffer carries the first flag, the last one the last flag, and each its own number |
| SndBuffers.SegmentBytes | src/core/buffer.cpp:224-232 | packet i carries the bytes from i times the packet size on |
| MonitorIntervals.LoseAllSums | src/pcc/pcc_monitor_interval_queue.cpp:159-165 | an interval counts as lost exactly the bytes of the listed packets in its range |
| MonitorIntervals.AckAllSums | src/pcc/pcc_monitor_interval_queue.cpp:167-214 | an interval counts as acked exactly the bytes of the pending packets in its range, as samples exactly those packets, and as reliable exactly those of them with a reliable sample; it has enough from four on |
| MonitorIntervals.LandedSums | src/pcc/pcc_monitor_interval_queue.cpp:159-214 | a report takes out of the flight what it lists in a range |
| MonitorIntervals.AdvanceKeepsBalance | src/pcc/pcc_monitor_interval_queue.cpp:146-237 | for a useful interval acked, lost, pending and flying bytes always add up to the bytes sent |
| MonitorIntervals.SkippingLosesNothing | src/pcc/pcc_monitor_interval_queue.cpp:153-157 | no report concerns an interval that is already available, so skipping it loses nothing |
| MonitorQueues.SentKeeps | src/pcc/pcc_monitor_interval_queue.cpp:110-130 | a packet sent in the last interval keeps shape, ranges, times and conservation |
| MonitorQueues.OpenKeeps | src/pcc/pcc_sender.cpp:178-195 | so does a packet that opens a new interval |
| MonitorQueues.EventKeeps | src/pcc/pcc_monitor_interval_queue.cpp:132-237 | so does a report that finds no invalid utility |
| MonitorQueues.IdleKeeps | src/pcc/pcc_monitor_interval_queue.cpp:140-144 | so does a report that is skipped because no interval is useful |
| MonitorQueues.RemoveKeeps | src/pcc/pcc_monitor_interval_queue.cpp:259-267 | removing all useful intervals leaves nothing or one useless interval |
| MonitorQueues.ReadyIntervals | src/pcc/pcc_monitor_interval_queue.cpp:244-257 | when all are available their number is the useful count and each has two send times, so the assertions hold |
| MonitorQueues.NeverBlocks | src/pcc/pcc_sender.cpp:286-295 | at most two intervals are not useful |
| MonitorQueues.ExtendKeeps | src/pcc/pcc_monitor_interval_queue.cpp:280-283 | extending the last interval keeps everything |
| MonitorQueues.PccMonitorIntervalQueue.EnqueueNewMonitorInterval | src/pcc/pcc_monitor_interval_queue.cpp:97-108 | appends one empty interval and counts it if useful |
| MonitorQueues.PccMonitorIntervalQueue.OnPacketSent | src/pcc/pcc_monitor_interval_queue.cpp:110-130 | the last interval takes the packet, its first one setting the start |
| MonitorQueues.PccMonitorIntervalQueue.CountReports | src/pcc/pcc_monitor_interval_queue.cpp:147-228 | one interval's share of a report in bytes, samples and reliable samples, whether it is available, and whether it has just become invalid |
| MonitorQueues.PccMonitorIntervalQueue.CountAll | src/pcc/pcc_monitor_interval_queue.cpp:146-228 | every interval takes its share unless an invalid one ends the loop; the count of available ones is exact |
| MonitorQueues.PccMonitorIntervalQueue.OnCongestionEvent | src/pcc/pcc_monitor_interval_queue.cpp:132-268 | the verdict: discard exactly when some interval became invalid, ready exactly when all useful ones are available; the new intervals and pending packets |
| MonitorQueues.JudgedMeans | src/pcc/pcc_monitor_interval_queue.cpp:146-242 | the verdict in terms of what the report lists: discard if some useful interval with one sending time is completed by it, ready if otherwise every useful one has all its bytes acked or lost and four reliable samples |
| MonitorQueues.PccMonitorIntervalQueue.RemoveUseful | src/pcc/pcc_monitor_interval_queue.cpp:259-267 | drops everything up to the last useful interval and never pops an empty queue |
| RateVotes.DecisionIsMajority | src/pcc/pcc_vivace_sender.cpp:134-162 | when a decision can be made the chosen direction has a strict majority, for any number of groups |
| RateVotes.BetterSide | src/pcc/pcc_vivace_sender.cpp:164-202 | the better interval of a group that voted for a direction has its rate on that side |
| RateVotes.VoteMeans | src/pcc/pcc_vivace_sender.cpp:142-148 | a group votes for the side of the better utility, the second interval counting as better on a tie |
| RateVotes.VotersCount | src/pcc/pcc_vivace_sender.cpp:140-155 | the votes are the number of groups on either side |
| RateVotes.DecidedMeans | src/pcc/pcc_vivace_sender.cpp:156-161 | a primary sender decides to go up on a majority and down on unanimity, a scavenger the other way round |
| RateVotes.SupportSplits | src/pcc/pcc_vivace_sender.cpp:276-294 | every utility difference counts for exactly one direction |
| RateVotes.SupportMeans | src/pcc/pcc_vivace_sender.cpp:276-294 | a direction no group voted for has no support, and one all groups voted for has all differences |
| RateVotes.CountVotes | src/pcc/pcc_vivace_sender.cpp:140-155 | the loop counts the groups on either side |
| RateVotes.CanMakeDecision | src/pcc/pcc_vivace_sender.cpp:134-162 | true exactly when the votes are clear enough for the kind of sender |
| RateVotes.ChooseDirection | src/pcc/pcc_vivace_sender.cpp:164-202 | the winner, and as stored info the better interval of the last group that voted so |
| RateVotes.SumSupport | src/pcc/pcc_vivace_sender.cpp:276-294 | the loop sums the support of the direction, which is what the groups that voted for it differ by |
| RateControl.ProbeNext | src/pcc/pcc_sender.cpp:604-616 | each pair of a PROBING round holds one raised and one lowered rate |
| RateControl.TiltUndone | src/pcc/pcc_sender.cpp:749-758 | over exact reals leaving a step returns to the centre |
| RateControl.Capped | src/pcc/pcc_vivace_sender.cpp:322-338 | a rate change is at least the minimum and at most the larger of the allowed share of the rate and the minimum |
| RateControl.NextAllowance | src/pcc/pcc_vivace_sender.cpp:312-335 | the step allowance grows by at most one |
| RateControl.CappedMeans | src/pcc/pcc_vivace_sender.cpp:322-338 | the change is the asked one between the bounds, and else the bound; the allowance grows exactly when the change is held back |
| RateControl.RawChangeMeans | src/pcc/pcc_vivace_sender.cpp:308-317 | the asked change times the rate difference is the utility difference per squared megabit, amplified |
| RateControl.MaxChangeMeans | src/pcc/pcc_vivace_sender.cpp:322-325 | the allowed share is a twentieth of the rate, and one more for each step of the allowance |
| RateControl.CentredDecision | src/pcc/pcc_vivace_sender.cpp:236-261 | a decision taken from the centre never lands on the stored rate |
| RateControl.SkewedDecision | src/pcc/pcc_vivace_sender.cpp:236-306 | a decision taken away from the centre, as while the last interval is useful, lands on the stored rate if and only if it undoes the step and the change equals that step |
| RateControl.SkewedClash | src/pcc/pcc_vivace_sender.cpp:296-306 | a centre at which it does, whatever change the utilities ask for |
| RateClashes.Clash | src/pcc/pcc_vivace_sender.cpp:296-306 | a report that completes a round at the stored rate ends at the comparison of equal rates |
| RateClashes.ReachClash | src/pcc/pcc_vivace_sender.cpp:66-132 | a run of a new controller, from the first packet through STARTING and a round of PROBING, to a sender whose next report does that |
| RateClashes.TagInRound | src/pcc/pcc_sender.cpp:278-280 | a run of a new controller whose tag becomes the one of a scavenger when six intervals of the round have been sent; the next report completes all six |
| RateClashes.LongRound | src/pcc/pcc_vivace_sender.cpp:86-94 | with two groups voting up that report ends at the comparison of the size of the round |
| RateClashes.DecideUp | src/pcc/pcc_vivace_sender.cpp:86-106 | in that run a decision taken in mid-step leaves DECISION_MADE at exactly the stored rate |
| RateClashes.GoesUp | src/pcc/pcc_vivace_sender.cpp:236-261 | whatever the utilities of that round, its decision lands on the rate of the faster intervals |
| PccSenders.PccVivaceSender.constructor | src/pcc/pcc_sender.cpp:124-158 | the initial rate is at least the minimum if and only if the initial window is at least five packets |
| PccSenders.PccVivaceSender.SetUtilityTag | src/pcc/pcc_utility_manager.cpp:83-87 | a change of the tag at any time keeps the invariant; the round is too long for the new tag exactly when a PROBING round of more than four useful intervals becomes one of a scavenger |
| PccSenders.PccVivaceSender.SetUtilityParameter | src/pcc/pcc_utility_manager.cpp:99-107 | a parameter is kept exactly when the tag takes parameters |
| PccSenders.PccVivaceSender.RetaggedMeans | src/pcc/pcc_sender.cpp:711-722 | a hybrid sender becomes a scavenger exactly when its higher probing rate is above the first parameter |
| PccSenders.WrongSizeNeeds | src/pcc/pcc_vivace_sender.cpp:86-94 | the size assertion of a PROBING round can fail only above the limit of the tag |
| PccSenders.PccVivaceSender.CreateNewInterval | src/pcc/pcc_sender.cpp:497-545 | when a new interval is due and when the last one is extended instead, which happens once; it never asks an empty queue |
| PccSenders.PccVivaceSender.DueMeans | src/pcc/pcc_sender.cpp:497-545 | when a new interval is due, and when the last one is extended, in terms of times and sample counts |
| PccSenders.PccVivaceSender.CreateUsefulInterval | src/pcc/pcc_sender.cpp:547-560 | useful exactly with a round-trip time and below one, four or six useful intervals, by mode and tag; its assertion holds |
| PccSenders.PccVivaceSender.RestoreCentralSendingRate | src/pcc/pcc_sender.cpp:742-758 | gives back the centre of the round if the last interval is useful, and else leaves the rate |
| PccSenders.PccVivaceSender.MaybeSetSendingRate | src/pcc/pcc_sender.cpp:581-617 | the next step of a PROBING round, opposite within a group; the centre once the round is full; another step if it is over-full |
| PccSenders.PccVivaceSender.PacingRate | src/pcc/pcc_sender.cpp:306-309 | the rate of the last interval, which in PROBING is the sending rate while it is useful |
| PccSenders.PccVivaceSender.OnPacketSent | src/pcc/pcc_sender.cpp:160-204 | a new interval opens exactly when due and takes the packet; the whole invariant of sender and queue is kept, and a round within the limit of its tag stays within it |
| PccSenders.PccVivaceSender.CanSend | src/pcc/pcc_sender.cpp:286-295 | never blocks |
| PccSenders.PccVivaceSender.EnterProbingPlain | src/pcc/pcc_sender.cpp:679-723 | back to the centre, unless an over-full round has left it, or half the STARTING rate |
| PccSenders.PccVivaceSender.ComputeRateChange | src/pcc/pcc_vivace_sender.cpp:263-339 | fails exactly for equal rates; otherwise the change is the asked one if it lies between the minimum and the allowed share, and else that bound, and the new allowance |
| PccSenders.PccVivaceSender.EnterDecisionMade | src/pcc/pcc_vivace_sender.cpp:236-261 | moves the rate in the decided direction, or falls back to PROBING at the minimum |
| PccSenders.PccVivaceSender.EnterProbing | src/pcc/pcc_vivace_sender.cpp:204-234 | takes a change back and never goes below the minimum |
| PccSenders.PccVivaceSender.Decide | src/pcc/pcc_vivace_sender.cpp:86-106 | the decision of a PROBING round: majority direction, stored rate on the tilted side of the centre, and the rate and allowance it leads to |
| PccSenders.PccVivaceSender.DecideFurther | src/pcc/pcc_vivace_sender.cpp:108-130 | one more change in the same direction exactly when that pays, or the last one undone; fails exactly for equal rates, which takes a decision made away from the centre |
| PccSenders.PccVivaceSender.OnUtilityAvailable | src/pcc/pcc_vivace_sender.cpp:49-132 | the new mode, rate, direction, rounds, allowance, stored info and effective tag in all modes; the two sizes of one hold, and the size of a PROBING round differs from what is asserted exactly when it can be decided and is too long |
| PccSenders.PccVivaceSender.HandleReports | src/pcc/pcc_monitor_interval_queue.cpp:132-268 | what reports change when they complete no round, and the queue that remains when they do |
| PccSenders.PccVivaceSender.OnCongestionEvent | src/pcc/pcc_sender.cpp:227-268 | every event keeps the invariant of sender and queue, except in three cases stated exactly: no round-trip time has been seen and the event brings none or a zero one; a completed DECISION_MADE interval ran at the stored rate; or a completed PROBING round can be decided and has more intervals than the present tag asks for |
| PccSenders.PccVivaceSender.Measure | src/pcc/pcc_sender.cpp:241-256 | fails exactly when the first event brings no round-trip time above zero; the first one scales the initial rate up, later ones leave it |
| PccSenders.RoundFacts | src/pcc/pcc_vivace_sender.cpp:271-306 | in a decided round the rates of every pair differ, so the probing rate difference is never zero |
| PccSenders.StoredSide | src/pcc/pcc_vivace_sender.cpp:164-202 | the stored rate is the centre tilted the way of the decision |
| PccSenders.DecisionBounds | src/pcc/pcc_vivace_sender.cpp:236-261 | after a decision the rate is at least the minimum and the allowance at most the rounds |
| PccSenders.FurtherBounds | src/pcc/pcc_vivace_sender.cpp:236-261 | further decisions keep both |
| PccSenders.AskedMeans | src/pcc/pcc_vivace_sender.cpp:268-317 | in PROBING the change is asked for by the mean support of the direction, in DECISION_MADE by the comparison with the stored interval, amplified |
| PccSenders.StartingUndone | src/pcc/pcc_vivace_sender.cpp:70-82 | in STARTING a rise of the utility followed by a fall leads to PROBING at the rate before the rise |
| PccSenders.UndecidedRound | src/pcc/pcc_vivace_sender.cpp:97-106 | a round without a decision goes on from where it is back at, or ends in STARTING at the minimum |
| PccSenders.DecidedRound | src/pcc/pcc_vivace_sender.cpp:86-106 | a decided round moves the rate in the direction of the winner by more than a probing step, or ends at the minimum |
| PccSenders.GoesOnMeans | src/pcc/pcc_vivace_sender.cpp:110-121 | going on pays exactly if utility and rate moved together while going up, or against each other while going down |
| PccSenders.FollowedSide | src/pcc/pcc_vivace_sender.cpp:108-130 | DECISION_MADE goes on in its direction by at least the least change, or back by at least that into PROBING |
| PccSenders.MeasuredMeans | src/pcc/pcc_sender.cpp:247-256 | the first round-trip time keeps the product of rate and time |
| ControlTraces.LogAppend | src/core/core.cpp:1593-1597 | one more call on the controller adds a transmission to those in flight or takes one out |
| ControlTraces.TransmitTraced | src/core/core.cpp:1848-1852 | every announced transmission has a new identifier, and the log agrees with the records on what is in flight |
| ControlTraces.LossTraced | src/core/core.cpp:1585-1597 | every loss report names a transmission in flight with its size |
| ControlTraces.AckTraced | src/core/core.cpp:1646-1671 | so does every ack report, and no report is made for a packet already counted as lost |
| ControlTraces.RunTraced | src/core/core.cpp:1579-1853 | over every run the controller is told only what it expects, and believes in flight exactly what the sender has in flight |
| ControlTraces.Hear | src/core/core.cpp:1593-1597 | one call from the log meets the preconditions of the controller; it ends in a valid sender, or in one of the three failing cases, each stated exactly |
| ControlTraces.Replay | src/core/core.cpp:1579-1853 | the whole log of a run can be played to a new controller, with changes of the utility options in between; it stops at the first report if and only if that brings no round-trip time, and otherwise only at a report that completes a round at the stored rate, or one of the wrong size after the tag was set to a scavenger's |
| Failures.TimedOutFirst | src/core/core.cpp:2009-2024 | a run of the protocol in which the first report to the controller is a loss |
| Failures.LossBeforeAck | src/pcc/pcc_sender.cpp:247-256 | played to a new controller, that log ends in the division by a round-trip time of zero, whatever the inputs are |
| Failures.LastAckEmpties | src/core/core.cpp:1627-1628 | a run of the protocol with an acknowledgement on the network that empties the tracker of a sender with one packet |
| Failures.SendOnly | src/core/core.cpp:1133-1254 | a new sender object reaches the same state |
| Failures.LastAck | src/core/core.cpp:1627-1629 | from that state of the sender `ProcessAck` dereferences a null minimum |
| Failures.LeftBehind | src/core/core.cpp:1627-1632 | a run in which the first packet is acknowledged after half a circle of others, and the last data ack stays behind |
| Failures.CutShort | src/core/core.cpp:1232-1243 | a run in which `send` is cut down to one packet of three, and the second acknowledgement asks for a block when none is left |
| Failures.ReaderOvertaken | src/core/buffer.cpp:204-423 | two packets and one acknowledgement give a valid buffer that shows the one byte of its queue and is not resizable |
| Failures.OvertakenResize | src/core/buffer.cpp:125-202 | from that state a new packet size leaves a buffer that no longer holds the byte of the queue |
| Failures.TwoStored | src/core/queue.cpp:84-119 | a new pool of three units of which the first two are in use |
| Failures.LastMissed | src/core/queue.cpp:185-216 | no unit comes out of such a pool although its last one is free, and it does not grow |
| Failures.SixSockets | src/core/queue.cpp:377-429 | six sockets put into a new list in heap order, with one of them like that |
| Failures.UnorderedRemoval | src/core/queue.cpp:431-469 | the removal of any node whose slot the last one may not fill leaves the list out of order |
| Failures.FullHeap | src/core/queue.cpp:274-301 | 4096 sockets fit a new list through `update` |
| Failures.OneTooMany | src/core/queue.cpp:377-379 | one more socket for a full list of 4096 is written past its end |
| Failures.AcrossTheEnd | src/core/list.cpp:426-470 | a new list with the numbers 2^31-1 and 0 |
| Failures.StaysBehind | src/core/list.cpp:611-618 | removing the range of the numbers 2^31-1 and 0 from a list of just these two leaves the first one in it |
| Failures.CounterOverflows | src/core/list.cpp:607-610 | removing the range of the number 2^31-1 alone empties the list and overflows the loop counter |
| SndULists.RootIsEarliest | src/core/queue.cpp:312-320 | the root of an ordered heap has the earliest time |
| SndULists.UpStep | src/core/queue.cpp:394-405 | one step up keeps the order above the moved node |
| SndULists.DownStep | src/core/queue.cpp:442-460 | one step down to the earlier child keeps the order below |
| SndULists.AfterRemoval | src/core/queue.cpp:434-441 | refilling a slot breaks the order only between it and its parent, and then nothing below it |
| SndULists.SndUList.Insert | src/core/queue.cpp:245-272 | adds a node, doubling a full array; one already inside is left alone |
| SndULists.SndUList.InsertNode | src/core/queue.cpp:377-429 | back-pointers stay a bijection with the slots, the multiset grows by the node, order is kept; a new node does not fit exactly when the array is full |
| SndULists.SndUList.RemoveNode | src/core/queue.cpp:431-469 | the multiset loses the node; the heap stays ordered if and only if the last node may fill the slot, and otherwise is out of order only at that slot |
| SndULists.SndUList.Update | src/core/queue.cpp:274-301 | order and contents after moving a node to the time 1, which at the root keeps the order if and only if no other time is smaller; a new node does not fit exactly when the array is full |
| SndULists.SndUList.Pop | src/core/queue.cpp:303-359 | serves the earliest node when its time has come, and reinserts or drops it, with its back-pointer cleared; order is kept |
| RcvULists.BypassChained | src/core/queue.cpp:620-646 | links that lead around a node thread the list without it |
| RcvULists.RcvUList.Insert | src/core/queue.cpp:601-618 | a new socket goes to the end, and the list stays sorted |
| RcvULists.RcvUList.Remove | src/core/queue.cpp:620-646 | takes exactly one node out of both chains |
| RcvULists.RcvUList.Update | src/core/queue.cpp:648-674 | moves a node to the end with the current time, and the list stays sorted |
| RcvULists.RcvUList.Sweep | src/core/queue.cpp:1059-1078 | ends, and visits each expired socket exactly once in order; live ones go to the end with the time of their check, others leave and are marked as off the list |
| UnitQueues.UnitQueue.Increase | src/core/queue.cpp:121-178 | recounts the used units and adds one entry of free units exactly when nine tenths are used |
| UnitQueues.ExhaustedMeans | src/core/queue.cpp:196-211 | a search finds nothing exactly when all free units are last ones of entries with others, or lie in the current entry between its first unit and the remembered place |
| UnitQueues.UsedIsCard | src/core/queue.cpp:121-141 | the recount gives the number of units in use |
| UnitQueues.UnitQueue.constructor | src/core/queue.cpp:84-119 | a pool of one entry of distinct free units |
| UnitQueues.UnitQueue.Search | src/core/queue.cpp:194-211 | once around the entries finds a unit if and only if they are not exhausted |
| UnitQueues.UnitQueue.GetNextAvailUnit | src/core/queue.cpp:185-216 | a unit handed out is free, in the pool, and not the last of an entry with others; none is handed out if and only if the pool has no reason to grow, the current entry is used from the remembered place to its last unit but one and at its first, and all other entries are used but for their last units; when the pool grows |
| UnitQueues.StoredIsNotFree | src/core/queue.cpp:185-216 | a unit that stores an unread packet is not handed out again |
| Md5.AbsorbConcat | src/core/md5.cpp:352-355 | whole blocks can be compressed piece by piece |
| Md5.PadLength | src/core/md5.cpp:377-378 | the padding brings the length to 56 modulo 64 |
| Md5.LengthValue | src/core/md5.cpp:373-376 | the eight length bytes are the bit count modulo 2^64, low-order first |
| Md5.DigestWords | src/core/md5.cpp:381-383 | the four words can be read back from the digest bytes, low-order first |
| Md5.PaddedWhole | src/core/md5.cpp:364-384 | the padded message is whole blocks and starts with the message |
| Md5.PaddedWell | src/core/md5.cpp:364-384 | the message is followed by 0x80, the fewest zeros that leave room for the length in the last block, and eight bytes with the bit count modulo 2^64 |
| Md5.InitialBytes | src/core/md5.cpp:312-319 | the initial words are 01 23 45 67 and so on, as listed in section 3.3 of RFC 1321 |
| Md5.AbsorbOne | src/core/md5.cpp:352-355 | a single block is compressed once |
| Md5.CountCarries | src/core/md5.cpp:332-337 | the two count words with their carry hold the bit count modulo 2^64 |
| Md5.State.Fill | src/core/md5.cpp:339-350 | data goes behind the waiting bytes; a block that fills up is compressed with them |
| Md5.State.Append | src/core/md5.cpp:322-361 | the digest is that of all full blocks so far and the rest waits in the buffer; the sum of place and length overflows exactly from 2^31 on |
| Md5.State.Finish | src/core/md5.cpp:364-384 | the sixteen bytes of the digest of the message followed by 0x80, zeros and its length |
| Md5.HashParts | src/core/md5.cpp:313-384 | for every split of a message into appends the digest is that of the whole message, followed by 0x80, zeros and its length, unless some append overflows, which is stated exactly |

## Left out

- I/O, threads, condition variables, `CChannel`, epoll, the socket API and the applications: a
  lock-protected region is one atomic step and arriving packets are inputs.
- The round-trip estimate, the timeout threshold, clock readings and the controller's permission to send
  are inputs of the sender's methods.
- PacketTracking.PacketTracker.EnqueuePacket: records are values in a map, while the source stores
  pointers to heap records. Nothing is said about the queues after a number is used twice.
- PacketTracking.PacketTracker.OnPacketSent: a packet that is in no queue meets an empty one in the
  source, which is undefined there; the queue must not be empty. Send times are distinct.
- Sender.UdtSender.ProcessAck: an ack that empties the tracker makes the source dereference a null
  minimum; the outcome is reported and no state after it is described. The round-trip estimate that it
  updates is an input of the timeout.
- Sender.UdtSender.PackData: the time of the next packet is not computed.
- Receiver.UdtReceiver.Recv: waiting for data, time-outs and error codes.
- Sender.UdtSender.Send: stated for numbers that do not pass 2^31-1, because the tracker compares them
  without wrap-around; blocking and the error codes of a broken or full socket are one failing outcome.
- Sender.UdtSender.AddToLossRecord: the controller's log has one entry for each packet, where the source
  passes a vector in one call; stated for packets in flight, which is what its one caller passes.
- The sender class counts the blocks of its send buffer; the buffer with its contents is modelled apart, in
  `SndBuffers`.
- RcvBuffers.RcvBuffer.ReadBuffer: the start position is written in every round rather than once after
  the loop, under the same lock.
- Datagram, file and time-to-live paths, `CRcvBuffer::AckData`, `CACKWindow` and `CCache`.
- SndLossLists.SndLossList.Insert: stated for a range that together with the list fits a window shorter
  than the array and than 2^30-1 numbers, outside of which slots collide.
- SndLossLists.SndLossList.Remove: stated for an argument within half the circle of the head, as its
  comparison requires.
- RcvLossLists.RcvLossList.Insert: stated for ranges above everything present, which is what its caller
  passes.
- RcvLossLists.RcvLossList.RemoveRange: the set is stated up to the overflow of the counter, not after it.
- SndBuffers.SndBuffer.ResizeMss: blocks that were never filled hold arbitrary bytes, where the source
  reads uninitialised memory. Message numbers wrap at 32 bits.
- SndBuffers.SndBuffer.AckData: after the count has gone below zero only the fields it writes are described.
- SndBuffers.SndBuffer.ReadData: origin times and time-to-live, which is disabled on the stream path.
- SndBuffers.SndBuffer.Increase: allocation failure, and the byte addresses of blocks in the storage of
  their buffer.
- Rounding: rates, utilities and times of the controller are exact reals.
- Utilities, the amplifying power of a step, the random first direction, the reliability of a round-trip
  sample and the inflation test are inputs; the formulas behind them are not modelled.
- PccSenders.PccVivaceSender.OnCongestionEvent: the sender after a failure is described only as far as the
  failing comparison needs it; round-trip times are not negative.
- PccSenders.PccVivaceSender.SetUtilityParameter: only the first parameter is used, as the switching rate of a
  hybrid sender; that a utility is computed from a parameter that was never set is not modelled.
- ControlTraces.Replay: clock readings do not go back, and each call reports one packet, as `core.cpp` does.
- PccSenders.PccVivaceSender.EnterProbingPlain: there is no case for DECISION_MADE, in which the Vivace
  sender does not call it.
- MonitorQueues.PccMonitorIntervalQueue.OnCongestionEvent: the call to the delegate is the verdict,
  followed by `RemoveUseful`; the samples kept for the utility formulas are counted, not stored.
- The base class's own `OnUtilityAvailable`, `EnterDecisionMade` and rate for useless intervals are
  overridden in the Vivace sender.
- SndULists.SndUList.Update: nothing is said about memory after a write past the array.
- SndULists.SndUList.Pop: the result of packing is an input.
- RcvULists.RcvUList.Sweep: the clock readings of the updates are an increasing input, and whether a
  socket is alive is fixed for one sweep.
- UnitQueues.UnitQueue.GetNextAvailUnit: the circular list of entries is a sequence; allocation failure.
- Md5.State.Append: nothing is said after an overflow; the shift of the length by three bits wraps at 32
  bits. `md5_process` is an arbitrary function of digest and block.
- Md5.HashParts: the lengths of the parts are themselves of type `int`.
