/** The sending side of one socket (`CUDT` in core.cpp): packetising, packing, acknowledgement
    and the loss sweep.  Each method is proved against the transition of the same name in
    SenderModel; in particular no `exit(-1)` path of the tracker is reached except by an
    acknowledgement that names a transmission that never happened. */
module Sender {
  import opened Arithmetic
  import opened Records
  import opened SeqNo
  import opened SenderModel
  import opened PacketTracking
  import opened MinQueues
  import opened Wrappers

  datatype AckOutcome = Processed | Exited | NullMinimum

  /** One loss report after another. */
  function LostAll(st: SenderState, order: seq<int>): SenderState {
    if order == [] then st
    else
      var mid, s := LostAll(st, order[..|order| - 1]), order[|order| - 1];
      if s in mid.records && mid.records[s].messages != [] then MarkedLost(mid, s) else mid
  }

  lemma LoseOneMore(st: SenderState, order: seq<int>, s: int)
    requires s in LostAll(st, order).records && LostAll(st, order).records[s].messages != []
    ensures LostAll(st, order + [s]) == MarkedLost(LostAll(st, order), s)
  {
    assert (order + [s])[..|order|] == order;
  }

  /** All the send times lie before the clock reading of the sweep. */
  ghost predicate SentBefore(rs: Recorded, cur: nat) {
    forall s :: s in rs && rs[s].messages != [] ==> rs[s].LastSent() <= cur
  }

  /** Part of a sweep: every record is as before, or was expired and is now lost. */
  ghost predicate PartlySwept(rs0: Recorded, rs: Recorded, cur: nat, thresholdUs: nat) {
    && rs.Keys == rs0.Keys
    && forall s :: s in rs ==>
         rs[s] == rs0[s] || (Expired(rs0[s], cur, thresholdUs) && rs[s] == rs0[s].(state := LOST))
  }

  /** When the oldest packet in flight is young enough, so are all others, and a partial
      sweep is a full one. */
  lemma SweepDone(rs0: Recorded, rs: Recorded, cur: nat, thresholdUs: nat, oldest: int)
    requires ValidRecords(rs0) && ValidRecords(rs) && PartlySwept(rs0, rs, cur, thresholdUs)
    requires SentBefore(rs0, cur) && cur < 1000 * TWO_64
    requires NoneIn(rs, SENT) || (OldestSent(rs, oldest) && !Expired(rs[oldest], cur, thresholdUs))
    ensures rs == SweptRecords(rs0, cur, thresholdUs)
  {
    forall s | s in rs && rs[s].state.SENT? ensures !Expired(rs[s], cur, thresholdUs) {
      assert rs[s].Valid() && rs0[s].Valid();
      AgeIsMonotone(cur, rs[oldest].LastSent(), rs[s].LastSent());
    }
    forall s | s in rs ensures rs[s] == SweptRecords(rs0, cur, thresholdUs)[s] {
    }
  }

  /** Sequence numbers are used consecutively. */
  ghost predicate UsedUpTo(used: set<int>, first: int, last: int) {
    forall s :: s in used <==> first <= s <= last
  }

  class UdtSender {
    const isn: int
    const tracker: PacketTracker
    const sndBufSize: int
    const payloadSize: nat
    var bytesInFlight: int
    var sndCurrSeqNo: int
    var sndLastDataAck: int
    var bufferCount: int
    var controllerLog: seq<ControlEvent>
    ghost var forgotten: nat

    ghost function State(): SenderState
      reads this, tracker
    {
      SenderState(isn, tracker.records, tracker.prevPacketId, sndCurrSeqNo, sndLastDataAck,
                  bytesInFlight, bufferCount, controllerLog, forgotten)
    }

    ghost predicate Valid()
      reads this, tracker
    {
      && tracker.Valid() && Inv(State()) && payloadSize > 0
      && UsedUpTo(tracker.history.used, isn, sndCurrSeqNo)
    }

    constructor (isn: int, packetLimit: int, sndBufSize: int, payloadSize: nat)
      requires 0 <= isn <= MAX_SEQ_NO && payloadSize > 0
      ensures Valid() && fresh(tracker) && BufferTracks(State())
      ensures State() == SenderState(isn, map[], 0, isn - 1, isn, 0, 0, [], 0)
      ensures this.sndBufSize == sndBufSize && this.payloadSize == payloadSize
      ensures tracker.packetLimit == packetLimit && tracker.history.stamped == map[]
    {
      this.isn, this.sndBufSize, this.payloadSize := isn, sndBufSize, payloadSize;
      tracker := new PacketTracker(packetLimit);
      bytesInFlight, bufferCount, forgotten := 0, 0, 0;
      sndCurrSeqNo, sndLastDataAck := isn - 1, isn;
      controllerLog := [];
    }

    method GetNextSeqNo() returns (s: int)
      modifies this`sndCurrSeqNo
      ensures s == sndCurrSeqNo
      ensures sndCurrSeqNo == if old(sndCurrSeqNo) == MAX_SEQ_NO then 0 else old(sndCurrSeqNo) + 1
    {
      sndCurrSeqNo := if sndCurrSeqNo == MAX_SEQ_NO then 0 else sndCurrSeqNo + 1;
      s := sndCurrSeqNo;
    }

    /** One round of the packetising loop. */
    method EnqueueChunk(payload: Payload)
      requires Valid() && sndCurrSeqNo < MAX_SEQ_NO
      modifies this`sndCurrSeqNo, tracker
      ensures Valid() && State() == Enqueued(old(State()), payload)
      ensures tracker.history.stamped == old(tracker.history.stamped) && tracker.packetLimit == old(tracker.packetLimit)
    {
      hide Inv, PacketTracker.Valid;
      EnqueueKeepsInv(State(), payload);
      RecordsBelow(State());
      var s := GetNextSeqNo();
      var r := tracker.EnqueuePacket(s, payload);
    }

    /** `None` when the call is refused because the tracker is full; otherwise the number of
        bytes that `send` reports. */
    method Send(data: Payload) returns (r: Option<int>)
      requires Valid()
      requires sndCurrSeqNo + |Chunks(data, payloadSize)| <= MAX_SEQ_NO  // sequence numbers do not wrap
      modifies this, tracker
      ensures Valid()
      ensures tracker.history.stamped == old(tracker.history.stamped) && tracker.packetLimit == old(tracker.packetLimit)
      ensures r.None? <==> data != [] && |old(State()).records| >= tracker.packetLimit
      ensures r.None? ==> State() == old(State())
      ensures r.Some? ==> r.value == Min(|data|, (sndBufSize - old(bufferCount)) * payloadSize) || (data == [] && r.value == 0)
      ensures r.Some? ==>
                && r.value == (if data == [] then 0 else Accepted(old(State()), |data|, sndBufSize, payloadSize))
                && State() == if data == [] then old(State())
                              else AfterSendCall(old(State()), data, sndBufSize, payloadSize)
    {
      hide Inv, PacketTracker.Valid, UsedUpTo, Chunks, EnqueuedAll, Enqueued;
      if |data| == 0 {
        return Some(0);
      }
      var can := tracker.CanEnqueuePacket();
      if !can {
        return None;
      }
      ghost var st0, cs := State(), Chunks(data, payloadSize);
      ghost var i := 0;
      var queued := 0;
      EnqueueNone(st0, cs);
      while queued < |data|
        invariant Valid() && 0 <= queued <= |data| && 0 <= i <= |cs|
        invariant Chunks(data[queued..], payloadSize) == cs[i..]
        invariant tracker.history.stamped == old(tracker.history.stamped) && tracker.packetLimit == old(tracker.packetLimit)
        invariant st0.currSeq + |cs| <= MAX_SEQ_NO
        invariant State() == EnqueuedAll(st0, cs[..i])
        invariant State().currSeq == st0.currSeq + i
      {
        var packetLen := |data| - queued;
        if packetLen > payloadSize {
          packetLen := payloadSize;
        }
        NextChunk(data, payloadSize, queued, i);
        EnqueueOneMore(st0, cs, i);
        EnqueueChunk(data[queued..queued + packetLen]);
        queued, i := queued + packetLen, i + 1;
      }
      NoChunkLeft(data, payloadSize, i);
      assert cs[..i] == cs;
      EnqueueAllKeepsInv(st0, cs);
      r := AddBuffer(st0, data);
    }

    /** The end of `send`: hand the buffer as many of the bytes as its nominal size allows. */
    method AddBuffer(ghost st0: SenderState, data: Payload) returns (r: Option<int>)
      requires Valid() && data != []
      requires Inv(st0) && st0.currSeq + |Chunks(data, payloadSize)| <= MAX_SEQ_NO
      requires State() == EnqueuedAll(st0, Chunks(data, payloadSize)) && bufferCount == st0.bufferCount
      modifies this`bufferCount
      ensures Valid() && State() == AfterSendCall(st0, data, sndBufSize, payloadSize)
      ensures r == Some(Accepted(st0, |data|, sndBufSize, payloadSize))
    {
      hide Inv, PacketTracker.Valid;
      var size := (sndBufSize - bufferCount) * payloadSize;
      if size > |data| {
        size := |data|;
      }
      SendKeepsInv(st0, data, sndBufSize, payloadSize);
      bufferCount := bufferCount + BlocksFor(size, payloadSize);
      r := Some(size);
    }

    /** Choose the next packet, and count it in flight if it was never sent. */
    method PickNext() returns (s: Option<int>)
      requires tracker.Valid() && ValidRecords(tracker.records) && Settled(tracker.records)
      modifies this`bytesInFlight, tracker`retransmittableQueue, tracker`sendQueue
      ensures tracker.Valid()
      ensures s.None? <==> NoneIn(tracker.records, LOST) && NoneIn(tracker.records, QUEUED)
      ensures s.None? ==> bytesInFlight == old(bytesInFlight)
      ensures s.Some? ==>
                && NextToSend(tracker.records, s.value)
                && s.value in tracker.records
                && var r := tracker.records[s.value];
                   && (r.state.QUEUED? || r.state.LOST?)
                   && IsTop(if r.state.QUEUED? then tracker.sendQueue else tracker.retransmittableQueue, s.value)
                   && bytesInFlight == if r.state.QUEUED? then old(bytesInFlight) + |r.payload| else old(bytesInFlight)
    {
      hide PacketTracker.Valid;
      var retransmit := tracker.HasRetransmittablePackets();
      if retransmit {
        var seqNo := tracker.GetLowestRetransmittableSeqNo();
        return Some(seqNo);
      }
      var sendable := tracker.HasSendablePackets();
      if !sendable {
        return None;
      }
      var seqNo := tracker.GetLowestSendableSeqNo();
      var n := tracker.GetPacketSize(seqNo);
      bytesInFlight := bytesInFlight + n;
      s := Some(seqNo);
    }

    /** Pick a packet and record its transmission; `s` is `None` when nothing is sent. */
    method PackData(canSend: bool, now: nat) returns (s: Option<int>, msgNo: int, payload: Payload)
      requires Valid() && now !in tracker.history.stamped
      modifies this`bytesInFlight, this`controllerLog, tracker
      ensures Valid() && tracker.history.used == old(tracker.history.used)
      ensures s.None? ==> State() == old(State())
      ensures s.None? <==> !canSend || (NoneIn(old(State()).records, LOST) && NoneIn(old(State()).records, QUEUED))
      ensures s.Some? ==>
                && NextToSend(old(State()).records, s.value)
                && LostFirst(old(State()).records, s.value)
                && payload == old(State()).records[s.value].payload
                && 0 <= old(State()).records[s.value].LastMsgNo() == msgNo - 1
                && s.value in tracker.records && tracker.records[s.value].messages != [] && tracker.records[s.value].LastSent() == now
                && State() == Transmitted(old(State()), s.value, now)
    {
      hide Inv, PacketTracker.Valid, UsedUpTo, IsTop, NextToSend, NoneIn, ValidRecords, Settled, PacketRecord.LastMsgNo;
      msgNo, payload := 0, [];
      if !canSend {
        return None, 0, [];
      }
      SettledRecords(State());
      ghost var st := State();
      s := PickNext();
      if s.Some? {
        NextIsLostFirst(st.records, s.value);
        msgNo, payload := CommitTransmission(st, s.value, now);
      }
    }

    /** From a picked packet to a consistent state again. */
    method CommitTransmission(ghost st: SenderState, seqNo: int, now: nat) returns (msgNo: int, payload: Payload)
      requires tracker.Valid() && now !in tracker.history.stamped && payloadSize > 0
      requires UsedUpTo(tracker.history.used, isn, sndCurrSeqNo)
      requires Inv(st) && seqNo in st.records
      requires var r := st.records[seqNo];
               && (r.state.QUEUED? || r.state.LOST?)
               && IsTop(if r.state.QUEUED? then tracker.sendQueue else tracker.retransmittableQueue, seqNo)
               && State() == st.(bytesInFlight :=
                               if r.state.QUEUED? then st.bytesInFlight + |r.payload| else st.bytesInFlight)
      modifies this`controllerLog, tracker
      ensures Valid() && tracker.history.used == old(tracker.history.used)
      ensures payload == st.records[seqNo].payload && 0 <= st.records[seqNo].LastMsgNo() == msgNo - 1
      ensures State() == Transmitted(st, seqNo, now)
    {
      hide Inv, PacketTracker.Valid, UsedUpTo, IsTop, PacketRecord.LastMsgNo, PacketRecord.Sent;
      TransmitKeepsInv(st, seqNo, now);
      msgNo, payload := RecordTransmission(seqNo, now);
    }

    /** The second half of `packData`. */
    method RecordTransmission(seqNo: int, now: nat) returns (msgNo: int, payload: Payload)
      requires tracker.Valid() && now !in tracker.history.stamped
      requires seqNo in tracker.records && tracker.records[seqNo].LastMsgNo() >= 0
      requires var r := tracker.records[seqNo];
               && (r.state.QUEUED? || r.state.LOST?)
               && IsTop(if r.state.QUEUED? then tracker.sendQueue else tracker.retransmittableQueue, seqNo)
      modifies this`controllerLog, tracker
      ensures tracker.Valid() && tracker.history.used == old(tracker.history.used)
      ensures payload == old(tracker.records)[seqNo].payload && msgNo == old(tracker.records)[seqNo].LastMsgNo() + 1
      ensures tracker.prevPacketId == old(tracker.prevPacketId) + 1
      ensures controllerLog == old(controllerLog) + [SentEvent(tracker.prevPacketId, |payload|)]
      ensures tracker.records == old(tracker.records)[seqNo := old(tracker.records)[seqNo].Sent(
                                   MessageRecord(old(tracker.records)[seqNo].LastMsgNo() + 1, tracker.prevPacketId, now))]
    {
      hide PacketTracker.Valid, IsTop, PacketRecord.LastMsgNo, PacketRecord.LastId, PacketRecord.Sent, PacketRecord.HasMessage;
      ghost var record := tracker.records[seqNo];
      SentFacts(record, MessageRecord(record.LastMsgNo() + 1, tracker.prevPacketId + 1, now));
      TopIsIn(if record.state.QUEUED? then tracker.sendQueue else tracker.retransmittableQueue, seqNo);
      payload := tracker.records[seqNo].payload;
      msgNo := tracker.GetPacketLastMsgNo(seqNo);
      msgNo := msgNo + 1;
      var r := tracker.OnPacketSent(seqNo, msgNo, now);
      var r2, id := tracker.GetPacketId(seqNo, msgNo);
      controllerLog := controllerLog + [SentEvent(id, |payload|)];
    }

    /** One round of the loop in `add_to_loss_record`. */
    method LosePacket(loss: int)
      requires Valid()
      requires loss in tracker.records && tracker.records[loss].state.SENT?
      modifies this`controllerLog, tracker
      ensures Valid() && tracker.history == old(tracker.history) && tracker.sentQueue == old(tracker.sentQueue)
      ensures old(State()).records[loss].messages != [] && State() == MarkedLost(old(State()), loss)
    {
      hide Inv, PacketTracker.Valid, UsedUpTo, ValidRecords, Settled;
      SettledRecords(State());
      LossKeepsInv(State(), loss);
      var msgNo := tracker.GetPacketLastMsgNo(loss);
      var r, id := tracker.GetPacketId(loss, msgNo);
      var n := tracker.GetPacketSize(loss);
      controllerLog := controllerLog + [LostEvent(id, n)];
      r := tracker.OnPacketLoss(loss, msgNo);
    }

    method AddToLossRecord(loss1: int, loss2: int)
      requires Valid() && loss1 <= loss2
      requires forall s :: loss1 <= s <= loss2 ==> s in tracker.records && tracker.records[s].state.SENT?
      modifies this`controllerLog, tracker
      ensures Valid() && tracker.history == old(tracker.history) && tracker.sentQueue == old(tracker.sentQueue)
      ensures State() == LostAll(old(State()), Range(loss1, loss2 + 1))
    {
      hide Inv, PacketTracker.Valid, UsedUpTo;
      ghost var st := State();
      for loss := loss1 to loss2 + 1
        invariant Valid() && tracker.history == old(tracker.history) && tracker.sentQueue == old(tracker.sentQueue)
        invariant State() == LostAll(st, Range(loss1, loss))
        invariant forall s :: loss <= s <= loss2 ==> s in tracker.records && tracker.records[s].state.SENT?
      {
        LosePacket(loss);
        LoseOneMore(st, Range(loss1, loss), loss);
      }
    }

    method ProcessAck(seqNo: int, msgNo: int) returns (outcome: AckOutcome)
      requires Valid()
      modifies this, tracker
      ensures outcome.Exited? <==>
                if seqNo in old(State()).records then !old(State()).records[seqNo].HasMessage(msgNo) else msgNo == 0
      ensures outcome.NullMinimum? <==>
                FinalAck(old(State()), seqNo, msgNo) && |old(State()).records - {seqNo}| == 0
      ensures outcome.Processed? && FinalAck(old(State()), seqNo, msgNo) ==>
                Valid() && Numbered(old(State())) && State() == Acknowledged(old(State()), seqNo)
      ensures outcome.Processed? && FinalAck(old(State()), seqNo, msgNo) ==>
                && tracker.records == old(tracker.records) - {seqNo} && |tracker.records| != 0
                && sndLastDataAck == ReleasedTo(tracker.records, old(sndLastDataAck))
                && bufferCount == old(bufferCount) - (sndLastDataAck - old(sndLastDataAck))
      ensures outcome.Processed? && !FinalAck(old(State()), seqNo, msgNo) ==> Valid() && State() == old(State())
    {
      hide Inv, PacketTracker.Valid, UsedUpTo, ValidRecords, Settled, Numbered, FinalAck, PacketRecord.HasMessage;
      SettledRecords(State());
      FinalAckMessage(State(), seqNo, msgNo);
      var latest := tracker.GetPacketLastMsgNo(seqNo);
      var r, id := tracker.GetPacketId(seqNo, msgNo);
      if r.Exit? {
        return Exited;
      }
      ghost var st := State();
      var wasLost := seqNo in tracker.records && tracker.records[seqNo].state.LOST?;
      r := tracker.OnPacketAck(seqNo, msgNo);
      var n := tracker.GetPacketSize(seqNo);
      if msgNo != latest {
        AckWithoutEffect(st.records, seqNo, msgNo);
        return Processed;
      }
      r := tracker.DeletePacketRecord(seqNo);
      if r.Exit? {
        return Exited;
      }
      AckOfRecord(st.records, seqNo, msgNo);
      outcome := FinishAck(st, seqNo, wasLost, id, n);
    }

    /** `ProcessAck` from the deletion of the record on. */
    method FinishAck(ghost st: SenderState, seqNo: int, wasLost: bool, id: nat, n: nat) returns (outcome: AckOutcome)
      requires tracker.Valid() && payloadSize > 0 && UsedUpTo(tracker.history.used, isn, sndCurrSeqNo)
      requires Inv(st) && seqNo in st.records && st.records[seqNo].messages != []
      requires State() == st.(records := st.records - {seqNo})
      requires var r := st.records[seqNo]; wasLost == r.state.LOST? && id == r.LastId() && n == |r.payload|
      modifies this
      ensures outcome.NullMinimum? <==> |st.records - {seqNo}| == 0
      ensures outcome.NullMinimum? || outcome.Processed?
      ensures outcome.Processed? ==> Valid() && Numbered(st) && State() == Acknowledged(st, seqNo)
      ensures outcome.Processed? ==>
                && tracker.records == st.records - {seqNo} && |tracker.records| != 0
                && sndLastDataAck == ReleasedTo(tracker.records, st.lastDataAck)
                && bufferCount == st.bufferCount - (sndLastDataAck - st.lastDataAck)
    {
      hide Inv, PacketTracker.Valid, UsedUpTo, Numbered;
      AckRange(st);
      var minSeq := tracker.GetMinSeqNo();
      if minSeq.None? {
        return NullMinimum;
      }
      AckKeepsInv(st, seqNo);
      AckReleases(st, seqNo);
      var offset := SeqOff(sndLastDataAck, minSeq.value);
      if offset > 0 {
        bufferCount := bufferCount - offset;
        sndLastDataAck := minSeq.value;
      }
      if wasLost {
        forgotten := forgotten + n;
        return Processed;
      }
      controllerLog := controllerLog + [AckedEvent(id, n)];
      bytesInFlight := bytesInFlight - n;
      outcome := Processed;
    }

    /** One round of the loss loop in `checkTimers`; `s` is the packet it looked at, if any. */
    method SweepRound(cur: nat, thresholdUs: nat) returns (above: bool, ghost s: Option<int>)
      requires Valid() && tracker.sentQueue != multiset{}
      modifies this`controllerLog, tracker
      ensures Valid() && ValidRecords(old(tracker.records))
      ensures s.None? <==> NoneIn(old(tracker.records), SENT)
      ensures s.None? ==> above && tracker.sentQueue == multiset{} && State() == old(State())
      ensures s.Some? ==>
                && OldestSent(old(tracker.records), s.value) && tracker.records.Keys == old(tracker.records).Keys
                && above == Expired(old(tracker.records)[s.value], cur, thresholdUs)
                && State() == if above then LostAll(old(State()), [s.value]) else old(State())
    {
      hide Inv, PacketTracker.Valid, UsedUpTo, Settled, OldestSent, Expired;
      SettledRecords(State());
      above, s := true, None;
      var seqNo := tracker.GetOldestSentSeqNo();
      var hasSent := tracker.HasSentPackets();
      if hasSent {
        s := Some(seqNo);
        above := JudgeOldest(seqNo, cur, thresholdUs);
      }
    }

    /** Report the oldest packet in flight if it is older than the threshold. */
    method JudgeOldest(seqNo: int, cur: nat, thresholdUs: nat) returns (above: bool)
      requires Valid() && ValidRecords(tracker.records) && OldestSent(tracker.records, seqNo)
      modifies this`controllerLog, tracker
      ensures Valid() && tracker.records.Keys == old(tracker.records).Keys
      ensures tracker.sentQueue == old(tracker.sentQueue)
      ensures above == Expired(old(tracker.records)[seqNo], cur, thresholdUs)
      ensures State() == if above then LostAll(old(State()), [seqNo]) else old(State())
    {
      hide Inv, PacketTracker.Valid, UsedUpTo, ValidRecords, AgeUs;
      InFlightMessage(tracker.records, seqNo);
      var msgNo := tracker.GetPacketLastMsgNo(seqNo);
      var r, sentTime := tracker.GetPacketSentTime(seqNo, msgNo);
      above := AgeUs(cur, sentTime) > thresholdUs;
      if above {
        OneReport(State(), seqNo);
        AddToLossRecord(seqNo, seqNo);
      }
    }

    /** The loss sweep of `checkTimers`: popping the lazily cleaned time queue until a young
        packet shows up marks exactly the packets that a full scan would mark, each once. */
    method SweepLosses(cur: nat, thresholdUs: nat)
      requires Valid() && SentBefore(tracker.records, cur) && cur < 1000 * TWO_64
      modifies this`controllerLog, tracker
      ensures Valid()
      ensures exists order: seq<int> {:trigger LostAll(old(State()), order)} ::
                State() == LostAll(old(State()), order) && IsSweep(old(tracker.records), tracker.records, order, cur, thresholdUs)
      ensures SweptByTime(old(tracker.records), tracker.records, cur, thresholdUs)
    {
      hide SweptByTime, Inv, PacketTracker.Valid, UsedUpTo, ValidRecords, SentBefore, PartlySwept, Swept, IsSweep, OldestSent, Expired, AgeUs;
      SettledRecords(State());
      ghost var st, order := State(), [];
      var aboveLossThreshold := true;
      var hasSent := tracker.HasSentPackets();
      SweepStarts(st.records, cur, thresholdUs);
      while hasSent && aboveLossThreshold
        invariant Valid() && State() == LostAll(st, order)
        invariant hasSent <==> tracker.sentQueue != multiset{}
        invariant Swept(st.records, tracker.records, order, cur, thresholdUs)
        invariant !aboveLossThreshold ==> IsSweep(st.records, tracker.records, order, cur, thresholdUs)
        decreases SentKeys(tracker.records), hasSent && aboveLossThreshold
      {
        ghost var rs := tracker.records;
        SettledRecords(State());
        ghost var s;
        aboveLossThreshold, s := SweepRound(cur, thresholdUs);
        hasSent := tracker.HasSentPackets();
        if s.Some? {
          SweepAdvances(st, rs, order, s.value, cur, thresholdUs);
          if aboveLossThreshold {
            order := order + [s.value];
          }
        }
      }
      SettledRecords(State());
      if aboveLossThreshold {
        tracker.NothingInFlight();
        SweepEnds(st.records, tracker.records, order, cur, thresholdUs);
      }
      SweepElapsed(st.records, tracker.records, order, cur, thresholdUs);
    }
  }

  ghost function SentKeys(rs: Recorded): set<int> {
    set s | s in rs && rs[s].state.SENT?
  }

  /** Where a sweep stands: the reports so far name, once each, the packets it has marked. */
  ghost predicate Swept(rs0: Recorded, rs: Recorded, order: seq<int>, cur: nat, thresholdUs: nat) {
    && ValidRecords(rs0) && SentBefore(rs0, cur) && cur < 1000 * TWO_64
    && PartlySwept(rs0, rs, cur, thresholdUs)
    && (forall i, j :: 0 <= i < j < |order| ==> order[i] != order[j])
    && (forall s :: s in order <==> s in rs0 && rs0[s].state.SENT? && rs[s].state.LOST?)
    && OldestFirst(rs0, order) && NoneOlder(rs0, rs, order)
  }

  /** Reports come in the order of the latest transmissions. */
  ghost predicate OldestFirst(rs0: Recorded, order: seq<int>) {
    && (forall s :: s in order ==> s in rs0 && rs0[s].messages != [])
    && (forall i, j :: 0 <= i < j < |order| ==> rs0[order[i]].LastSent() <= rs0[order[j]].LastSent())
  }

  /** What is still in flight was sent after everything reported. */
  ghost predicate NoneOlder(rs0: Recorded, rs: Recorded, order: seq<int>) {
    forall s, u :: s in order && u in rs && rs[u].state.SENT? && rs[u].messages != [] ==>
      s in rs0 && rs0[s].messages != [] && rs0[s].LastSent() <= rs[u].LastSent()
  }

  /** The reports of a whole sweep name, once each and oldest first, the expired packets, and the
      records are those of a full scan. */
  ghost predicate IsSweep(rs0: Recorded, rs: Recorded, order: seq<int>, cur: nat, thresholdUs: nat) {
    && rs == SweptRecords(rs0, cur, thresholdUs)
    && (forall i, j :: 0 <= i < j < |order| ==> order[i] != order[j])
    && (forall s :: s in order <==> s in rs0 && Expired(rs0[s], cur, thresholdUs))
    && OldestFirst(rs0, order)
  }

  /** What a sweep does to the records, by the time that has passed since the latest transmission. */
  ghost predicate SweptByTime(rs0: Recorded, rs: Recorded, cur: nat, thresholdUs: nat) {
    && rs.Keys == rs0.Keys
    && forall s :: s in rs ==>
         var old' := rs0[s];
         && (!old'.state.SENT? || old'.messages == [] ==> rs[s] == old')
         && (old'.state.SENT? && old'.messages != [] ==>
              && (rs[s] == old' || rs[s] == old'.(state := LOST))
              && (rs[s].state.LOST? ==> cur - old'.LastSent() > 1000 * thresholdUs)
              && (cur - old'.LastSent() >= 1000 * thresholdUs + 2000 ==> rs[s].state.LOST?))
  }

  /** The packets that a sweep loses are those sent longer ago than the threshold, to the microsecond. */
  lemma SweepElapsed(rs0: Recorded, rs: Recorded, order: seq<int>, cur: nat, thresholdUs: nat)
    requires IsSweep(rs0, rs, order, cur, thresholdUs) && SentBefore(rs0, cur) && cur < 1000 * TWO_64
    ensures SweptByTime(rs0, rs, cur, thresholdUs)
  {
    hide AgeUs;
    forall s | s in rs0 && rs0[s].state.SENT? && rs0[s].messages != []
      ensures var elapsed := cur - rs0[s].LastSent();
              elapsed >= 0 && elapsed - 1000 < 1000 * AgeUs(cur, rs0[s].LastSent()) < elapsed + 1000
    {
      AgeIsElapsed(cur, rs0[s].LastSent());
    }
  }

  lemma SweepStarts(rs: Recorded, cur: nat, thresholdUs: nat)
    requires ValidRecords(rs) && SentBefore(rs, cur) && cur < 1000 * TWO_64
    ensures Swept(rs, rs, [], cur, thresholdUs)
  {
  }

  lemma SweepAdvances(st: SenderState, rs: Recorded, order: seq<int>, s: int, cur: nat, thresholdUs: nat)
    requires Swept(st.records, rs, order, cur, thresholdUs) && ValidRecords(rs) && OldestSent(rs, s)
    requires LostAll(st, order).records == rs
    ensures var mid := LostAll(st, order);
            if Expired(rs[s], cur, thresholdUs) then
              var st' := LostAll(mid, [s]);
              && Swept(st.records, st'.records, order + [s], cur, thresholdUs)
              && LostAll(st, order + [s]) == st' && SentKeys(st'.records) < SentKeys(rs)
            else
              IsSweep(st.records, rs, order, cur, thresholdUs)
  {
    assert rs[s].Valid();
    if Expired(rs[s], cur, thresholdUs) {
      hide Swept, SentKeys, OldestSent;
      LoseOneMore(st, order, s);
      assert LostAll(LostAll(st, order), []) == LostAll(st, order);
      LoseOneMore(LostAll(st, order), [], s);
      assert [] + [s] == [s];
      SweepMarks(st.records, rs, order, s, cur, thresholdUs);
    } else {
      SweepEnds'(st.records, rs, order, s, cur, thresholdUs);
    }
  }

  lemma SweepMarks(rs0: Recorded, rs: Recorded, order: seq<int>, s: int, cur: nat, thresholdUs: nat)
    requires Swept(rs0, rs, order, cur, thresholdUs) && ValidRecords(rs) && OldestSent(rs, s)
    requires s in rs && Expired(rs[s], cur, thresholdUs)
    ensures var rs' := rs[s := rs[s].(state := LOST)];
            Swept(rs0, rs', order + [s], cur, thresholdUs) && SentKeys(rs') < SentKeys(rs)
  {
    hide ValidRecords, SentBefore, OldestFirst, NoneOlder, OldestSent, Expired;
    ExpiredIsSent(rs[s], cur, thresholdUs);
    var rs' := rs[s := rs[s].(state := LOST)];
    OrderMarks(rs0, rs, order, s);
    assert SentKeys(rs') == SentKeys(rs) - {s} && s in SentKeys(rs);
  }

  lemma ExpiredIsSent(r: PacketRecord, cur: nat, thresholdUs: nat)
    requires Expired(r, cur, thresholdUs)
    ensures r.state.SENT? && r.messages != []
  {
  }

  /** Reporting the oldest packet in flight keeps the order. */
  lemma OrderMarks(rs0: Recorded, rs: Recorded, order: seq<int>, s: int)
    requires OldestFirst(rs0, order) && NoneOlder(rs0, rs, order) && ValidRecords(rs) && OldestSent(rs, s)
    requires s in rs0 && rs[s] == rs0[s] && rs[s].messages != []
    ensures OldestFirst(rs0, order + [s]) && NoneOlder(rs0, rs[s := rs[s].(state := LOST)], order + [s])
  {
    var longer := order + [s];
    forall i, j | 0 <= i < j < |longer| ensures longer[i] in rs0 && longer[j] in rs0 && rs0[longer[i]].messages != []
        && rs0[longer[j]].messages != [] && rs0[longer[i]].LastSent() <= rs0[longer[j]].LastSent() {
      assert longer[i] == order[i] && order[i] in order;
      if j < |order| {
        assert longer[j] == order[j] && order[j] in order;
      }
    }
  }

  lemma SweepEnds(rs0: Recorded, rs: Recorded, order: seq<int>, cur: nat, thresholdUs: nat)
    requires Swept(rs0, rs, order, cur, thresholdUs) && ValidRecords(rs) && NoneIn(rs, SENT)
    ensures IsSweep(rs0, rs, order, cur, thresholdUs)
  {
    SweepDone(rs0, rs, cur, thresholdUs, 0);
  }

  lemma SweepEnds'(rs0: Recorded, rs: Recorded, order: seq<int>, s: int, cur: nat, thresholdUs: nat)
    requires Swept(rs0, rs, order, cur, thresholdUs) && ValidRecords(rs)
    requires OldestSent(rs, s) && !Expired(rs[s], cur, thresholdUs)
    ensures IsSweep(rs0, rs, order, cur, thresholdUs)
  {
    SweepDone(rs0, rs, cur, thresholdUs, s);
  }

  function Range(lo: int, hi: int): seq<int>
    decreases hi - lo
  {
    if hi <= lo then [] else Range(lo, hi - 1) + [hi - 1]
  }

  lemma FinalAckMessage(st: SenderState, s: int, msgNo: int)
    requires Inv(st)
    ensures FinalAck(st, s, msgNo) <==>
              s in st.records && st.records[s].HasMessage(msgNo) && msgNo == st.records[s].LastMsgNo()
    ensures s in st.records && st.records[s].HasMessage(msgNo) ==> msgNo != 0
  {
    if s in st.records {
      var r := st.records[s];
      assert r.Valid();
      if r.messages != [] {
        assert r.messages[|r.messages| - 1].msgNo == r.LastMsgNo();
      }
    }
  }

  /** An ack of an earlier transmission, or of an unknown packet, changes no record. */
  lemma AckWithoutEffect(rs: Recorded, s: int, msgNo: int)
    requires s in rs ==> msgNo != rs[s].LastMsgNo()
    ensures s in rs ==> rs[s := rs[s].Updated(ACKED, msgNo)] == rs
  {
  }

  lemma AckOfRecord(rs: Recorded, s: int, msgNo: int)
    requires s in rs
    ensures rs[s := rs[s].Updated(ACKED, msgNo)] - {s} == rs - {s}
  {
  }

  lemma AckRange(st: SenderState)
    requires Inv(st)
    ensures Numbered(st)
    ensures forall u :: u in st.records ==> 0 <= u < MODULUS
    ensures st.records != map[] ==> 0 <= st.lastDataAck < MODULUS
  {
    if |st.records| != 0 {
      HasMinSeq(st.records);
    }
  }

  lemma EnqueueNone(st: SenderState, cs: seq<Payload>)
    ensures EnqueuedAll(st, cs[..0]) == st
  {
  }

  lemma EnqueueOneMore(st: SenderState, cs: seq<Payload>, i: nat)
    requires i < |cs|
    ensures EnqueuedAll(st, cs[..i + 1]) == Enqueued(EnqueuedAll(st, cs[..i]), cs[i])
    ensures EnqueuedAll(st, cs[..i + 1]).currSeq == EnqueuedAll(st, cs[..i]).currSeq + 1
  {
    assert cs[..i + 1][..i] == cs[..i];
  }

  lemma NextChunk(data: Payload, size: nat, queued: nat, i: nat)
    requires size > 0 && queued < |data| && i <= |Chunks(data, size)|
    requires Chunks(data[queued..], size) == Chunks(data, size)[i..]
    ensures i < |Chunks(data, size)|
    ensures var n := if |data| - queued > size then size else |data| - queued;
            && Chunks(data, size)[i] == data[queued..queued + n]
            && Chunks(data[queued + n..], size) == Chunks(data, size)[i + 1..]
  {
    hide Chunks;
    var n := if |data| - queued > size then size else |data| - queued;
    ChunksStep(data[queued..], size);
    ChunksStep(data[queued + n..], size);
    assert Chunks(data, size)[i..] != [];
    assert data[queued..][..n] == data[queued..queued + n];
    assert data[queued..][n..] == data[queued + n..];
    assert Chunks(data, size)[i..][1..] == Chunks(data, size)[i + 1..];
  }

  lemma NoChunkLeft(data: Payload, size: nat, i: nat)
    requires size > 0 && i <= |Chunks(data, size)|
    requires Chunks(data[|data|..], size) == Chunks(data, size)[i..]
    ensures i == |Chunks(data, size)|
  {
    assert data[|data|..] == [];
  }

  lemma OneReport(st: SenderState, s: int)
    ensures Range(s, s + 1) == [s]
  {
  }

  lemma InFlightMessage(rs: Recorded, s: int)
    requires ValidRecords(rs) && s in rs && rs[s].state.SENT?
    ensures rs[s].messages != [] && rs[s].HasMessage(rs[s].LastMsgNo())
  {
    assert rs[s].Valid();
    assert rs[s].messages[|rs[s].messages| - 1].msgNo == rs[s].LastMsgNo();
  }

  lemma SentFacts(r: PacketRecord, m: MessageRecord)
    ensures r.Sent(m).messages != [] && r.Sent(m).payload == r.payload
    ensures r.Sent(m).LastMsgNo() == m.msgNo && r.Sent(m).LastId() == m.packetId
    ensures r.Sent(m).HasMessage(m.msgNo)
  {
    assert r.Sent(m).messages[|r.messages|] == m;
  }

  lemma RecordsBelow(st: SenderState)
    requires Inv(st)
    ensures st.isn <= st.currSeq + 1
    ensures forall s :: s in st.records ==> st.isn <= s <= st.currSeq
  {
  }

  lemma SettledRecords(st: SenderState)
    requires Inv(st)
    ensures ValidRecords(st.records) && Settled(st.records)
  {
  }
}
