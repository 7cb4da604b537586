/** Both ends of a connection and the network between them, as a state machine.  The network
    keeps every packet and acknowledgement ever sent and may deliver any of them at any time,
    any number of times or never.  A step is one lock-protected region of core.cpp. */
module Protocol {
  import opened Arithmetic
  import opened Records
  import opened SeqNo
  import opened SenderModel
  import opened RcvRing
  import opened Receiver
  import opened Wrappers

  /** `stream[k]` is the payload cut for packet number `isn + k`; `accepted` packets have been
      moved to the ready part of the ring; `delivered` is all that reads have returned. */
  datatype System = System(
    snd: SenderState,
    rcv: ReceiverState,
    data: set<Packet>,
    acks: set<(int, int)>,
    stream: seq<Payload>,
    accepted: nat,
    delivered: Payload)

  datatype Step =
    | SendCall(bytes: Payload, bufferSize: int, payloadSize: nat)
    | Transmit(s: int, now: nat)
    | Timeout(lost: int)
    | DeliverData(p: Packet)
    | DeliverAck(seqNo: int, msgNo: int)
    | Read(len: int)

  function Initial(isn: SeqNum, ringSize: nat): System {
    System(SenderState(isn, map[], 0, isn - 1, isn, 0, 0, [], 0),
           ReceiverState(Ring(seq(ringSize, _ => None), 0, 0, 0), isn),
           {}, {}, [], 0, [])
  }

  /** A step can happen.  Sequence numbers do not wrap at the sender, and the whole stream
      leaves room for the receive window on the circle; an acknowledgement that would leave
      the tracker empty makes the original dereference a null pointer, so it ends the run. */
  ghost predicate Enabled(sys: System, step: Step) {
    match step
    case SendCall(bytes, bufferSize, payloadSize) =>
      && payloadSize > 0
      && sys.snd.currSeq + |Chunks(bytes, payloadSize)| <= MAX_SEQ_NO
      && |sys.stream| + |Chunks(bytes, payloadSize)| + |sys.rcv.ring.slots| <= MODULUS
    case Transmit(s, now) => NextToSend(sys.snd.records, s)
    case Timeout(s) => s in sys.snd.records && sys.snd.records[s].state.SENT?
    case DeliverData(p) => p in sys.data
    case DeliverAck(s, m) =>
      (s, m) in sys.acks && (FinalAck(sys.snd, s, m) ==> |sys.snd.records - {s}| != 0)
    case Read(len) => true
  }

  /** What the functions below need to make sense; every enabled step has it. */
  ghost predicate Defined(sys: System, step: Step) {
    match step
    case SendCall(bytes, bufferSize, payloadSize) => payloadSize > 0
    case Transmit(s, now) => s in sys.snd.records && sys.snd.records[s].LastMsgNo() >= 0
    case Timeout(s) => s in sys.snd.records && sys.snd.records[s].messages != []
    case DeliverData(p) => 0 <= p.seqNo < MODULUS && |sys.rcv.ring.slots| <= MAX_SEQ_NO
    case DeliverAck(s, m) => FinalAck(sys.snd, s, m) ==> |sys.snd.records - {s}| != 0 && Numbered(sys.snd)
    case Read(len) => sys.rcv.ring.Valid()
  }

  ghost function Apply(sys: System, step: Step): System
    requires Defined(sys, step)
  {
    match step
    case SendCall(bytes, bufferSize, payloadSize) => Sent(sys, bytes, bufferSize, payloadSize)
    case Transmit(s, now) => OnWire(sys, s, now)
    case Timeout(s) => sys.(snd := MarkedLost(sys.snd, s))
    case DeliverData(p) => DataDelivered(sys, p)
    case DeliverAck(s, m) => AckDelivered(sys, s, m)
    case Read(len) => ReadDone(sys, len)
  }

  function Sent(sys: System, bytes: Payload, bufferSize: int, payloadSize: nat): System
    requires payloadSize > 0
  {
    sys.(snd := AfterSendCall(sys.snd, bytes, bufferSize, payloadSize),
         stream := sys.stream + Chunks(bytes, payloadSize))
  }

  function OnWire(sys: System, s: int, now: nat): System
    requires s in sys.snd.records && sys.snd.records[s].LastMsgNo() >= 0
  {
    var r := sys.snd.records[s];
    sys.(snd := Transmitted(sys.snd, s, now),
         data := sys.data + {Packet(s, r.LastMsgNo() + 1, r.payload)})
  }

  function DataDelivered(sys: System, p: Packet): System
    requires 0 <= p.seqNo < MODULUS && |sys.rcv.ring.slots| <= MAX_SEQ_NO
  {
    var rcv := Arrived(sys.rcv, p);
    sys.(rcv := rcv, acks := sys.acks + {(p.seqNo, p.msgNo)},
         accepted := if Storable(sys.rcv, p) then sys.accepted + (rcv.ring.ready - sys.rcv.ring.ready) else sys.accepted)
  }

  ghost function AckDelivered(sys: System, s: int, m: int): System
    requires FinalAck(sys.snd, s, m) ==> |sys.snd.records - {s}| != 0 && Numbered(sys.snd)
  {
    if FinalAck(sys.snd, s, m) then sys.(snd := Acknowledged(sys.snd, s)) else sys
  }

  ghost function ReadDone(sys: System, len: int): System
    requires sys.rcv.ring.Valid()
  {
    var ready := sys.rcv.ring.ReadyBytes();
    sys.(rcv := sys.rcv.(ring := Taken(sys.rcv.ring, len)),
         delivered := sys.delivered + ready[..Min(Max(len, 0), |ready|)])
  }

  // ---------- invariants ----------

  /** Position k of the stream is what packet number isn + k carries, everywhere. */
  ghost predicate SenderMatches(snd: SenderState, stream: seq<Payload>) {
    && snd.currSeq == snd.isn + |stream| - 1
    && (forall s :: s in snd.records ==>
          0 <= s - snd.isn < |stream| && snd.records[s].payload == stream[s - snd.isn])
  }

  ghost predicate DataMatches(data: set<Packet>, isn: int, rs: Recorded, stream: seq<Payload>) {
    forall p :: p in data ==>
      && 0 <= p.seqNo - isn < |stream| && p.payload == stream[p.seqNo - isn]
      && 1 <= p.msgNo && (p.seqNo in rs ==> p.msgNo <= |rs[p.seqNo].messages|)
  }

  /** Acknowledgements name transmissions that took place. */
  ghost predicate AcksMatch(acks: set<(int, int)>, isn: int, rs: Recorded, stream: seq<Payload>) {
    forall a :: a in acks ==>
      0 <= a.0 - isn < |stream| && 1 <= a.1 && (a.0 in rs ==> a.1 <= |rs[a.0].messages|)
  }

  /** Every acknowledgement names a transmission on the network, down to its message number. */
  ghost predicate AcksComeFrom(acks: set<(int, int)>, data: set<Packet>) {
    forall a :: a in acks ==> exists p :: p in data && a.0 == p.seqNo && a.1 == p.msgNo
  }

  /** Every transmission of a recorded packet is on the network, under its own message number. */
  ghost predicate OnNetwork(data: set<Packet>, rs: Recorded) {
    forall s, m :: s in rs && 1 <= m <= |rs[s].messages| ==> Packet(s, m, rs[s].payload) in data
  }

  /** The slot k places behind the acknowledged position is empty or holds packet number
      `lastAck + k`, modulo 2^31, with its own payload. */
  ghost predicate RingMatches(r: Ring, isn: int, stream: seq<Payload>, accepted: int) {
    forall k :: r.ready <= k < |r.slots| && r.slots[k].Some? ==>
      && 0 <= accepted + k - r.ready < |stream|
      && r.slots[k].value.seqNo == Wrap(isn + accepted + k - r.ready)
      && r.slots[k].value.payload == stream[accepted + k - r.ready]
  }

  ghost predicate ReceiverMatches(rcv: ReceiverState, isn: int, stream: seq<Payload>, accepted: nat, delivered: Payload) {
    && rcv.ring.Valid()
    && |stream| + |rcv.ring.slots| <= MODULUS && |rcv.ring.slots| <= MAX_SEQ_NO
    && accepted <= |stream|
    && rcv.lastAck == Wrap(isn + accepted)
    && RingMatches(rcv.ring, isn, stream, accepted)
    && delivered + rcv.ring.ReadyBytes() == Flatten(stream[..accepted])
  }

  ghost predicate Inv(sys: System) {
    && SenderModel.Inv(sys.snd)
    && SenderMatches(sys.snd, sys.stream)
    && DataMatches(sys.data, sys.snd.isn, sys.snd.records, sys.stream)
    && AcksMatch(sys.acks, sys.snd.isn, sys.snd.records, sys.stream)
    && AcksComeFrom(sys.acks, sys.data) && OnNetwork(sys.data, sys.snd.records)
    && ReceiverMatches(sys.rcv, sys.snd.isn, sys.stream, sys.accepted, sys.delivered)
  }

  // ---------- every step keeps the invariant ----------

  lemma {:induction false} InitialInv(isn: SeqNum, ringSize: nat)
    requires 0 < ringSize <= MAX_SEQ_NO
    ensures Inv(Initial(isn, ringSize))
  {
  }

  lemma RecordBounds(st: SenderState)
    requires SenderModel.Inv(st)
    ensures Numbered(st)
    ensures forall s :: s in st.records ==> st.isn <= s <= st.currSeq && st.records[s].Valid()
  {
  }

  lemma {:induction false} EnqueuedRecords(st: SenderState, cs: seq<Payload>)
    requires forall s :: s in st.records ==> s <= st.currSeq
    ensures EnqueuedAll(st, cs) == st.(records := EnqueuedAll(st, cs).records, currSeq := st.currSeq + |cs|)
    ensures forall s :: s in EnqueuedAll(st, cs).records <==>
              s in st.records || st.currSeq < s <= st.currSeq + |cs|
    ensures forall s :: s in st.records ==> EnqueuedAll(st, cs).records[s] == st.records[s]
    ensures forall s :: st.currSeq < s <= st.currSeq + |cs| ==>
              && EnqueuedAll(st, cs).records[s].payload == cs[s - st.currSeq - 1]
              && EnqueuedAll(st, cs).records[s].messages == []
  {
    if cs != [] {
      EnqueuedRecords(st, cs[..|cs| - 1]);
    }
  }

  lemma SendKeeps(sys: System, bytes: Payload, bufferSize: int, payloadSize: nat)
    requires Inv(sys) && Enabled(sys, SendCall(bytes, bufferSize, payloadSize))
    ensures Inv(Sent(sys, bytes, bufferSize, payloadSize))
  {
    hide SenderModel.Inv, Chunks, EnqueuedAll, DataMatches, AcksMatch, ReceiverMatches;
    var cs := Chunks(bytes, payloadSize);
    SendKeepsInv(sys.snd, bytes, bufferSize, payloadSize);
    RecordBounds(sys.snd);
    EnqueuedRecords(sys.snd, cs);
    LongerStream(sys, cs);
    SentMatches(sys.snd, sys.stream, cs, EnqueuedAll(sys.snd, cs));
    assert AfterSendCall(sys.snd, bytes, bufferSize, payloadSize).records == EnqueuedAll(sys.snd, cs).records;
    LateRecords(sys, cs, EnqueuedAll(sys.snd, cs).records);
  }

  lemma SentMatches(snd: SenderState, stream: seq<Payload>, cs: seq<Payload>, st: SenderState)
    requires SenderMatches(snd, stream) && st == EnqueuedAll(snd, cs)
    ensures forall n :: SenderMatches(st.(bufferCount := n), stream + cs)
  {
    EnqueuedRecords(snd, cs);
    forall s | s in st.records
      ensures 0 <= s - snd.isn < |stream + cs| && st.records[s].payload == (stream + cs)[s - snd.isn]
    {
    }
  }

  lemma LongerStream(sys: System, cs: seq<Payload>)
    requires ReceiverMatches(sys.rcv, sys.snd.isn, sys.stream, sys.accepted, sys.delivered)
    requires |sys.stream| + |cs| + |sys.rcv.ring.slots| <= MODULUS
    ensures ReceiverMatches(sys.rcv, sys.snd.isn, sys.stream + cs, sys.accepted, sys.delivered)
  {
    hide Ring.Valid, Ring.ReadyBytes;
    assert (sys.stream + cs)[..sys.accepted] == sys.stream[..sys.accepted];
  }

  /** New records are numbered above everything on the network. */
  lemma LateRecords(sys: System, cs: seq<Payload>, rs: Recorded)
    requires DataMatches(sys.data, sys.snd.isn, sys.snd.records, sys.stream)
    requires AcksMatch(sys.acks, sys.snd.isn, sys.snd.records, sys.stream)
    requires forall s :: s in rs && s - sys.snd.isn < |sys.stream| ==> s in sys.snd.records && rs[s] == sys.snd.records[s]
    ensures DataMatches(sys.data, sys.snd.isn, rs, sys.stream + cs)
    ensures AcksMatch(sys.acks, sys.snd.isn, rs, sys.stream + cs)
  {
  }

  /** Records only gain transmissions or disappear. */
  lemma FewerRecords(sys: System, rs: Recorded)
    requires DataMatches(sys.data, sys.snd.isn, sys.snd.records, sys.stream)
    requires AcksMatch(sys.acks, sys.snd.isn, sys.snd.records, sys.stream)
    requires forall s :: s in rs ==> s in sys.snd.records && |rs[s].messages| >= |sys.snd.records[s].messages|
    ensures DataMatches(sys.data, sys.snd.isn, rs, sys.stream)
    ensures AcksMatch(sys.acks, sys.snd.isn, rs, sys.stream)
  {
  }

  lemma TransmitKeeps(sys: System, s: int, now: nat)
    requires Inv(sys) && Enabled(sys, Transmit(s, now))
    ensures Defined(sys, Transmit(s, now)) && Inv(OnWire(sys, s, now))
  {
    hide SenderModel.Inv, ReceiverMatches, DataMatches, AcksMatch, AcksComeFrom, OnNetwork;
    TransmitKeepsInv(sys.snd, s, now);
    RecordBounds(sys.snd);
    assert sys.snd.records[s].LastMsgNo() == |sys.snd.records[s].messages|;
    var sys' := OnWire(sys, s, now);
    FewerRecords(sys, sys'.snd.records);
    NewTransmission(sys, s, sys'.snd.records, Packet(s, sys.snd.records[s].LastMsgNo() + 1, sys.snd.records[s].payload));
    OneMorePacket(sys'.(data := sys.data), Packet(s, sys.snd.records[s].LastMsgNo() + 1, sys.snd.records[s].payload));
  }

  /** The network gains the transmission that the record gains. */
  lemma NewTransmission(sys: System, s: int, rs: Recorded, p: Packet)
    requires AcksComeFrom(sys.acks, sys.data) && OnNetwork(sys.data, sys.snd.records) && s in sys.snd.records
    requires var r := sys.snd.records[s];
             && p == Packet(s, |r.messages| + 1, r.payload)
             && s in rs && rs == sys.snd.records[s := rs[s]] && |rs[s].messages| == |r.messages| + 1 && rs[s].payload == r.payload
    ensures AcksComeFrom(sys.acks, sys.data + {p}) && OnNetwork(sys.data + {p}, rs)
  {
  }

  lemma OneMorePacket(sys: System, p: Packet)
    requires DataMatches(sys.data, sys.snd.isn, sys.snd.records, sys.stream)
    requires 0 <= p.seqNo - sys.snd.isn < |sys.stream| && p.payload == sys.stream[p.seqNo - sys.snd.isn]
    requires 1 <= p.msgNo && (p.seqNo in sys.snd.records ==> p.msgNo <= |sys.snd.records[p.seqNo].messages|)
    ensures DataMatches(sys.data + {p}, sys.snd.isn, sys.snd.records, sys.stream)
  {
  }

  lemma TimeoutKeeps(sys: System, s: int)
    requires Inv(sys) && Enabled(sys, Timeout(s))
    ensures Defined(sys, Timeout(s)) && Inv(sys.(snd := MarkedLost(sys.snd, s)))
  {
    hide SenderModel.Inv, ReceiverMatches, DataMatches, AcksMatch;
    LossKeepsInv(sys.snd, s);
    FewerRecords(sys, MarkedLost(sys.snd, s).records);
  }

  lemma DeliverAckKeeps(sys: System, s: int, m: int)
    requires Inv(sys) && Enabled(sys, DeliverAck(s, m))
    ensures Defined(sys, DeliverAck(s, m)) && Inv(AckDelivered(sys, s, m))
  {
    hide SenderModel.Inv, ReceiverMatches, DataMatches, AcksMatch, Acknowledged;
    RecordBounds(sys.snd);
    if FinalAck(sys.snd, s, m) {
      AckKeepsInv(sys.snd, s);
      AckFields(sys.snd, s);
      FewerRecords(sys, sys.snd.records - {s});
    }
  }

  lemma AckFields(st: SenderState, s: int)
    requires SenderModel.Inv(st) && s in st.records && st.records[s].messages != [] && |st.records - {s}| != 0
    ensures Numbered(st)
    ensures var st' := Acknowledged(st, s);
            st'.records == st.records - {s} && st'.isn == st.isn && st'.currSeq == st.currSeq
  {
  }

  lemma ReadKeeps(sys: System, len: int)
    requires Inv(sys)
    ensures sys.rcv.ring.Valid() && Inv(ReadDone(sys, len))
  {
    hide SenderModel.Inv, SenderMatches, DataMatches, AcksMatch, Ring.Valid, Ring.ReadyBytes, Taken, Bytes;
    var data := TakenReads(sys.rcv.ring, len);
    TakenShifts(sys.rcv.ring, len);
    var before := sys.rcv.ring.ReadyBytes();
    assert before[..|data|] == data;
  }

  /** The slots behind the acknowledged position move to the front, in order. */
  ghost predicate Shifted(r: Ring, r': Ring) {
    && |r'.slots| == |r.slots| && r'.ready <= r.ready
    && forall k :: 0 <= k < |r'.slots| ==>
         r'.slots[k] == if k + r.ready - r'.ready < |r.slots| then r.slots[k + r.ready - r'.ready] else None
  }

  lemma ShiftedTwice(r: Ring, r': Ring, r'': Ring)
    requires Shifted(r, r') && Shifted(r', r'')
    ensures Shifted(r, r'')
  {
  }

  lemma ShiftedPop(r: Ring, n: nat)
    requires r.Valid() && r.ready > 0
    ensures Shifted(r, Popped(r)) && Shifted(r, Notched(r, n))
  {
    hide Ring.Valid;
    FirstSlot(r);
  }

  lemma {:induction false} TakenShifts(r: Ring, len: int)
    requires r.Valid()
    ensures Shifted(r, Taken(r, len))
    decreases r.ready
  {
    hide Ring.Valid, Ring.ReadyBytes, Shifted;
    if len > 0 && r.ready > 0 {
      FirstSlot(r);
      PoppedReads(r);
      var rest := |r.slots[0].value.payload| - r.notch;
      ShiftedPop(r, len);
      if rest <= len {
        TakenShifts(Popped(r), len - rest);
        ShiftedTwice(r, Popped(r), Taken(Popped(r), len - rest));
      }
    } else {
      ShiftedNone(r);
    }
  }

  lemma ShiftedNone(r: Ring)
    ensures Shifted(r, r)
  {
  }

  /** The offset computed at the receiver is the true distance for every packet it stores. */
  lemma OffsetIsTrue(sys: System, p: Packet)
    requires Inv(sys) && p in sys.data
    ensures 0 <= p.seqNo < MODULUS && 0 <= p.seqNo - sys.snd.isn < |sys.stream|
    ensures p.payload == sys.stream[p.seqNo - sys.snd.isn]
    ensures var offset := SeqOff(sys.rcv.lastAck, p.seqNo);
            0 <= offset < sys.rcv.ring.Avail() ==> offset == p.seqNo - sys.snd.isn - sys.accepted
  {
    hide SenderModel.Inv, Ring.ReadyBytes, RingMatches, AcksMatch, SeqOff;
    RecordBounds(sys.snd);
    var x := sys.snd.isn + sys.accepted;
    assert |sys.rcv.ring.slots| > 0;
    assert Wrap(p.seqNo) == p.seqNo;
    SeqOffRecovers(x, p.seqNo);
  }

  lemma DeliverDataKeeps(sys: System, p: Packet)
    requires Inv(sys) && Enabled(sys, DeliverData(p))
    ensures Defined(sys, DeliverData(p)) && Inv(DataDelivered(sys, p))
  {
    hide SenderModel.Inv, Ring.Valid, Ring.ReadyBytes, SenderMatches, RingMatches, Added, IncSeqBy, SeqOff, Flatten;
    OffsetIsTrue(sys, p);
    if Storable(sys.rcv, p) {
      ArrivalMatches(sys, p, SeqOff(sys.rcv.lastAck, p.seqNo));
    }
  }

  lemma ArrivalMatches(sys: System, p: Packet, offset: nat)
    requires ReceiverMatches(sys.rcv, sys.snd.isn, sys.stream, sys.accepted, sys.delivered)
    requires p.seqNo == sys.snd.isn + sys.accepted + offset < MODULUS && 0 <= p.seqNo
    requires offset < sys.rcv.ring.Avail() && sys.accepted + offset < |sys.stream|
    requires sys.rcv.ring.slots[sys.rcv.ring.ready + offset].None?
    requires p.payload == sys.stream[sys.accepted + offset]
    ensures var r' := Added(sys.rcv.ring, p, offset);
            var n := r'.ready - sys.rcv.ring.ready;
            && 0 <= n <= MAX_SEQ_NO
            && ReceiverMatches(ReceiverState(r', IncSeqBy(sys.rcv.lastAck, n)), sys.snd.isn, sys.stream,
                               sys.accepted + n, sys.delivered)
  {
    hide Ring.Valid, Ring.ReadyBytes, RingMatches, Added, IncSeqBy, Flatten;
    var r' := Added(sys.rcv.ring, p, offset);
    var n := r'.ready - sys.rcv.ring.ready;
    AddedSize(sys.rcv.ring, p, offset);
    AddedIsValid(sys.rcv.ring, p, offset);
    AddedMatches(sys.rcv.ring, sys.snd.isn, sys.stream, sys.accepted, p, offset);
    IncSeqByAdvances(sys.snd.isn + sys.accepted, n);
    AddedDelivers(sys, p, offset);
  }

  lemma AddedMatches(r: Ring, isn: int, stream: seq<Payload>, accepted: nat, p: Packet, offset: nat)
    requires RingMatches(r, isn, stream, accepted) && p.seqNo == isn + accepted + offset < MODULUS && 0 <= p.seqNo
    requires offset < r.Avail() && accepted + offset < |stream| && p.payload == stream[accepted + offset]
    ensures var r' := Added(r, p, offset);
            && RingMatches(r.(slots := r'.slots), isn, stream, accepted)
            && RingMatches(r', isn, stream, accepted + (r'.ready - r.ready))
            && (accepted <= |stream| ==> accepted + (r'.ready - r.ready) <= |stream|)
  {
    var r' := Added(r, p, offset);
    assert p.seqNo == Wrap(p.seqNo);
    assert RingMatches(r.(slots := r'.slots), isn, stream, accepted);
    if r'.ready > r.ready {
      assert r'.slots[r'.ready - 1].Some?;
    }
  }

  /** The newly contiguous packets carry the next payloads of the stream. */
  lemma AddedDelivers(sys: System, p: Packet, offset: nat)
    requires ReceiverMatches(sys.rcv, sys.snd.isn, sys.stream, sys.accepted, sys.delivered)
    requires p.seqNo == sys.snd.isn + sys.accepted + offset < MODULUS && 0 <= p.seqNo
    requires offset < sys.rcv.ring.Avail() && sys.accepted + offset < |sys.stream|
    requires sys.rcv.ring.slots[sys.rcv.ring.ready + offset].None?
    requires p.payload == sys.stream[sys.accepted + offset]
    ensures var r, r' := sys.rcv.ring, Added(sys.rcv.ring, p, offset);
            && r'.Valid() && 0 <= r'.ready - r.ready <= |sys.stream| - sys.accepted
            && sys.delivered + r'.ReadyBytes() == Flatten(sys.stream[..sys.accepted + (r'.ready - r.ready)])
  {
    hide Ring.Valid, Ring.ReadyBytes, Flatten, Bytes, Added, RingMatches;
    var r, r' := sys.rcv.ring, Added(sys.rcv.ring, p, offset);
    AddedValid(r, p, offset);
    AddedSize(r, p, offset);
    AddedMatches(r, sys.snd.isn, sys.stream, sys.accepted, p, offset);
    var n := r'.ready - r.ready;
    RunMatches(r, r', sys.snd.isn, sys.stream, sys.accepted, p, offset);
    BytesOfRun(r'.slots[r.ready..r'.ready], sys.stream[sys.accepted..sys.accepted + n]);
    FlattenConcat(sys.stream[..sys.accepted], sys.stream[sys.accepted..sys.accepted + n]);
    assert sys.stream[..sys.accepted] + sys.stream[sys.accepted..sys.accepted + n] == sys.stream[..sys.accepted + n];
  }

  lemma RunMatches(r: Ring, r': Ring, isn: int, stream: seq<Payload>, accepted: nat, p: Packet, offset: nat)
    requires offset < r.Avail() && r' == Added(r, p, offset) && RingMatches(r.(slots := r'.slots), isn, stream, accepted)
    requires accepted + (r'.ready - r.ready) <= |stream|
    ensures |r'.slots| >= r'.ready >= r.ready
    ensures forall k :: r.ready <= k < r'.ready ==>
              r'.slots[k].Some? && r'.slots[k].value.payload == stream[accepted..][k - r.ready]
  {
  }

  lemma FlattenFirst(payloads: seq<Payload>)
    requires payloads != []
    ensures Flatten(payloads) == payloads[0] + Flatten(payloads[1..])
  {
    FlattenConcat([payloads[0]], payloads[1..]);
    assert [payloads[0]] + payloads[1..] == payloads;
    assert [payloads[0]][..0] == [];
  }

  lemma {:induction false} BytesOfRun(slots: seq<Option<Packet>>, payloads: seq<Payload>)
    requires |slots| == |payloads|
    requires forall k :: 0 <= k < |slots| ==> slots[k].Some? && slots[k].value.payload == payloads[k]
    ensures Bytes(slots) == Flatten(payloads)
  {
    if slots == [] {
    } else {
      BytesOfRun(slots[1..], payloads[1..]);
      FlattenFirst(payloads);
    }
  }
}
