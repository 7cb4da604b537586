/** Whole runs of the protocol: what the receiver hands out, and when data can be forgotten. */
module ProtocolRuns {
  import opened Records
  import opened SeqNo
  import opened SenderModel
  import opened RcvRing
  import opened Receiver
  import opened Protocol
  import opened Wrappers

  ghost predicate IsRun(isn: SeqNum, ringSize: nat, steps: seq<Step>, states: seq<System>) {
    && 0 < ringSize <= MAX_SEQ_NO
    && |states| == |steps| + 1 && states[0] == Initial(isn, ringSize)
    && forall i :: 0 <= i < |steps| ==> Enabled(states[i], steps[i]) && Follows(states[i], steps[i], states[i + 1])
  }

  ghost predicate Follows(sys: System, step: Step, sys': System) {
    Defined(sys, step) ==> sys' == Apply(sys, step)
  }

  lemma StepKeepsInv(sys: System, step: Step)
    requires Protocol.Inv(sys) && Enabled(sys, step)
    ensures Defined(sys, step) && Protocol.Inv(Apply(sys, step))
  {
    hide Protocol.Inv;
    match step
    case SendCall(bytes, bufferSize, payloadSize) => SendKeeps(sys, bytes, bufferSize, payloadSize);
    case Transmit(s, now) => TransmitKeeps(sys, s, now);
    case Timeout(s) => TimeoutKeeps(sys, s);
    case DeliverData(p) => DeliverDataKeeps(sys, p);
    case DeliverAck(s, m) => DeliverAckKeeps(sys, s, m);
    case Read(len) => ReadKeeps(sys, len);
  }

  lemma {:induction false} RunKeepsInv(isn: SeqNum, ringSize: nat, steps: seq<Step>, states: seq<System>, i: nat)
    requires IsRun(isn, ringSize, steps, states) && i < |states|
    ensures Protocol.Inv(states[i]) && states[i].snd.isn == isn
    ensures i < |steps| ==> Defined(states[i], steps[i]) && states[i + 1] == Apply(states[i], steps[i])
  {
    hide Protocol.Inv, Apply, Defined, Enabled, Initial;
    if i == 0 {
      InitialInv(isn, ringSize);
      InitialFields(isn, ringSize);
    } else {
      RunKeepsInv(isn, ringSize, steps, states, i - 1);
      StepKeepsInv(states[i - 1], steps[i - 1]);
      StepFields(states[i - 1], steps[i - 1]);
    }
    if i < |steps| {
      StepKeepsInv(states[i], steps[i]);
      assert Follows(states[i], steps[i], states[i + 1]);
    }
  }

  lemma InitialFields(isn: SeqNum, ringSize: nat)
    ensures Initial(isn, ringSize).snd.isn == isn && Initial(isn, ringSize).stream == []
  {
  }

  /** Only `send` makes the stream longer, and by what it cuts from the user's buffer. */
  lemma StepFields(sys: System, step: Step)
    requires Protocol.Inv(sys) && Enabled(sys, step) && Defined(sys, step)
    ensures Apply(sys, step).snd.isn == sys.snd.isn
    ensures Apply(sys, step).stream ==
            if step.SendCall? then sys.stream + Chunks(step.bytes, step.payloadSize) else sys.stream
    ensures step.SendCall? ==> step.payloadSize > 0
  {
    match step
    case SendCall(bytes, bufferSize, payloadSize) => RecordBounds(sys.snd); EnqueuedRecords(sys.snd, Chunks(bytes, payloadSize));
    case DeliverAck(s, m) => if FinalAck(sys.snd, s, m) { AckFields(sys.snd, s); }
    case _ =>
  }

  // ---------- in-order, exactly-once delivery ----------

  /** Everything the user handed to `send`, in order. */
  function SentBytes(steps: seq<Step>): Payload {
    if steps == [] then []
    else SentBytes(steps[..|steps| - 1]) + (match steps[|steps| - 1] case SendCall(bytes, _, _) => bytes case _ => [])
  }

  lemma {:induction false} StreamIsSentBytes(isn: SeqNum, ringSize: nat, steps: seq<Step>, states: seq<System>, i: nat)
    requires IsRun(isn, ringSize, steps, states) && i < |states|
    ensures Flatten(states[i].stream) == SentBytes(steps[..i])
  {
    hide Protocol.Inv, Apply, Defined, Enabled, Chunks;
    if i > 0 {
      var sys, step := states[i - 1], steps[i - 1];
      StreamIsSentBytes(isn, ringSize, steps, states, i - 1);
      RunKeepsInv(isn, ringSize, steps, states, i - 1);
      StepFields(sys, step);
      assert steps[..i][..i - 1] == steps[..i - 1];
      if step.SendCall? {
        FlattenConcat(sys.stream, Chunks(step.bytes, step.payloadSize));
        ChunksFlatten(step.bytes, step.payloadSize);
      }
    }
  }

  /** In every run, whatever is lost, repeated or reordered, the bytes that reads have
      returned are a prefix of the bytes given to `send`. */
  lemma DeliveredIsPrefix(isn: SeqNum, ringSize: nat, steps: seq<Step>, states: seq<System>, i: nat)
    requires IsRun(isn, ringSize, steps, states) && i < |states|
    ensures states[i].delivered <= SentBytes(steps[..i])
  {
    hide SenderModel.Inv, Ring.Valid, Ring.ReadyBytes, RingMatches, IsRun, SentBytes, Flatten;
    RunKeepsInv(isn, ringSize, steps, states, i);
    StreamIsSentBytes(isn, ringSize, steps, states, i);
    var sys := states[i];
    FlattenConcat(sys.stream[..sys.accepted], sys.stream[sys.accepted..]);
    assert sys.stream[..sys.accepted] + sys.stream[sys.accepted..] == sys.stream;
  }

  /** Every copy of a packet on the network carries the bytes copied when it was enqueued. */
  lemma CopiesAgree(isn: SeqNum, ringSize: nat, steps: seq<Step>, states: seq<System>, i: nat, p: Packet, q: Packet)
    requires IsRun(isn, ringSize, steps, states) && i < |states|
    requires p in states[i].data && q in states[i].data && p.seqNo == q.seqNo
    ensures p.payload == q.payload
    ensures p.seqNo in states[i].snd.records ==> states[i].snd.records[p.seqNo].payload == p.payload
  {
    hide SenderModel.Inv, ReceiverMatches;
    RunKeepsInv(isn, ringSize, steps, states, i);
  }

  /** No acknowledgement on the network makes the tracker exit: it names a transmission of
      the packet, or a packet that is already forgotten. */
  lemma AcksAreKnown(isn: SeqNum, ringSize: nat, steps: seq<Step>, states: seq<System>, i: nat, s: int, m: int)
    requires IsRun(isn, ringSize, steps, states) && i < |states| && (s, m) in states[i].acks
    ensures m != 0 && (s in states[i].snd.records ==> states[i].snd.records[s].HasMessage(m))
  {
    hide ReceiverMatches, DataMatches, Numbered, Accounted, IdsKnown, Reported;
    RunKeepsInv(isn, ringSize, steps, states, i);
    var rs := states[i].snd.records;
    if s in rs {
      assert rs[s].Valid();
      assert (s, m).1 <= |rs[(s, m).0].messages|;
      assert rs[s].messages[m - 1].msgNo == m;
    }
  }

  // ---------- a retransmitted packet can be acknowledged ----------

  /** What arrives is acknowledged under its own message number, and acknowledgements stay. */
  lemma {:induction false} ArrivalAcked(isn: SeqNum, ringSize: nat, steps: seq<Step>, states: seq<System>, i: nat, j: nat)
    requires IsRun(isn, ringSize, steps, states) && i < j < |states| && steps[i].DeliverData?
    ensures (steps[i].p.seqNo, steps[i].p.msgNo) in states[j].acks
  {
    hide Protocol.Inv, Enabled, Arrived, Acknowledged, Chunks;
    RunKeepsInv(isn, ringSize, steps, states, j - 1);
    if i + 1 < j {
      ArrivalAcked(isn, ringSize, steps, states, i, j - 1);
    }
  }

  /** Every acknowledgement is that of a transmission on the network. */
  lemma AcksAreOfPackets(isn: SeqNum, ringSize: nat, steps: seq<Step>, states: seq<System>, i: nat, a: (int, int))
    requires IsRun(isn, ringSize, steps, states) && i < |states| && a in states[i].acks
    ensures exists p :: p in states[i].data && a.0 == p.seqNo && a.1 == p.msgNo
  {
    hide IsRun, SenderModel.Inv, SenderMatches, DataMatches, AcksMatch, ReceiverMatches, OnNetwork;
    RunKeepsInv(isn, ringSize, steps, states, i);
  }

  /** Once the latest transmission of a recorded packet has arrived, however many were lost before it,
      an acknowledgement is on the network that the sender takes as final. */
  lemma LatestArrivalIsFinal(isn: SeqNum, ringSize: nat, steps: seq<Step>, states: seq<System>, i: nat, j: nat)
    requires IsRun(isn, ringSize, steps, states) && i < j < |states| && steps[i].DeliverData?
    requires var p := steps[i].p; p.seqNo in states[j].snd.records && p.msgNo == |states[j].snd.records[p.seqNo].messages| > 0
    ensures exists m :: (steps[i].p.seqNo, m) in states[j].acks && FinalAck(states[j].snd, steps[i].p.seqNo, m)
  {
    hide Initial, Enabled, Follows, SenderMatches, DataMatches, AcksMatch, ReceiverMatches, AcksComeFrom, OnNetwork, Numbered, Accounted, IdsKnown, Reported;
    RunKeepsInv(isn, ringSize, steps, states, j);
    ArrivalAcked(isn, ringSize, steps, states, i, j);
    assert states[j].snd.records[steps[i].p.seqNo].Valid();
  }

  /** A run goes on with any step that is enabled. */
  lemma RunStep(isn: SeqNum, ringSize: nat, steps: seq<Step>, states: seq<System>, step: Step) returns (states': seq<System>)
    requires IsRun(isn, ringSize, steps, states) && Enabled(states[|steps|], step)
    ensures Protocol.Inv(states[|steps|]) && Defined(states[|steps|], step)
    ensures IsRun(isn, ringSize, steps + [step], states') && states' == states + [Apply(states[|steps|], step)]
  {
    hide Protocol.Inv, Initial, Enabled, Apply, Defined;
    RunKeepsInv(isn, ringSize, steps, states, |steps|);
    StepKeepsInv(states[|steps|], step);
    states' := states + [Apply(states[|steps|], step)];
    forall i | 0 <= i < |steps| + 1 ensures Enabled(states'[i], (steps + [step])[i]) && Follows(states'[i], (steps + [step])[i], states'[i + 1]) {
      if i < |steps| {
        assert Enabled(states[i], steps[i]) && Follows(states[i], steps[i], states[i + 1]);
      }
    }
  }

  /** From every reachable state, every packet that has been sent can still be forgotten: let its latest
      transmission arrive, and then the acknowledgement of that, unless it is the last record. */
  lemma CanBeForgotten(isn: SeqNum, ringSize: nat, steps: seq<Step>, states: seq<System>, s: int)
    returns (steps': seq<Step>, states': seq<System>)
    requires IsRun(isn, ringSize, steps, states)
    requires var rs := states[|steps|].snd.records; s in rs && rs[s].messages != [] && |rs - {s}| != 0
    ensures IsRun(isn, ringSize, steps', states') && |steps'| == |steps| + 2 && steps'[..|steps|] == steps && states'[..|states|] == states
    ensures var snd, snd' := states[|steps|].snd, states'[|steps'|].snd;
            SenderModel.Inv(snd) && snd' == Acknowledged(snd, s) && snd'.records == snd.records - {s}
  {
    hide Protocol.Inv, SenderModel.Inv, Enabled, Apply, Defined, IsRun, Acknowledged, FinalAck;
    LastState(isn, ringSize, steps, states);
    var sys := states[|steps|];
    RunKeepsInv(isn, ringSize, steps, states, |steps|);
    var p := LatestDelivered(sys, s);
    states' := RunStep(isn, ringSize, steps, states, DeliverData(p));
    states' := RunStep(isn, ringSize, steps + [DeliverData(p)], states', DeliverAck(s, p.msgNo));
    steps' := steps + [DeliverData(p)] + [DeliverAck(s, p.msgNo)];
  }

  lemma LastState(isn: SeqNum, ringSize: nat, steps: seq<Step>, states: seq<System>)
    requires IsRun(isn, ringSize, steps, states)
    ensures |states| == |steps| + 1
  {
  }

  lemma LatestDelivered(sys: System, s: int) returns (p: Packet)
    requires Protocol.Inv(sys) && s in sys.snd.records && sys.snd.records[s].messages != [] && |sys.snd.records - {s}| != 0
    ensures SenderModel.Inv(sys.snd) && Enabled(sys, DeliverData(p)) && Defined(sys, DeliverData(p))
    ensures var mid := Apply(sys, DeliverData(p));
            && Enabled(mid, DeliverAck(s, p.msgNo)) && Defined(mid, DeliverAck(s, p.msgNo))
            && Apply(mid, DeliverAck(s, p.msgNo)).snd == Acknowledged(sys.snd, s)
    ensures Acknowledged(sys.snd, s).records == sys.snd.records - {s}
  {
    hide SenderMatches, DataMatches, AcksMatch, AcksComeFrom, ReceiverMatches, Released, Accounted, IdsKnown, Reported, Arrived;
    var r := sys.snd.records[s];
    assert r.Valid();
    p := Packet(s, |r.messages|, r.payload);
    StepKeepsInv(sys, DeliverData(p));
    StepKeepsInv(DataDelivered(sys, p), DeliverAck(s, p.msgNo));
    AckFields(sys.snd, s);
  }

  /** In every reachable state with records the last data ack is the lowest recorded number, if and only
      if that is less than half the circle away; so always while the stream is shorter than that. */
  lemma LastAckIsLowest(isn: SeqNum, ringSize: nat, steps: seq<Step>, states: seq<System>, i: nat)
    requires IsRun(isn, ringSize, steps, states) && i < |states| && |states[i].snd.records| != 0
    ensures var snd := states[i].snd;
            && (IsMinSeq(snd.records, snd.lastDataAck) <==> MinSeq(snd.records) - snd.lastDataAck < SEQ_NO_TH)
            && (|states[i].stream| <= SEQ_NO_TH ==> IsMinSeq(snd.records, snd.lastDataAck))
  {
    hide IsRun, ValidRecords, Settled, Accounted, IdsKnown, Reported, DataMatches, AcksMatch, AcksComeFrom, OnNetwork, ReceiverMatches;
    RunKeepsInv(isn, ringSize, steps, states, i);
    var snd := states[i].snd;
    assert IsMinSeq(snd.records, MinSeq(snd.records));
  }

  // ---------- accounting at the sender ----------

  /** In every reachable state the bytes in flight are those of the sent and lost packets plus
      those forgotten while lost, and the controller has heard of every transmission that is
      no longer in flight exactly once, and of no other. */
  lemma RunAccounting(isn: SeqNum, ringSize: nat, steps: seq<Step>, states: seq<System>, i: nat)
    requires IsRun(isn, ringSize, steps, states) && i < |states|
    ensures var snd := states[i].snd;
            && 0 <= snd.bytesInFlight == OutstandingBytes(snd.records, isn, snd.currSeq + 1) + snd.forgotten
            && forall id: nat :: Verdicts(snd.log, id) ==
                 if 1 <= id <= snd.lastId && !InFlight(snd.records, id) then 1 else 0
  {
    hide IsRun, SenderMatches, DataMatches, AcksMatch, ReceiverMatches, ValidRecords, Settled, Numbered, IdsKnown;
    RunKeepsInv(isn, ringSize, steps, states, i);
  }

  /** A `send` finds room in the nominal send buffer for all its bytes. */
  ghost predicate HasRoom(sys: System, step: Step) {
    step.SendCall? ==> |step.bytes| <= (step.bufferSize - sys.snd.bufferCount) * step.payloadSize
  }

  /** The packets for which a step leaves no block. */
  ghost function Cut(sys: System, step: Step): int {
    if step.SendCall? && step.payloadSize > 0 then CutBlocks(sys.snd, step.bytes, step.bufferSize, step.payloadSize) else 0
  }

  ghost function CutSoFar(steps: seq<Step>, states: seq<System>, i: nat): int
    requires i <= |steps| && i <= |states|
  {
    if i == 0 then 0 else CutSoFar(steps, states, i - 1) + Cut(states[i - 1], steps[i - 1])
  }

  /** The unacknowledged numbers without a block in the send buffer are as many as all calls of `send`
      have cut off.  So the buffer holds exactly the packets not yet covered by `lastDataAck` if and
      only if every `send` so far has found room for all its bytes. */
  lemma {:induction false} RunTracksBuffer(isn: SeqNum, ringSize: nat, steps: seq<Step>, states: seq<System>, i: nat)
    requires IsRun(isn, ringSize, steps, states) && i < |states|
    ensures i <= |steps| && 0 <= Unbacked(states[i].snd) == CutSoFar(steps, states, i)
    ensures BufferTracks(states[i].snd) <==> forall j :: 0 <= j < i ==> HasRoom(states[j], steps[j])
  {
    hide Protocol.Inv, Apply, Defined, Enabled, HasRoom, Unbacked, Cut;
    if i == 0 {
      InitialTracks(isn, ringSize);
    } else {
      RunTracksBuffer(isn, ringSize, steps, states, i - 1);
      RunKeepsInv(isn, ringSize, steps, states, i - 1);
      StepUnbacked(states[i - 1], steps[i - 1]);
    }
  }

  lemma InitialTracks(isn: SeqNum, ringSize: nat)
    ensures Unbacked(Initial(isn, ringSize).snd) == 0
  {
  }

  lemma StepUnbacked(sys: System, step: Step)
    requires Protocol.Inv(sys) && Enabled(sys, step) && Defined(sys, step)
    ensures Unbacked(Apply(sys, step).snd) == Unbacked(sys.snd) + Cut(sys, step)
    ensures Cut(sys, step) >= 0 && (Cut(sys, step) == 0 <==> HasRoom(sys, step))
  {
    hide Protocol.Inv, SenderModel.Inv, Apply, Unbacked, HasRoom, Cut;
    match step
    case SendCall(_, _, _) => SendUnbacked(sys, step);
    case DeliverAck(_, _) => AckUnbacked(sys, step);
    case _ => OthersUnbacked(sys, step);
  }

  lemma SendUnbacked(sys: System, step: Step)
    requires Protocol.Inv(sys) && Enabled(sys, step) && Defined(sys, step) && step.SendCall?
    ensures Unbacked(Apply(sys, step).snd) == Unbacked(sys.snd) + Cut(sys, step)
    ensures Cut(sys, step) >= 0 && (Cut(sys, step) == 0 <==> HasRoom(sys, step))
  {
    hide SenderModel.Inv, SenderMatches, DataMatches, AcksMatch, ReceiverMatches, Arrived, Chunks, Acknowledged, BlocksFor, CutBlocks, Unbacked;
    ChunksCount(step.bytes, step.payloadSize);
    SendKeepsBuffer(sys.snd, step.bytes, step.bufferSize, step.payloadSize);
  }

  lemma AckUnbacked(sys: System, step: Step)
    requires Protocol.Inv(sys) && Enabled(sys, step) && Defined(sys, step) && step.DeliverAck?
    ensures Unbacked(Apply(sys, step).snd) == Unbacked(sys.snd) && Cut(sys, step) == 0 && HasRoom(sys, step)
  {
    hide SenderModel.Inv, SenderMatches, DataMatches, AcksMatch, ReceiverMatches, Arrived, Chunks;
    if FinalAck(sys.snd, step.seqNo, step.msgNo) {
      AckKeepsBuffer(sys.snd, step.seqNo);
    }
  }

  lemma OthersUnbacked(sys: System, step: Step)
    requires Protocol.Inv(sys) && Enabled(sys, step) && Defined(sys, step)
    requires !step.SendCall? && !step.DeliverAck?
    ensures Unbacked(Apply(sys, step).snd) == Unbacked(sys.snd) && Cut(sys, step) == 0 && HasRoom(sys, step)
  {
    hide Protocol.Inv, SenderModel.Inv, Arrived, Chunks, Acknowledged;
  }

  // ---------- nothing that the sender forgets is missing ----------

  /** Packet k of the stream has been accepted in order or sits in the ring. */
  ghost predicate Held(sys: System, k: int) {
    k < sys.accepted || Occupied(sys.rcv.ring, sys.rcv.ring.ready + k - sys.accepted)
  }

  predicate Occupied(r: Ring, j: int) {
    0 <= j < |r.slots| && r.slots[j].Some?
  }

  ghost predicate NothingLost(sys: System) {
    && (forall a :: a in sys.acks ==> Held(sys, a.0 - sys.snd.isn))
    && (forall k :: Forgotten(sys, k) ==> Held(sys, k))
  }

  /** Packet k was enqueued and its record is gone. */
  ghost predicate Forgotten(sys: System, k: int) {
    0 <= k < |sys.stream| && sys.snd.isn + k !in sys.snd.records
  }

  /** An arriving packet is old, or its offset is below `getAvailBufSize`. */
  ghost predicate InWindow(sys: System, p: Packet) {
    p.seqNo - sys.snd.isn - sys.accepted < sys.rcv.ring.Avail()
  }

  /** The acknowledgement goes out in either case; a new packet is kept exactly when it is in
      the window. */
  lemma ArrivalHeld(sys: System, p: Packet)
    requires Protocol.Inv(sys) && p in sys.data && |sys.rcv.ring.slots| <= SEQ_NO_TH
    requires !Held(sys, p.seqNo - sys.snd.isn)
    ensures Defined(sys, DeliverData(p))
    ensures (p.seqNo, p.msgNo) in DataDelivered(sys, p).acks
    ensures Held(DataDelivered(sys, p), p.seqNo - sys.snd.isn) <==> InWindow(sys, p)
  {
    hide SenderModel.Inv, Ring.ReadyBytes, RingMatches, SenderMatches, DataMatches, AcksMatch, SeqOff;
    OffsetIsTrue(sys, p);
    var x, k := sys.snd.isn + sys.accepted, p.seqNo - sys.snd.isn;
    SeqOffRecovers(x, p.seqNo);
    assert Wrap(p.seqNo) == p.seqNo;
    if InWindow(sys, p) {
      assert SeqOff(sys.rcv.lastAck, p.seqNo) == k - sys.accepted;
      assert Storable(sys.rcv, p);
    }
  }

  lemma ArrivalKeepsOccupied(r: Ring, p: Packet, offset: nat, j: int)
    requires offset < r.Avail() && Occupied(r, j)
    ensures Occupied(Added(r, p, offset), j)
  {
  }

  lemma ReadKeepsOccupied(r: Ring, len: int, j: int)
    requires r.Valid() && Occupied(r, j) && j >= r.ready
    ensures Occupied(Taken(r, len), j - r.ready + Taken(r, len).ready)
  {
    hide Ring.Valid, Taken;
    TakenShifts(r, len);
  }

  /** What is held stays held. */
  lemma HeldStays(sys: System, step: Step, k: int)
    requires Protocol.Inv(sys) && Enabled(sys, step) && Defined(sys, step) && Held(sys, k)
    ensures Held(Apply(sys, step), k)
  {
    hide SenderModel.Inv, Ring.Valid, Ring.ReadyBytes, RingMatches, SenderMatches, DataMatches, AcksMatch, SeqOff, Taken, Chunks, Occupied, Added;
    match step
    case DeliverData(p) =>
      if Storable(sys.rcv, p) {
        var offset := SeqOff(sys.rcv.lastAck, p.seqNo);
        AddedSize(sys.rcv.ring, p, offset);
        if k >= sys.accepted {
          ArrivalKeepsOccupied(sys.rcv.ring, p, offset, sys.rcv.ring.ready + k - sys.accepted);
        }
      }
    case Read(len) =>
      if k >= sys.accepted {
        ReadKeepsOccupied(sys.rcv.ring, len, sys.rcv.ring.ready + k - sys.accepted);
      }
    case _ =>
  }

  lemma StepKeepsData(sys: System, step: Step)
    requires Protocol.Inv(sys) && Enabled(sys, step) && Defined(sys, step)
    requires NothingLost(sys) && |sys.rcv.ring.slots| <= SEQ_NO_TH
    requires step.DeliverData? ==> InWindow(sys, step.p)
    ensures NothingLost(Apply(sys, step))
  {
    hide Protocol.Inv, Held, InWindow, Forgotten, Apply, Defined, Enabled;
    var sys' := Apply(sys, step);
    forall k | Held(sys, k) ensures Held(sys', k) {
      HeldStays(sys, step, k);
    }
    NewDuties(sys, step);
    if step.DeliverAck? && (step.seqNo, step.msgNo) in sys.acks {
      assert Held(sys, (step.seqNo, step.msgNo).0 - sys.snd.isn);
    }
    if step.DeliverData? {
      ArrivalDuty(sys, step.p);
    }
  }

  lemma ArrivalDuty(sys: System, p: Packet)
    requires Protocol.Inv(sys) && Enabled(sys, DeliverData(p)) && |sys.rcv.ring.slots| <= SEQ_NO_TH
    requires InWindow(sys, p)
    ensures Defined(sys, DeliverData(p)) && Held(Apply(sys, DeliverData(p)), p.seqNo - sys.snd.isn)
  {
    hide Protocol.Inv, Held, InWindow;
    StepKeepsInv(sys, DeliverData(p));
    if Held(sys, p.seqNo - sys.snd.isn) {
      HeldStays(sys, DeliverData(p), p.seqNo - sys.snd.isn);
    } else {
      ArrivalHeld(sys, p);
    }
  }

  /** What a step adds to the packets that must be held: an arrival acknowledges its packet,
      and only a final acknowledgement forgets one. */
  lemma NewDuties(sys: System, step: Step)
    requires Protocol.Inv(sys) && Enabled(sys, step) && Defined(sys, step)
    ensures var sys' := Apply(sys, step);
            && sys'.snd.isn == sys.snd.isn
            && (forall a :: a in sys'.acks ==> a in sys.acks || (step.DeliverData? && a == (step.p.seqNo, step.p.msgNo)))
            && (forall k :: Forgotten(sys', k) ==>
                  || Forgotten(sys, k)
                  || (step.DeliverAck? && (step.seqNo, step.msgNo) in sys.acks && k == step.seqNo - sys.snd.isn))
  {
    hide Ring.Valid, Ring.ReadyBytes, RingMatches, DataMatches, AcksMatch, Chunks, Accounted, IdsKnown, Reported, Arrived, Acknowledged;
    StepFields(sys, step);
    match step
    case SendCall(bytes, bufferSize, payloadSize) => EnqueuedRecords(sys.snd, Chunks(bytes, payloadSize));
    case DeliverAck(s, m) => if FinalAck(sys.snd, s, m) { AckFields(sys.snd, s); }
    case _ =>
  }

  ghost predicate ArrivalsInWindow(steps: seq<Step>, states: seq<System>) {
    forall i :: 0 <= i < |steps| && i < |states| && steps[i].DeliverData? ==> InWindow(states[i], steps[i].p)
  }

  lemma {:induction false} RunLosesNothing(isn: SeqNum, ringSize: nat, steps: seq<Step>, states: seq<System>, i: nat)
    requires IsRun(isn, ringSize, steps, states) && i < |states|
    requires ringSize <= SEQ_NO_TH && ArrivalsInWindow(steps, states)
    ensures NothingLost(states[i]) && |states[i].rcv.ring.slots| == ringSize
  {
    hide Protocol.Inv, Apply, Defined, Enabled, NothingLost, InWindow;
    if i == 0 {
      InitialLosesNothing(isn, ringSize);
    } else {
      RunLosesNothing(isn, ringSize, steps, states, i - 1);
      RunKeepsInv(isn, ringSize, steps, states, i - 1);
      StepKeepsData(states[i - 1], steps[i - 1]);
      RingSizeFixed(states[i - 1], steps[i - 1]);
    }
  }

  lemma InitialLosesNothing(isn: SeqNum, ringSize: nat)
    ensures NothingLost(Initial(isn, ringSize)) && |Initial(isn, ringSize).rcv.ring.slots| == ringSize
  {
  }

  lemma RingSizeFixed(sys: System, step: Step)
    requires Protocol.Inv(sys) && Enabled(sys, step) && Defined(sys, step)
    ensures |Apply(sys, step).rcv.ring.slots| == |sys.rcv.ring.slots|
  {
    hide SenderModel.Inv, Ring.Valid, Ring.ReadyBytes, RingMatches, DataMatches, AcksMatch, Added, Taken, SeqOff;
    match step
    case DeliverData(p) =>
      if Storable(sys.rcv, p) {
        AddedSize(sys.rcv.ring, p, SeqOff(sys.rcv.lastAck, p.seqNo));
      }
    case Read(len) => TakenShifts(sys.rcv.ring, len);
    case _ =>
  }

  /** When every arrival fits the window, each packet the sender has deleted is held by the
      receiver, and everything below the sender's oldest record (so everything its send buffer
      has dropped) was accepted in order and is delivered or waits for a reader. */
  lemma ForgottenIsAccepted(isn: SeqNum, ringSize: nat, steps: seq<Step>, states: seq<System>, i: nat)
    requires IsRun(isn, ringSize, steps, states) && i < |states|
    requires ringSize <= SEQ_NO_TH && ArrivalsInWindow(steps, states)
    ensures var sys := states[i];
            && (forall k :: Forgotten(sys, k) ==> Held(sys, k))
            && sys.snd.lastDataAck - isn <= sys.accepted
  {
    hide IsRun, SenderMatches, DataMatches, AcksMatch, RingMatches, Ring.ReadyBytes, ArrivalsInWindow, Accounted, IdsKnown, Reported;
    RunLosesNothing(isn, ringSize, steps, states, i);
    RunKeepsInv(isn, ringSize, steps, states, i);
    var sys := states[i];
    assert SenderMatches(sys.snd, sys.stream);
    assert !Held(sys, sys.accepted);
    assert !Forgotten(sys, sys.accepted);
    AckedWithinStream(sys);
  }

  lemma AckedWithinStream(sys: System)
    requires Protocol.Inv(sys)
    ensures sys.snd.lastDataAck - sys.snd.isn <= |sys.stream|
    ensures forall s :: s in sys.snd.records ==> sys.snd.lastDataAck <= s
  {
  }

  // ---------- the condition is needed ----------

  const FIRST := Packet(0, 1, [7])
  const SECOND := Packet(1, 1, [8])

  /** Two packets through a ring of two slots, up to the moment before the second arrives. */
  function InTransit(sent: nat, acks: set<(int, int)>): System
    requires sent <= 2
  {
    var m0, m1 := MessageRecord(1, 1, 1), MessageRecord(1, 2, 2);
    var q0, q1 := PacketRecord(QUEUED, 0, [7], []), PacketRecord(QUEUED, 1, [8], []);
    System(SenderState(0, map[0 := if sent >= 1 then q0.Sent(m0) else q0, 1 := if sent >= 2 then q1.Sent(m1) else q1],
                       sent, 1, 0, sent, 2,
                       [SentEvent(1, 1), SentEvent(2, 1)][..sent], 0),
           ReceiverState(Ring([None, None], 0, 0, 0), 0),
           if sent == 0 then {} else if sent == 1 then {FIRST} else {FIRST, SECOND},
           acks, [[7], [8]], 0, [])
  }

  lemma FirstSteps()
    ensures var s0 := Initial(0, 2);
            && Enabled(s0, SendCall([7, 8], 10, 1)) && Apply(s0, SendCall([7, 8], 10, 1)) == InTransit(0, {})
  {
    var s0 := Initial(0, 2);
    assert Chunks([7, 8], 1) == [[7], [8]] by {
      assert [7 as byte, 8][..1] == [7] && [7 as byte, 8][1..] == [8];
    }
    TwoEnqueued(s0.snd, [7], [8]);
    assert s0.rcv.ring.slots == [None, None];
  }

  lemma BothSent()
    ensures Enabled(InTransit(0, {}), Transmit(0, 1)) && Defined(InTransit(0, {}), Transmit(0, 1))
    ensures Apply(InTransit(0, {}), Transmit(0, 1)) == InTransit(1, {})
    ensures Enabled(InTransit(1, {}), Transmit(1, 2)) && Defined(InTransit(1, {}), Transmit(1, 2))
    ensures Apply(InTransit(1, {}), Transmit(1, 2)) == InTransit(2, {})
  {
    hide Enabled, Defined, Apply, InTransit;
    NextSent(0);
    NextSent(1);
  }

  lemma NextSent(k: nat)
    requires k < 2
    ensures Enabled(InTransit(k, {}), Transmit(k, k + 1)) && Defined(InTransit(k, {}), Transmit(k, k + 1))
    ensures Apply(InTransit(k, {}), Transmit(k, k + 1)) == InTransit(k + 1, {})
  {
    assert LowestIn(InTransit(k, {}).snd.records, QUEUED, k);
  }

  lemma SecondDropped()
    ensures Enabled(InTransit(2, {}), DeliverData(SECOND)) && Defined(InTransit(2, {}), DeliverData(SECOND))
    ensures Apply(InTransit(2, {}), DeliverData(SECOND)) == InTransit(2, {(1, 1)})
  {
  }

  lemma SecondForgotten() returns (last: System)
    ensures Enabled(InTransit(2, {(1, 1)}), DeliverAck(1, 1))
    ensures Follows(InTransit(2, {(1, 1)}), DeliverAck(1, 1), last)
    ensures Forgotten(last, 1) && !Held(last, 1)
  {
    var sys := InTransit(2, {(1, 1)});
    assert (sys.snd.records - {1}).Keys == {0};
    assert FinalAck(sys.snd, 1, 1) && |sys.snd.records - {1}| == 1 && Numbered(sys.snd);
    last := AckDelivered(sys, 1, 1);
  }

  /** A ring of two slots and two packets: the second packet arrives first, is acknowledged
      although there is no room for it, and the sender forgets it. */
  lemma AckedButDropped() returns (steps: seq<Step>, states: seq<System>)
    ensures IsRun(0, 2, steps, states)
    ensures var sys := states[|steps|]; Forgotten(sys, 1) && !Held(sys, 1)
  {
    hide Enabled, Defined, Apply, InTransit, Initial, Forgotten, Held;
    FirstSteps();
    BothSent();
    SecondDropped();
    var last := SecondForgotten();
    steps := [SendCall([7, 8], 10, 1), Transmit(0, 1), Transmit(1, 2), DeliverData(SECOND), DeliverAck(1, 1)];
    states := [Initial(0, 2), InTransit(0, {}), InTransit(1, {}), InTransit(2, {}), InTransit(2, {(1, 1)}), last];
    forall i | 0 <= i < |steps| ensures Enabled(states[i], steps[i]) && Follows(states[i], steps[i], states[i + 1]) {
      assert i == 0 || i == 1 || i == 2 || i == 3 || i == 4;
    }
  }

  lemma TwoEnqueued(st: SenderState, a: Payload, b: Payload)
    ensures EnqueuedAll(st, [a, b]) == Enqueued(Enqueued(st, a), b)
  {
    assert [a, b][..|[a, b]| - 1] == [a];
    assert [a][..|[a]| - 1] == [];
    assert EnqueuedAll(st, [a]) == Enqueued(EnqueuedAll(st, []), a);
  }
}
