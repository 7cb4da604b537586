/** Runs and inputs on which the code does not do what one would expect of it.  The exact conditions
    are stated with the operations.  Here each of them is met: one member leads from a fresh object or a
    fresh connection to the state before the step that fails, and another takes that step. */
module Failures {
  import opened Wrappers
  import opened Records
  import opened SeqNo
  import opened SenderModel
  import opened Sender
  import opened RcvRing
  import opened Receiver
  import opened Protocol
  import opened ProtocolRuns
  import opened RateControl
  import opened PccSenders
  import opened ControlTraces
  import opened Intervals
  import SndBuffers
  import SndULists
  import LossSlots
  import RcvLossLists
  import RcvBuffers
  import UnitQueues

  // ---------- a loss before the first acknowledgment ----------

  /** Two announcements, and a loss as the first report. */
  const LOSS_FIRST := [SentEvent(1, 1), SentEvent(2, 1), LostEvent(1, 1)]

  /** Two packets go out and the first one times out. */
  lemma TimedOutFirst() returns (steps: seq<Step>, states: seq<System>)
    ensures IsRun(0, 2, steps, states) && |states| == |steps| + 1
    ensures states[|steps|].snd.log == LOSS_FIRST && Welcome(LOSS_FIRST)
  {
    hide Enabled, Defined, Apply, InTransit, Initial;
    FirstSteps();
    BothSent();
    var last := FirstLost();
    steps := [SendCall([7, 8], 10, 1), Transmit(0, 1), Transmit(1, 2), Timeout(0)];
    states := [Initial(0, 2), InTransit(0, {}), InTransit(1, {}), InTransit(2, {}), last];
    forall i | 0 <= i < |steps| ensures Enabled(states[i], steps[i]) && Follows(states[i], steps[i], states[i + 1]) {
      assert i == 0 || i == 1 || i == 2 || i == 3;
    }
    LossWelcome(steps, states);
  }

  lemma LossWelcome(steps: seq<Step>, states: seq<System>)
    requires IsRun(0, 2, steps, states) && |states| == |steps| + 1 && states[|steps|].snd.log == LOSS_FIRST
    ensures Welcome(LOSS_FIRST)
  {
    hide IsRun, Welcome;
    RunTraced(0, 2, steps, states, |steps|);
  }

  lemma FirstLost() returns (last: System)
    ensures Enabled(InTransit(2, {}), Timeout(0)) && Defined(InTransit(2, {}), Timeout(0))
    ensures last == Apply(InTransit(2, {}), Timeout(0))
    ensures last.snd.log == LOSS_FIRST
  {
    last := InTransit(2, {}).(snd := MarkedLost(InTransit(2, {}).snd, 0));
  }

  /** Played to a new controller, whatever the inputs are, that log ends in the division by a round-trip
      time of zero. */
  method LossBeforeAck(inputs: seq<Input>, s: PccVivaceSender) returns (heard: nat, outcome: Outcome)
    requires Welcome(LOSS_FIRST) && Supplied(LOSS_FIRST, inputs)
    requires s.Valid() && s.queue.flight == map[] && s.queue.nextNo == 0 == s.queue.now && !s.hasSeenValidRtt && s.WithinLimit()
    modifies s, s.queue
    ensures outcome == NoRoundTrip && heard == 2
  {
    hide PccVivaceSender.Valid, Welcome;
    assert FirstReport(LOSS_FIRST, 2) && !BringsTime(LOSS_FIRST[2], inputs[2]);
    ghost var before;
    heard, outcome, before := Replay(LOSS_FIRST, inputs, s);
  }

  // ---------- the acknowledgment of the last packet ----------

  const ONLY := Packet(0, 1, [7])

  function Alone(sent: bool, acks: set<(int, int)>): System {
    var q := PacketRecord(QUEUED, 0, [7], []);
    System(SenderState(0, map[0 := if sent then q.Sent(MessageRecord(1, 1, 1)) else q], if sent then 1 else 0, 0, 0, if sent then 1 else 0, 1,
                       if sent then [SentEvent(1, 1)] else [], 0),
           ReceiverState(if acks == {} then Ring([None, None], 0, 0, 0) else Ring([Some(ONLY), None], 1, 0, 0), if acks == {} then 0 else 1),
           if sent then {ONLY} else {}, acks, [[7]], if acks == {} then 0 else 1, [])
  }

  /** One packet is sent, delivered and acknowledged. */
  lemma OnePacket()
    ensures Enabled(Initial(0, 2), SendCall([7], 10, 1)) && Defined(Initial(0, 2), SendCall([7], 10, 1))
    ensures Apply(Initial(0, 2), SendCall([7], 10, 1)) == Alone(false, {})
    ensures Enabled(Alone(false, {}), Transmit(0, 1)) && Defined(Alone(false, {}), Transmit(0, 1))
    ensures Apply(Alone(false, {}), Transmit(0, 1)) == Alone(true, {})
  {
    hide Enabled, Defined, Apply, Alone, Initial;
    OneQueued();
    OneSent();
  }

  lemma OneQueued()
    ensures Enabled(Initial(0, 2), SendCall([7], 10, 1)) && Defined(Initial(0, 2), SendCall([7], 10, 1))
    ensures Apply(Initial(0, 2), SendCall([7], 10, 1)) == Alone(false, {})
  {
    hide Chunks, EnqueuedAll;
    var s0 := Initial(0, 2);
    ChunksStep([7], 1);
    OneEnqueued(s0.snd);
    assert s0.rcv.ring.slots == [None, None];
  }

  lemma OneEnqueued(st: SenderState)
    ensures EnqueuedAll(st, [[7]]) == Enqueued(st, [7])
  {
    assert [[7]][..0] == [];
    assert EnqueuedAll(st, [[7]]) == Enqueued(EnqueuedAll(st, []), [7]);
  }

  lemma OneSent()
    ensures Enabled(Alone(false, {}), Transmit(0, 1)) && Defined(Alone(false, {}), Transmit(0, 1))
    ensures Apply(Alone(false, {}), Transmit(0, 1)) == Alone(true, {})
  {
    assert LowestIn(Alone(false, {}).snd.records, QUEUED, 0);
  }

  lemma OnePacketArrives()
    ensures Enabled(Alone(true, {}), DeliverData(ONLY)) && Defined(Alone(true, {}), DeliverData(ONLY))
    ensures Apply(Alone(true, {}), DeliverData(ONLY)) == Alone(true, {(0, 1)})
  {
    var r := Alone(true, {}).rcv.ring;
    assert r.slots[0 := Some(ONLY)] == [Some(ONLY), None];
    assert Run([Some(ONLY), None], 0) == 1;
  }

  /** In that state the acknowledgment on the network is a final one, and it empties the tracker. */
  lemma LastAckEmpties() returns (steps: seq<Step>, states: seq<System>)
    ensures IsRun(0, 2, steps, states)
    ensures var snd := states[|steps|].snd;
            snd == Alone(true, {}).snd && (0, 1) in states[|steps|].acks && FinalAck(snd, 0, 1) && |snd.records - {0}| == 0
  {
    hide Enabled, Defined, Apply, Initial;
    OnePacket();
    OnePacketArrives();
    steps := [SendCall([7], 10, 1), Transmit(0, 1), DeliverData(ONLY)];
    states := [Initial(0, 2), Alone(false, {}), Alone(true, {}), Alone(true, {(0, 1)})];
    assert (states[3].snd.records - {0}).Keys == {};
    forall i | 0 <= i < |steps| ensures Enabled(states[i], steps[i]) && Follows(states[i], steps[i], states[i + 1]) {
      assert i == 0 || i == 1 || i == 2;
    }
  }

  /** The sender's own steps up to there. */
  method SendOnly() returns (snd: UdtSender)
    ensures fresh(snd) && fresh(snd.tracker) && snd.Valid() && snd.State() == Alone(true, {}).snd
  {
    hide UdtSender.Valid, BufferTracks, Chunks, AfterSendCall, Transmitted, NextToSend, NoneIn, FinalAck, Numbered, Acknowledged, Alone, Initial,
         Accepted, PacketRecord.LastMsgNo, PacketRecord.HasMessage;
    snd := new UdtSender(0, 10, 10, 1);
    AloneSteps();
    var accepted := snd.Send([7]);
    var s, msgNo, payload := snd.PackData(true, 1);
  }

  /** The acknowledgment: `ProcessAck` dereferences the null minimum. */
  method LastAck(snd: UdtSender) returns (outcome: AckOutcome)
    requires snd.Valid() && snd.State() == Alone(true, {}).snd
    modifies snd, snd.tracker
    ensures outcome == NullMinimum
  {
    hide UdtSender.Valid, FinalAck, Numbered, Acknowledged, Alone, PacketRecord.HasMessage;
    AloneSteps();
    outcome := snd.ProcessAck(0, 1);
  }

  lemma AloneSteps()
    ensures Initial(0, 2).snd == SenderState(0, map[], 0, -1, 0, 0, 0, [], 0) && Alone(true, {}).snd.records.Keys == {0}
    ensures |Chunks([7], 1)| == 1 && AfterSendCall(Initial(0, 2).snd, [7], 10, 1) == Alone(false, {}).snd
    ensures var rs := Alone(false, {}).snd.records;
            !NoneIn(rs, QUEUED) && (forall s :: NextToSend(rs, s) ==> s == 0) && 0 in rs && rs[0].LastMsgNo() >= 0
    ensures Transmitted(Alone(false, {}).snd, 0, 1) == Alone(true, {}).snd
    ensures FinalAck(Alone(true, {}).snd, 0, 1) && |Alone(true, {}).snd.records - {0}| == 0
  {
    OnePacket();
    assert (Alone(true, {}).snd.records - {0}).Keys == {};
    assert Alone(false, {}).snd.records[0].state.QUEUED?;
  }

  // ---------- a packet that stays unacknowledged for half the circle ----------

  /** The first packet is in flight, those from k + 1 to half the circle are waiting, and the others are
      acknowledged. */
  ghost predicate FirstPending(st: SenderState, k: nat) {
    && st.currSeq == SEQ_NO_TH && st.lastDataAck == 0 && 0 in st.records && st.records[0].state.SENT? && st.records[0].messages != []
    && (forall s :: s in st.records <==> s == 0 || k < s <= SEQ_NO_TH)
    && (forall s :: s in st.records && s != 0 ==> st.records[s].state.QUEUED?)
  }

  /** So many bytes, each in a packet of its own. */
  function Many(n: nat): (data: Payload)
    ensures |data| == n
  {
    seq(n, _ => 7)
  }

  lemma {:induction false} ManyChunks(n: nat)
    ensures |Chunks(Many(n), 1)| == n
  {
    if n > 1 {
      assert Many(n)[1..] == Many(n - 1);
      ManyChunks(n - 1);
    }
  }

  lemma FirstOfMany() returns (steps: seq<Step>, states: seq<System>)
    ensures IsRun(0, 2, steps, states) && FirstPending(states[|steps|].snd, 0)
  {
    hide Protocol.Inv, Apply, Defined, Enabled, Chunks, EnqueuedAll;
    var data := Many(SEQ_NO_TH + 1);
    ManyChunks(SEQ_NO_TH + 1);
    var s0 := Initial(0, 2);
    assert IsRun(0, 2, [], [s0]);
    ManyQueued(s0, data);
    states := RunStep(0, 2, [], [s0], SendCall(data, 10, 1));
    FirstSent(states[1]);
    states := RunStep(0, 2, [SendCall(data, 10, 1)], states, Transmit(0, 1));
    steps := [SendCall(data, 10, 1), Transmit(0, 1)];
    assert [SendCall(data, 10, 1)] + [Transmit(0, 1)] == steps && [] + [SendCall(data, 10, 1)] == [SendCall(data, 10, 1)];
  }

  /** All packets are waiting. */
  ghost predicate AllQueued(st: SenderState) {
    && st.currSeq == SEQ_NO_TH && st.lastDataAck == 0 && (forall s :: s in st.records <==> 0 <= s <= SEQ_NO_TH)
    && forall s :: s in st.records ==> st.records[s].state.QUEUED? && st.records[s].messages == []
  }

  lemma ManyQueued(s0: System, data: Payload)
    requires s0 == Initial(0, 2) && |Chunks(data, 1)| == SEQ_NO_TH + 1
    ensures Enabled(s0, SendCall(data, 10, 1)) && Defined(s0, SendCall(data, 10, 1)) && AllQueued(Apply(s0, SendCall(data, 10, 1)).snd)
  {
    hide Chunks, EnqueuedAll, AllQueued, Accepted, BlocksFor;
    QueuedAtOnce(s0.snd, Chunks(data, 1));
  }

  lemma QueuedAtOnce(st: SenderState, cs: seq<Payload>)
    requires st.records == map[] && st.currSeq == -1 && st.lastDataAck == 0 && |cs| == SEQ_NO_TH + 1
    ensures forall n :: AllQueued(EnqueuedAll(st, cs).(bufferCount := n))
  {
    hide EnqueuedAll;
    EnqueuedRecords(st, cs);
    QueuedOnly(st, cs);
  }

  lemma {:induction false} QueuedOnly(st: SenderState, cs: seq<Payload>)
    requires st.records == map[]
    ensures forall s :: s in EnqueuedAll(st, cs).records ==> EnqueuedAll(st, cs).records[s].state.QUEUED?
  {
    if cs != [] {
      QueuedOnly(st, cs[..|cs| - 1]);
    }
  }

  lemma FirstSent(sys: System)
    requires AllQueued(sys.snd)
    ensures Enabled(sys, Transmit(0, 1)) && Defined(sys, Transmit(0, 1)) && FirstPending(Apply(sys, Transmit(0, 1)).snd, 0)
  {
    assert LowestIn(sys.snd.records, QUEUED, 0) && NoneIn(sys.snd.records, LOST);
  }

  /** One more packet is sent, delivered and acknowledged. */
  lemma OneMoreGone(steps: seq<Step>, states: seq<System>, k: nat) returns (steps': seq<Step>, states': seq<System>)
    requires IsRun(0, 2, steps, states) && FirstPending(states[|steps|].snd, k) && k + 1 < SEQ_NO_TH
    ensures IsRun(0, 2, steps', states') && FirstPending(states'[|steps'|].snd, k + 1)
  {
    hide Protocol.Inv, Apply, Defined, Enabled, IsRun, FirstPending, Acknowledged;
    LastState(0, 2, steps, states);
    NextGoes(states[|steps|], k);
    states' := RunStep(0, 2, steps, states, Transmit(k + 1, k + 2));
    steps' := steps + [Transmit(k + 1, k + 2)];
    var mid := states'[|steps'|].snd;
    steps', states' := CanBeForgotten(0, 2, steps', states', k + 1);
    FirstStays(mid, k);
  }

  /** After the transmission of packet k + 1. */
  ghost predicate NextInFlight(st: SenderState, k: nat) {
    && st.currSeq == SEQ_NO_TH && st.lastDataAck == 0 && 0 in st.records && st.records[0].state.SENT? && st.records[0].messages != []
    && (forall s :: s in st.records <==> s == 0 || k < s <= SEQ_NO_TH)
    && (forall s :: s in st.records && s != 0 && s != k + 1 ==> st.records[s].state.QUEUED?)
    && k + 1 in st.records && st.records[k + 1].messages != []
  }

  lemma NextGoes(sys: System, k: nat)
    requires FirstPending(sys.snd, k) && k + 1 < SEQ_NO_TH
    ensures Enabled(sys, Transmit(k + 1, k + 2))
    ensures Defined(sys, Transmit(k + 1, k + 2)) ==> NextInFlight(Apply(sys, Transmit(k + 1, k + 2)).snd, k)
    ensures Defined(sys, Transmit(k + 1, k + 2)) ==> |Apply(sys, Transmit(k + 1, k + 2)).snd.records - {k + 1}| != 0
  {
    assert LowestIn(sys.snd.records, QUEUED, k + 1) && NoneIn(sys.snd.records, LOST);
    if Defined(sys, Transmit(k + 1, k + 2)) {
      assert 0 in Apply(sys, Transmit(k + 1, k + 2)).snd.records - {k + 1};
    }
  }

  lemma FirstStays(st: SenderState, k: nat)
    requires SenderModel.Inv(st) && NextInFlight(st, k) && k + 1 < SEQ_NO_TH && |st.records - {k + 1}| != 0
    ensures Numbered(st) && FirstPending(Acknowledged(st, k + 1), k + 1)
  {
    hide Acknowledged, Accounted, IdsKnown, SenderModel.Reported;
    AckReleases(st, k + 1);
    AckFields(st, k + 1);
    assert IsMinSeq(st.records - {k + 1}, 0);
  }

  lemma {:induction false} ManyGone(k: nat) returns (steps: seq<Step>, states: seq<System>)
    requires k < SEQ_NO_TH
    ensures IsRun(0, 2, steps, states) && FirstPending(states[|steps|].snd, k)
  {
    if k == 0 {
      steps, states := FirstOfMany();
    } else {
      steps, states := ManyGone(k - 1);
      steps, states := OneMoreGone(steps, states, k - 1);
    }
  }

  /** A run in which the last data ack is left behind: the packet after half a circle is the only one
      recorded, and the buffer is not released up to it. */
  lemma LeftBehind() returns (steps: seq<Step>, states: seq<System>)
    ensures IsRun(0, 2, steps, states)
    ensures var snd := states[|steps|].snd; snd.records.Keys == {SEQ_NO_TH} && snd.lastDataAck == 0 && snd.currSeq == SEQ_NO_TH
  {
    hide Protocol.Inv, SenderModel.Inv, IsRun, Acknowledged, FirstPending;
    steps, states := ManyGone(SEQ_NO_TH - 1);
    LastState(0, 2, steps, states);
    var st := states[|steps|].snd;
    OneLeft(st);
    steps, states := CanBeForgotten(0, 2, steps, states, 0);
    NotReleased(st);
  }

  lemma OneLeft(st: SenderState)
    requires FirstPending(st, SEQ_NO_TH - 1)
    ensures 0 in st.records && st.records[0].messages != []
    ensures (st.records - {0}).Keys == {SEQ_NO_TH} && |st.records - {0}| == 1
  {
    var rest := st.records - {0};
    assert forall s :: s in rest <==> s == SEQ_NO_TH;
    assert rest.Keys == {SEQ_NO_TH};
  }

  lemma NotReleased(st: SenderState)
    requires SenderModel.Inv(st) && FirstPending(st, SEQ_NO_TH - 1)
    ensures 0 in st.records && st.records[0].messages != [] && |st.records - {0}| != 0 && Numbered(st)
    ensures Acknowledged(st, 0).lastDataAck == 0 && Acknowledged(st, 0).currSeq == SEQ_NO_TH
  {
    hide Accounted, IdsKnown, SenderModel.Reported, Acknowledged;
    OneLeft(st);
    AckReleases(st, 0);
    AckFields(st, 0);
  }

  // ---------- a send that is cut down ----------

  /** Three packets are enqueued and one block; then two packets are sent, delivered and acknowledged.
      The ring has one place to store a packet in. */
  function CutDown(sent: nat, got: nat, acked: nat): System
    requires acked <= got <= sent <= 2
  {
    System(SenderState(0, CutRecords(sent, acked), sent, 2, acked, sent - acked, 1 - acked,
                       [SentEvent(1, 1), SentEvent(2, 1)][..sent] + [AckedEvent(1, 1), AckedEvent(2, 1)][..acked], 0),
           if got == 0 then ReceiverState(Ring([None, None], 0, 0, 0), 0) else ReceiverState(Ring([Some(FIRST), None], 1, 0, 0), 1),
           if sent == 0 then {} else if sent == 1 then {FIRST} else {FIRST, SECOND},
           if got == 0 then {} else if got == 1 then {(0, 1)} else {(0, 1), (1, 1)},
           [[7], [8], [9]], if got == 0 then 0 else 1, [])
  }

  function CutRecord(u: nat, sent: nat): PacketRecord {
    var q := PacketRecord(QUEUED, u, if u == 0 then [7] else if u == 1 then [8] else [9], []);
    if u < sent then q.Sent(MessageRecord(1, u + 1, u + 1)) else q
  }

  function CutRecords(sent: nat, acked: nat): Recorded {
    map u: int | acked <= u <= 2 :: CutRecord(u, sent)
  }

  lemma ThreeEnqueued()
    ensures Enabled(Initial(0, 2), SendCall([7, 8, 9], 1, 1))
    ensures Follows(Initial(0, 2), SendCall([7, 8, 9], 1, 1), CutDown(0, 0, 0))
  {
    hide Chunks, EnqueuedAll;
    var s0 := Initial(0, 2);
    BytewiseChunks();
    RecordsQueued(s0.snd);
    assert s0.rcv.ring.slots == [None, None];
  }

  lemma BytewiseChunks()
    ensures Chunks([7, 8, 9], 1) == [[7], [8], [9]]
  {
    var data: Payload := [7, 8, 9];
    assert data[..1] == [7] && data[1..] == [8, 9] && data[1..][..1] == [8] && data[1..][1..] == [9];
  }

  lemma RecordsQueued(st: SenderState)
    requires st.currSeq == -1 && st.records == map[]
    ensures EnqueuedAll(st, [[7], [8], [9]]) == st.(currSeq := 2, records := CutRecords(0, 0))
  {
    TwoEnqueued(st, [7], [8]);
    assert [[7], [8], [9]][..2] == [[7], [8]];
    assert EnqueuedAll(st, [[7], [8], [9]]).records == CutRecords(0, 0);
  }

  lemma CutSent(sent: nat)
    requires sent < 2
    ensures Enabled(CutDown(sent, 0, 0), Transmit(sent, sent + 1)) && Follows(CutDown(sent, 0, 0), Transmit(sent, sent + 1), CutDown(sent + 1, 0, 0))
  {
    assert LowestIn(CutDown(sent, 0, 0).snd.records, QUEUED, sent);
  }

  lemma FirstArrives()
    ensures Enabled(CutDown(2, 0, 0), DeliverData(FIRST)) && Follows(CutDown(2, 0, 0), DeliverData(FIRST), CutDown(2, 1, 0))
  {
    var r := CutDown(2, 0, 0).rcv.ring;
    assert r.slots[0 := Some(FIRST)] == [Some(FIRST), None];
    assert Run([Some(FIRST), None], 0) == 1;
  }

  lemma SecondArrives()
    ensures Enabled(CutDown(2, 1, 1), DeliverData(SECOND)) && Follows(CutDown(2, 1, 1), DeliverData(SECOND), CutDown(2, 2, 1))
  {
  }

  lemma CutAcked(s: nat)
    requires s < 2
    ensures Enabled(CutDown(2, s + 1, s), DeliverAck(s, 1))
    ensures Follows(CutDown(2, s + 1, s), DeliverAck(s, 1), CutDown(2, s + 1, s + 1))
  {
    hide Acknowledged;
    CutForgotten(s);
    var sys := CutDown(2, s + 1, s);
    assert AckDelivered(sys, s, 1) == CutDown(2, s + 1, s + 1);
  }

  lemma CutForgotten(s: nat)
    requires s < 2
    ensures var snd := CutDown(2, s + 1, s).snd;
            && FinalAck(snd, s, 1) && snd.records[s].messages != [] && |snd.records - {s}| == 2 - s && Numbered(snd)
            && Acknowledged(snd, s) == CutDown(2, s + 1, s + 1).snd
  {
    hide CutRecords;
    RecordsLeft(s);
    assert SeqOff(s, s + 1) == 1;
  }

  lemma RecordsLeft(s: nat)
    requires s < 2
    ensures var rs := CutRecords(2, s);
            && (forall u :: u in rs <==> s <= u <= 2) && (forall u :: u in rs ==> rs[u] == CutRecord(u, 2))
            && rs - {s} == CutRecords(2, s + 1) && |rs - {s}| == 2 - s && MinSeq(rs - {s}) == s + 1
  {
    hide CutRecord, MinSeq;
    assert CutRecords(2, s) - {s} == CutRecords(2, s + 1);
    RecordsCount(s + 1);
  }

  lemma RecordsCount(s: nat)
    requires 1 <= s <= 2
    ensures |CutRecords(2, s)| == 3 - s && MinSeq(CutRecords(2, s)) == s
  {
    hide CutRecord;
    var rs := CutRecords(2, s);
    assert rs.Keys == if s == 1 then {1, 2} else {2};
    assert IsMinSeq(rs, s);
  }

  /** The nominal buffer has room for one packet of three.  The second acknowledgment asks for a block when
      none is left, and the count of blocks goes below zero. */
  lemma CutShort() returns (steps: seq<Step>, states: seq<System>)
    ensures IsRun(0, 2, steps, states) && |steps| == 7 && |states| == 8
    ensures steps[0] == SendCall([7, 8, 9], 1, 1) && steps[6] == DeliverAck(1, 1)
    ensures states[6].snd.bufferCount == 0 && states[7].snd.lastDataAck == states[6].snd.lastDataAck + 1 && states[7].snd.bufferCount == -1
  {
    hide Enabled, Defined, Apply, Follows, CutDown, Initial;
    ThreeEnqueued();
    CutSent(0);
    CutSent(1);
    FirstArrives();
    CutAcked(0);
    SecondArrives();
    CutAcked(1);
    steps := [SendCall([7, 8, 9], 1, 1), Transmit(0, 1), Transmit(1, 2), DeliverData(FIRST), DeliverAck(0, 1), DeliverData(SECOND), DeliverAck(1, 1)];
    states := [Initial(0, 2), CutDown(0, 0, 0), CutDown(1, 0, 0), CutDown(2, 0, 0), CutDown(2, 1, 0), CutDown(2, 1, 1), CutDown(2, 2, 1), CutDown(2, 2, 2)];
    forall i | 0 <= i < |steps| ensures Enabled(states[i], steps[i]) && Follows(states[i], steps[i], states[i + 1]) {
      assert i == 0 || i == 1 || i == 2 || i == 3 || i == 4 || i == 5 || i == 6;
    }
    CutCounts();
  }

  lemma CutCounts()
    ensures CutDown(2, 2, 1).snd.bufferCount == 0 && CutDown(2, 2, 2).snd.bufferCount == -1
    ensures CutDown(2, 2, 2).snd.lastDataAck == CutDown(2, 2, 1).snd.lastDataAck + 1
  {
  }

  // ---------- a packet size that changes after an acknowledgment ----------

  const THREE: Payload := [1, 2, 3]

  /** Three bytes in packets of two. */
  function TwoSegments(): seq<SndBuffers.Segment> {
    SndBuffers.Segments(THREE, 2, 1, false)
  }

  lemma ThreeChunks()
    ensures Chunks(THREE, 2) == [[1, 2], [3]]
  {
    assert THREE[..2] == [1, 2] && THREE[2..] == [3];
  }

  lemma ThreeBytes(n: int)
    ensures var cs := TwoSegments();
            |cs| == 2 && SndBuffers.Bytes(cs[1..]) == [3] && !SndBuffers.Refits(cs[0..1], cs[1..], n, 1)
  {
    hide Chunks, SndBuffers.Bytes, SndBuffers.Message, SndBuffers.Advanced, SndBuffers.Segments;
    ThreeChunks();
    var cs := TwoSegments();
    SndBuffers.SegmentAt(THREE, 2, 1, false, 0);
    SndBuffers.SegmentAt(THREE, 2, 1, false, 1);
    SndBuffers.BytesNone();
    SndBuffers.BytesOneMore([], cs[0]);
    SndBuffers.BytesOneMore([], cs[1]);
    assert cs[0..1] == [] + [cs[0]] && cs[1..] == [] + [cs[1]];
  }

  /** Two packets in the buffer, of which the first is acknowledged; nothing has ever been read. */
  method ReaderOvertaken() returns (buffer: SndBuffers.SndBuffer)
    ensures fresh(buffer) && fresh(buffer.ring) && fresh(buffer.bufs) && Overtaken(buffer)
  {
    hide SndBuffers.SndBuffer.Valid, SndBuffers.SndBuffer.Indexed, SndBuffers.SndBuffer.Stores, SndBuffers.Refits, SndBuffers.Bytes,
         TwoSegments, SndBuffers.Slice, SndBuffers.Holds, SndBuffers.EndsAt;
    buffer := new SndBuffers.SndBuffer(4, 2);
    buffer.AddBuffer(THREE, false);
    SegmentsAre(buffer.segs);
    ThreeBytes(0);
    buffer.BehindReader();
    var held := buffer.AckData(1);
    buffer.BehindReader();
    ThreeBytes(|buffer.ring|);
    StoresValid(buffer);
  }

  /** The third byte is queued, the first two have been acknowledged behind the read position, and the
      buffer cannot take packets of one byte. */
  ghost predicate Overtaken(buffer: SndBuffers.SndBuffer)
    reads buffer, buffer.ring, buffer.bufs
  {
    && buffer.Valid() && buffer.segs == TwoSegments()[1..] && buffer.Passed() == TwoSegments()[..1] && buffer.mss == 2
    && buffer.Stores([3]) && !buffer.Resizable(1)
  }

  lemma StoresValid(buffer: SndBuffers.SndBuffer)
    requires buffer.Valid()
    ensures buffer.Stores(SndBuffers.Bytes(buffer.segs))
  {
    hide SndBuffers.Circle, SndBuffers.Jumps, SndBuffers.Bytes, SndBuffers.Anchored;
    assert SndBuffers.Slice(buffer.ring, buffer.firstIndex, 0, buffer.count) == buffer.segs;
  }

  /** After the change to packets of one byte the buffer no longer holds the third byte alone. */
  method OvertakenResize(buffer: SndBuffers.SndBuffer)
    requires Overtaken(buffer)
    modifies buffer, buffer.ring, buffer.bufs
    ensures buffer.mss == 1 && !buffer.Stores([3])
  {
    hide SndBuffers.SndBuffer.Valid, SndBuffers.SndBuffer.Indexed, SndBuffers.SndBuffer.Stores, SndBuffers.SndBuffer.Resizable, SndBuffers.Bytes,
         TwoSegments;
    ThreeBytes(0);
    buffer.ResizeMss(1);
  }

  lemma SegmentsAre(segs: seq<SndBuffers.Segment>)
    requires segs == [] + SndBuffers.Segments(THREE, 2, 1, false)
    ensures segs == TwoSegments()
  {
  }

  // ---------- a free unit that the search misses ----------

  /** A pool of three units of which the first two store packets. */
  ghost predicate LastIsFree(pool: UnitQueues.UnitQueue)
    reads pool, set i, j | 0 <= i < |pool.entries| && 0 <= j < |pool.entries[i]| :: pool.entries[i][j]
  {
    && pool.Valid() && |pool.entries| == 1 && pool.entrySize == 3 && pool.count == 2
    && var entry := pool.entries[0]; entry[0].flag != 0 && entry[1].flag != 0 && entry[2].flag == 0
  }

  method TwoStored(blank: Packet) returns (pool: UnitQueues.UnitQueue)
    ensures fresh(pool) && LastIsFree(pool)
  {
    pool := new UnitQueues.UnitQueue(3, blank);
    pool.entries[0][0].flag, pool.count := 1, 1;
    pool.entries[0][1].flag, pool.count := 1, 2;
  }

  lemma TwoUsed(pool: UnitQueues.UnitQueue)
    requires LastIsFree(pool)
    ensures UnitQueues.Used(UnitQueues.All(pool.entries)) == 2
  {
    var entry := pool.entries[0];
    assert pool.entries[..0] == [] && UnitQueues.All(pool.entries) == entry;
    assert entry[..1][..0] == [] && UnitQueues.Used(entry[..1]) == 1;
    assert entry[..2][..1] == entry[..1] && UnitQueues.Used(entry[..2]) == 2;
    assert UnitQueues.Used(entry) == 2;
  }

  /** The third unit never comes out, and two of three are too few for the pool to grow. */
  method LastMissed(pool: UnitQueues.UnitQueue, blank: Packet) returns (unit: RcvBuffers.CUnit?)
    requires LastIsFree(pool)
    modifies pool
    ensures unit == null && pool.Valid() && pool.entries == old(pool.entries) && pool.entries[0][2].flag == 0
  {
    TwoUsed(pool);
    unit := pool.GetNextAvailUnit(blank);
  }

  // ---------- a removal that breaks the heap ----------

  method NewNode(list: SndULists.SndUList, ts: int) returns (n: SndULists.Node)
    requires list.Valid() && SndULists.Last(list.h, ts) && |list.h| < list.heap.Length
    modifies list`lastEntry, list`h, list.heap, list.h`heapLoc
    ensures fresh(n) && list.Valid() && list.h == old(list.h) + [n] && n.timestamp == ts
  {
    n := new SndULists.Node();
    assert n !in list.h;
    var fits := list.InsertNode(ts, n);
  }

  /** Times that are in heap order as they stand. */
  const TIMES := [1, 10, 2, 11, 12, 3]

  lemma TimesInOrder(h: seq<SndULists.Node>)
    requires |h| <= 6 && forall k :: 0 <= k < |h| ==> h[k].timestamp == TIMES[k]
    ensures SndULists.Ordered(h) && (|h| < 6 ==> SndULists.Last(h, TIMES[|h|]))
    ensures |h| == 6 ==> !SndULists.Fills(h, 3)
  {
    assert SndULists.Parent(1) == 0 && SndULists.Parent(2) == 0 && SndULists.Parent(3) == 1;
    assert SndULists.Parent(4) == 1 && SndULists.Parent(5) == 2;
  }

  /** Six sockets, put in at these times, stay where they are put.  If the one of time 11 goes, the last
      one must not fill its slot below the one of time 10. */
  method SixSockets() returns (list: SndULists.SndUList, n: SndULists.Node)
    ensures fresh(list) && fresh(list.heap) && fresh(n) && forall i :: 0 <= i < |list.h| ==> fresh(list.h[i])
    ensures list.Valid() && SndULists.Ordered(list.h) && n in list.h && list.Honest(n) && !SndULists.Fills(list.h, n.heapLoc)
  {
    hide SndULists.Ordered, SndULists.Last, SndULists.Fills;
    list := new SndULists.SndUList();
    n := new SndULists.Node();
    for i := 0 to 6
      invariant list.Valid() && |list.h| == i && list.heap.Length == 4096 && fresh(list) && fresh(list.heap)
      invariant forall k :: 0 <= k < i ==> fresh(list.h[k]) && list.h[k].timestamp == TIMES[k]
      invariant fresh(n) && (i > 3 ==> n == list.h[3])
    {
      TimesInOrder(list.h);
      var m := NewNode(list, TIMES[i]);
      if i == 3 {
        n := m;
      }
    }
    TimesInOrder(list.h);
  }

  /** Any removal of this kind leaves a list out of order. */
  method UnorderedRemoval(list: SndULists.SndUList, n: SndULists.Node)
    requires list.Valid() && SndULists.Ordered(list.h) && n in list.h && list.Honest(n) && !SndULists.Fills(list.h, n.heapLoc)
    modifies list, list.heap, list.h, n
    ensures list.Valid() && n !in list.h && |list.h| == |old(list.h)| - 1 && !SndULists.Ordered(list.h)
  {
    hide SndULists.Ordered, SndULists.Fills, SndULists.Broken;
    list.RemoveNode(n);
  }

  /** `update` never makes room: 4096 new sockets fit. */
  method FullHeap() returns (list: SndULists.SndUList)
    ensures fresh(list) && fresh(list.heap) && list.Valid() && |list.h| == list.heap.Length == 4096
    ensures forall k :: 0 <= k < |list.h| ==> fresh(list.h[k])
  {
    list := new SndULists.SndUList();
    for i := 0 to 4096
      invariant list.Valid() && |list.h| == i && list.heap.Length == 4096 && fresh(list) && fresh(list.heap)
      invariant forall k :: 0 <= k < i ==> fresh(list.h[k])
    {
      var fits := UpdateNew(list);
    }
  }

  /** The next one does not. */
  method OneTooMany(list: SndULists.SndUList) returns (n: SndULists.Node, fits: bool)
    requires list.Valid() && |list.h| == list.heap.Length == 4096
    modifies list, list.heap, list.h
    ensures fresh(n) && !fits && n !in list.h && list.h == old(list.h)
  {
    hide SndULists.Ordered, SndULists.Fills, SndULists.Placed;
    n := new SndULists.Node();
    assert n !in list.h;
    fits := list.Update(n, false);
  }

  /** `update` for a socket that is not in the heap. */
  method UpdateNew(list: SndULists.SndUList) returns (fits: bool)
    requires list.Valid()
    modifies list`lastEntry, list`h, list.heap, list.h`heapLoc
    ensures list.Valid() && (fits <==> |old(list.h)| < list.heap.Length)
    ensures fits ==> |list.h| == |old(list.h)| + 1
    ensures forall k :: 0 <= k < |list.h| ==> list.h[k] in old(list.h) || fresh(list.h[k])
  {
    hide SndULists.Ordered, SndULists.Fills, SndULists.Placed;
    ghost var was := list.h;
    var n := new SndULists.Node();
    assert n !in list.h;
    fits := list.Update(n, false);
    FromBefore(list.h, was, n);
  }

  lemma FromBefore<T>(h: seq<T>, was: seq<T>, n: T)
    requires h == was || multiset(h) == multiset(was) + multiset{n}
    ensures forall k :: 0 <= k < |h| ==> h[k] in was || h[k] == n
  {
    forall k | 0 <= k < |h| ensures h[k] in was || h[k] == n {
      assert h[k] in multiset(h);
    }
  }

  // ---------- range removals at the end of the circle ----------

  lemma LastNumber()
    ensures Wrap(MAX_SEQ_NO) == MAX_SEQ_NO && Wrap(MAX_SEQ_NO + 1) == 0 && RcvLossLists.TurnEnd(MAX_SEQ_NO) == MAX_SEQ_NO
    ensures Members([]) == {} && RangeSet(MAX_SEQ_NO, MAX_SEQ_NO) == {MAX_SEQ_NO}
    ensures RangeSet(MAX_SEQ_NO, MAX_SEQ_NO + 1) == {MAX_SEQ_NO, MAX_SEQ_NO + 1}
    ensures LossSlots.Fits([], MAX_SEQ_NO, MAX_SEQ_NO + 1, 16)
  {
    MembersIn([]);
    RcvLossLists.WrapTurn(MAX_SEQ_NO, MAX_SEQ_NO + 1);
  }

  lemma MemberBounds(ns: seq<Interval>, lo: int, hi: int)
    requires Ordered(ns) && forall x :: x in Members(ns) ==> lo <= x <= hi
    ensures ns != [] ==> lo <= ns[0].lo <= hi && lo <= ns[|ns| - 1].hi <= hi
  {
    MembersIn(ns);
    if ns != [] {
      assert In(ns, ns[0].lo) && In(ns, ns[|ns| - 1].hi);
    }
  }

  /** A list of the two numbers around the end of the circle. */
  method AcrossTheEnd() returns (list: RcvLossLists.RcvLossList)
    ensures fresh(list) && list.Valid() && Members(list.nodes) == {MAX_SEQ_NO, MAX_SEQ_NO + 1}
    ensures fresh(list.data1) && fresh(list.data2) && fresh(list.next) && fresh(list.prior)
  {
    hide RcvLossLists.RcvLossList.Valid, Wrap, Members;
    list := new RcvLossLists.RcvLossList(16);
    LastNumber();
    list.Insert(MAX_SEQ_NO, 0, MAX_SEQ_NO, MAX_SEQ_NO + 1);
  }

  /** Both are in the range that is removed, and the largest number of the circle stays. */
  method StaysBehind(list: RcvLossLists.RcvLossList)
    requires list.Valid() && Members(list.nodes) == {MAX_SEQ_NO, MAX_SEQ_NO + 1}
    modifies list, list.data1, list.data2, list.next, list.prior
    ensures list.Valid() && Members(list.nodes) == {MAX_SEQ_NO} && old(Members(list.nodes)) == RangeSet(MAX_SEQ_NO, MAX_SEQ_NO + 1)
  {
    hide RcvLossLists.RcvLossList.Valid, Wrap, Members;
    LastNumber();
    list.ValidOrdered();
    MemberBounds(list.nodes, MAX_SEQ_NO, MAX_SEQ_NO + 1);
    var overflows := list.RemoveRange(MAX_SEQ_NO, 0, MAX_SEQ_NO, MAX_SEQ_NO + 1);
  }

  /** Removing the range of the largest number alone takes it out, and the loop counter overflows. */
  method CounterOverflows(list: RcvLossLists.RcvLossList) returns (overflows: bool)
    requires list.Valid() && Members(list.nodes) == {MAX_SEQ_NO}
    modifies list, list.data1, list.data2, list.next, list.prior
    ensures overflows && list.Valid() && Members(list.nodes) == {}
  {
    hide RcvLossLists.RcvLossList.Valid, Wrap, Members;
    LastNumber();
    list.ValidOrdered();
    MemberBounds(list.nodes, MAX_SEQ_NO, MAX_SEQ_NO);
    overflows := list.RemoveRange(MAX_SEQ_NO, MAX_SEQ_NO, MAX_SEQ_NO, MAX_SEQ_NO);
  }
}
