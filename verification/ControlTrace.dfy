/** What the protocol tells the rate controller, over whole runs: the calls that the sender logs meet
    the preconditions of the controller, so both state machines run together. */
module ControlTraces {
  import opened Records
  import opened SeqNo
  import opened SenderModel
  import Receiver
  import opened Protocol
  import opened ProtocolRuns
  import MonitorIntervals
  import MonitorQueues
  import opened RateControl
  import opened PccSenders

  // ---------- what the controller may be told ----------

  /** The transmissions without a verdict, with their sizes. */
  function Flying(log: seq<ControlEvent>): map<int, nat> {
    if log == [] then map[]
    else
      var rest, e := Flying(log[..|log| - 1]), log[|log| - 1];
      if e.SentEvent? then rest[e.id := e.bytes] else rest - {e.id}
  }

  /** Above every identifier announced so far. */
  function NextId(log: seq<ControlEvent>): int {
    if log == [] then 0
    else if log[|log| - 1].SentEvent? then log[|log| - 1].id + 1
    else NextId(log[..|log| - 1])
  }

  /** An announcement is new, and a verdict names a transmission in flight with its size. */
  ghost predicate Fits(log: seq<ControlEvent>, e: ControlEvent) {
    if e.SentEvent? then NextId(log) <= e.id && e.bytes > 0
    else e.id in Flying(log) && Flying(log)[e.id] == e.bytes
  }

  ghost predicate Welcome(log: seq<ControlEvent>) {
    forall k :: 0 <= k < |log| ==> Fits(log[..k], log[k])
  }

  lemma LogAppend(log: seq<ControlEvent>, e: ControlEvent)
    ensures Flying(log + [e]) == if e.SentEvent? then Flying(log)[e.id := e.bytes] else Flying(log) - {e.id}
    ensures NextId(log + [e]) == if e.SentEvent? then e.id + 1 else NextId(log)
    ensures Welcome(log) && Fits(log, e) ==> Welcome(log + [e])
  {
    assert (log + [e])[..|log|] == log;
    if Welcome(log) && Fits(log, e) {
      forall k | 0 <= k < |log| + 1 ensures Fits((log + [e])[..k], (log + [e])[k]) {
        assert (log + [e])[..k] == log[..k];
      }
    }
  }

  // ---------- the sender's log ----------

  /** The log is welcome, and the transmissions without a verdict are those of the packets in flight. */
  ghost predicate Traced(st: SenderState) {
    && Welcome(st.log) && NextId(st.log) <= st.lastId + 1
    && (forall id :: id in Flying(st.log) ==> id >= 0 && InFlight(st.records, id))
    && (forall s :: s in st.records && st.records[s].state.SENT? && st.records[s].messages != [] ==>
          st.records[s].LastId() in Flying(st.log) && Flying(st.log)[st.records[s].LastId()] == |st.records[s].payload|)
  }

  lemma TransmitTraced(st: SenderState, s: int, now: nat)
    requires SenderModel.Inv(st) && Traced(st) && s in st.records && !st.records[s].state.SENT? && st.records[s].payload != []
    ensures st.records[s].LastMsgNo() >= 0 && Traced(Transmitted(st, s, now))
  {
    hide Welcome, Flying, NextId, Numbered, Accounted, SenderModel.Reported;
    assert st.records[s].Valid();
    var st' := Transmitted(st, s, now);
    LogAppend(st.log, st'.log[|st.log|]);
    FlightsAfterUpdate(st.records, s, st'.records[s]);
  }

  lemma LossTraced(st: SenderState, s: int)
    requires SenderModel.Inv(st) && Traced(st) && s in st.records && st.records[s].state.SENT?
    ensures st.records[s].messages != [] && Traced(MarkedLost(st, s))
  {
    hide Welcome, Flying, NextId, Numbered, Accounted, SenderModel.Reported;
    var r := st.records[s];
    assert r.Valid();
    var st' := MarkedLost(st, s);
    LogAppend(st.log, st'.log[|st.log|]);
    FlightsAfterUpdate(st.records, s, st'.records[s]);
    assert FlightOf(r, r.LastId());
  }

  lemma AckTraced(st: SenderState, s: int)
    requires SenderModel.Inv(st) && Traced(st) && s in st.records && st.records[s].messages != [] && |st.records - {s}| != 0
    ensures Numbered(st) && Traced(Acknowledged(st, s))
  {
    hide Welcome, Flying, NextId, Accounted, SenderModel.Reported, MinSeq, SeqOff;
    var r := st.records[s];
    assert r.Valid();
    var st' := Acknowledged(st, s);
    FlightsAfterDelete(st.records, s);
    if !r.state.LOST? {
      LogAppend(st.log, st'.log[|st.log|]);
      assert FlightOf(r, r.LastId());
    }
  }

  lemma {:induction false} EnqueueTraced(st: SenderState, cs: seq<Payload>)
    requires SenderModel.Inv(st) && Traced(st) && st.currSeq + |cs| <= MAX_SEQ_NO
    ensures Traced(EnqueuedAll(st, cs))
  {
    hide Welcome, Flying, NextId, Accounted, SenderModel.Reported;
    if cs != [] {
      var mid := EnqueuedAll(st, cs[..|cs| - 1]);
      EnqueueTraced(st, cs[..|cs| - 1]);
      EnqueueAllKeepsInv(st, cs[..|cs| - 1]);
      FlightsAfterUpdate(mid.records, mid.currSeq + 1, EnqueuedAll(st, cs).records[mid.currSeq + 1]);
    }
  }

  // ---------- over whole runs ----------

  lemma StepTraced(sys: System, step: Step)
    requires Protocol.Inv(sys) && Enabled(sys, step) && Defined(sys, step)
    requires Traced(sys.snd) && forall k :: 0 <= k < |sys.stream| ==> sys.stream[k] != []
    ensures Traced(Apply(sys, step).snd)
  {
    hide SenderModel.Inv, Traced, DataMatches, AcksMatch, ReceiverMatches, Receiver.Arrived, Chunks, EnqueuedAll, Acknowledged;
    RecordBounds(sys.snd);
    match step
    case SendCall(bytes, bufferSize, payloadSize) =>
      EnqueueTraced(sys.snd, Chunks(bytes, payloadSize));
      BufferTraced(EnqueuedAll(sys.snd, Chunks(bytes, payloadSize)), Apply(sys, step).snd);
    case Transmit(s, now) => TransmitTraced(sys.snd, s, now);
    case Timeout(s) => LossTraced(sys.snd, s);
    case DeliverAck(s, m) => if FinalAck(sys.snd, s, m) { AckTraced(sys.snd, s); }
    case _ =>
  }

  lemma BufferTraced(st: SenderState, st': SenderState)
    requires Traced(st) && st' == st.(bufferCount := st'.bufferCount)
    ensures Traced(st')
  {
  }

  /** In every reachable state the controller has been told nothing it does not expect, and what it
      believes to be in flight is what the sender has in flight. */
  lemma {:induction false} RunTraced(isn: SeqNum, ringSize: nat, steps: seq<Step>, states: seq<System>, i: nat)
    requires IsRun(isn, ringSize, steps, states) && i < |states|
    ensures Traced(states[i].snd) && forall k :: 0 <= k < |states[i].stream| ==> states[i].stream[k] != []
  {
    hide Protocol.Inv, Apply, Defined, Enabled, Traced, Chunks;
    if i == 0 {
      InitialTraced(isn, ringSize);
      InitialFields(isn, ringSize);
    } else {
      RunTraced(isn, ringSize, steps, states, i - 1);
      RunKeepsInv(isn, ringSize, steps, states, i - 1);
      StepTraced(states[i - 1], steps[i - 1]);
      StepFields(states[i - 1], steps[i - 1]);
    }
  }

  lemma InitialTraced(isn: SeqNum, ringSize: nat)
    ensures Traced(Initial(isn, ringSize).snd)
  {
  }

  // ---------- both machines together ----------

  /** A change of a utility option. */
  datatype Setting = NewTag(name: UtilityTag) | NewParameter(value: real)

  /** What one call of the controller depends on besides the log, and the options set before it. */
  datatype Input = Input(settings: seq<Setting>, time: int, coin: bool, rtt: real, inflated: bool, trusted: bool, utilities: seq<real>, amplifier: real)

  /** Times do not go back, round-trip times are not negative, and every useful interval gets a utility. */
  ghost predicate Supplied(log: seq<ControlEvent>, inputs: seq<Input>) {
    && |inputs| == |log|
    && (forall k :: 0 <= k < |inputs| ==> inputs[k].time >= 0 && inputs[k].rtt >= 0.0 && |inputs[k].utilities| >= MAX_USEFUL)
    && (forall j, k :: 0 <= j < k < |inputs| ==> inputs[j].time <= inputs[k].time)
  }

  ghost predicate FirstReport(log: seq<ControlEvent>, k: int) {
    0 <= k < |log| && !log[k].SentEvent? && forall j :: 0 <= j < k ==> log[j].SentEvent?
  }

  /** The event brings a round-trip time: it is an ack, and its time is not zero. */
  predicate BringsTime(e: ControlEvent, input: Input) {
    e.AckedEvent? && input.rtt > 0.0
  }

  ghost predicate AnyReport(log: seq<ControlEvent>, n: nat) {
    exists j :: 0 <= j < n && j < |log| && !log[j].SentEvent?
  }

  /** If the first report is among the first n events, it brings a round-trip time. */
  ghost predicate WellStarted(log: seq<ControlEvent>, inputs: seq<Input>, n: nat) {
    |inputs| == |log| && forall k :: FirstReport(log, k) && k < n ==> BringsTime(log[k], inputs[k])
  }

  lemma NoneHeard(log: seq<ControlEvent>, inputs: seq<Input>)
    requires |inputs| == |log|
    ensures WellStarted(log, inputs, 0) && !AnyReport(log, 0)
  {
  }

  /** The next event is the first report, or changes nothing. */
  lemma HeardOne(log: seq<ControlEvent>, inputs: seq<Input>, n: nat)
    requires n < |log| && WellStarted(log, inputs, n)
    ensures AnyReport(log, n + 1) <==> AnyReport(log, n) || !log[n].SentEvent?
    ensures if AnyReport(log, n) then WellStarted(log, inputs, |log|)
            else if log[n].SentEvent? || BringsTime(log[n], inputs[n]) then WellStarted(log, inputs, n + 1)
            else FirstReport(log, n) && !WellStarted(log, inputs, |log|)
    ensures AnyReport(log, n) ==> WellStarted(log, inputs, n + 1)
  {
    if AnyReport(log, n) {
      var j :| 0 <= j < n && !log[j].SentEvent?;
      assert forall k :: FirstReport(log, k) ==> k <= j;
    }
  }

  lemma WelcomeAt(log: seq<ControlEvent>, n: nat)
    requires Welcome(log) && n < |log|
    ensures Fits(log[..n], log[n])
  {
  }

  const MAX_USEFUL: nat := MaxUseful(Probing)

  /** One of the first n inputs makes the sender a scavenger. */
  ghost predicate AsksScavenger(inputs: seq<Input>, n: nat) {
    exists j, i :: 0 <= j < n && j < |inputs| && 0 <= i < |inputs[j].settings| && inputs[j].settings[i] == NewTag(ScavengerTag)
  }

  method Adjust(s: PccVivaceSender, ghost inputs: seq<Input>, ghost n: nat, settings: seq<Setting>)
    requires s.Valid() && n < |inputs| && settings == inputs[n].settings
    modifies s`tag, s`scavenger, s`parameters
    ensures s.Valid() && (old(s.WithinLimit()) && !AsksScavenger(inputs, n + 1) ==> s.WithinLimit())
  {
    hide PccVivaceSender.Valid;
    for i := 0 to |settings|
      invariant s.Valid() && (old(s.WithinLimit()) && !AsksScavenger(inputs, n + 1) ==> s.WithinLimit())
    {
      match settings[i]
      case NewTag(name) =>
        s.SetUtilityTag(name);
        assert inputs[n].settings[i] == NewTag(name);
      case NewParameter(value) => s.SetUtilityParameter(value);
    }
  }

  /** What the controller knows when an event arrives. */
  datatype Moment = Moment(control: Control, intervals: seq<MonitorIntervals.MonitorInterval>, pending: seq<MonitorIntervals.Packet>, scavenger: bool)

  ghost function At(s: PccVivaceSender): Moment
    reads s, s.queue
  {
    Moment(s.Now(), s.queue.intervals, s.queue.pending, s.scavenger)
  }

  /** The event completes a round. */
  ghost predicate Completes(m: Moment, e: ControlEvent, input: Input) {
    && !e.SentEvent?
    && MonitorQueues.Judged(m.intervals, Losses(e), m.pending, MonitorIntervals.Trusted(|m.pending|, input.trusted)) == MonitorQueues.Ready
  }

  /** The event completes a round of DECISION_MADE that ran at the stored rate. */
  ghost predicate MeetsEqualRates(m: Moment, e: ControlEvent, input: Input) {
    Completes(m, e, input) && Clashed(m.control)
  }

  /** The event completes a round that can be decided and is longer than the utility tag allows. */
  ghost predicate MeetsWrongSize(m: Moment, e: ControlEvent, input: Input) {
    Completes(m, e, input) && TooLong(m.control.mode, Told(m.intervals, input.utilities), m.scavenger)
  }

  /** What the event counts in the intervals. */
  ghost function Counted(m: Moment, e: ControlEvent, input: Input): seq<MonitorIntervals.MonitorInterval> {
    MonitorQueues.AdvancedAll(m.intervals, Losses(e), m.pending, MonitorIntervals.Trusted(|m.pending|, input.trusted))
  }

  /** The calls of the log, made on a new controller, with changes of the utility options in between.
      Every one of them meets its preconditions, and the controller's view of what is in flight stays
      that of the log.  The calls stop early in three cases only.  One is the first report, if and only
      if it brings no round-trip time.  The others are the report that completes a round at the stored
      rate, and the one that completes a round of the wrong size, which takes a change of the tag. */
  method Replay(log: seq<ControlEvent>, inputs: seq<Input>, s: PccVivaceSender) returns (heard: nat, outcome: Outcome, ghost before: Moment)
    requires Welcome(log) && Supplied(log, inputs)
    requires s.Valid() && s.queue.flight == map[] && s.queue.nextNo == 0 == s.queue.now && !s.hasSeenValidRtt && s.WithinLimit()
    modifies s, s.queue
    ensures heard <= |log| && (outcome == Done <==> heard == |log|)
    ensures outcome == Done ==> s.Valid() && s.queue.flight == Flying(log)
    ensures outcome == NoRoundTrip <==> !WellStarted(log, inputs, |log|)
    ensures outcome == NoRoundTrip ==> FirstReport(log, heard) && !BringsTime(log[heard], inputs[heard])
    ensures outcome == EqualRates ==> MeetsEqualRates(before, log[heard], inputs[heard]) && Clashed(s.Now()) && s.skewed
    ensures outcome == WrongSize ==> MeetsWrongSize(before, log[heard], inputs[heard]) && s.Now() == before.control
    ensures outcome == EqualRates || outcome == WrongSize ==>
              s.queue.flight == Flying(log[..heard + 1]) && s.queue.intervals == Counted(before, log[heard], inputs[heard])
    ensures outcome == WrongSize ==> AsksScavenger(inputs, heard + 1)
  {
    hide PccVivaceSender.Valid, Fits, Flying, NextId, Welcome, AnyReport, WellStarted, FirstReport, AsksScavenger, MeetsEqualRates, MeetsWrongSize, Counted;
    assert log[..0] == [];
    StartOfLog();
    NoneHeard(log, inputs);
    heard, outcome, before := 0, Done, At(s);
    while heard < |log|
      invariant heard <= |log| && outcome == Done && s.Valid() && s.queue.flight == Flying(log[..heard])
      invariant s.queue.nextNo <= NextId(log[..heard])
      invariant s.queue.now <= (if heard == 0 then 0 else inputs[heard - 1].time)
      invariant s.hasSeenValidRtt <==> AnyReport(log, heard)
      invariant WellStarted(log, inputs, heard)
      invariant !AsksScavenger(inputs, heard) ==> s.WithinLimit()
    {
      var e, input := log[heard], inputs[heard];
      assert log[..heard + 1] == log[..heard] + [e];
      WelcomeAt(log, heard);
      HeardOne(log, inputs, heard);
      AsksOnce(inputs, heard);
      Adjust(s, inputs, heard, input.settings);
      before := At(s);
      outcome := Hear(log[..heard], e, input, s);
      if outcome != Done {
        return;
      }
      heard := heard + 1;
    }
    assert log[..heard] == log;
  }

  lemma AsksOnce(inputs: seq<Input>, n: nat)
    ensures AsksScavenger(inputs, n) ==> AsksScavenger(inputs, n + 1)
  {
  }

  lemma StartOfLog()
    ensures Flying([]) == map[] && NextId([]) == 0
  {
  }

  /** The losses that a call reports. */
  function Losses(e: ControlEvent): seq<MonitorIntervals.Packet> {
    if e.LostEvent? then [MonitorIntervals.Packet(e.id, e.bytes)] else []
  }

  /** One call. */
  method Hear(ghost log: seq<ControlEvent>, e: ControlEvent, input: Input, s: PccVivaceSender) returns (outcome: Outcome)
    requires Fits(log, e) && input.rtt >= 0.0 && |input.utilities| >= MAX_USEFUL
    requires s.Valid() && s.queue.flight == Flying(log) && s.queue.nextNo <= NextId(log) && s.queue.now <= input.time
    modifies s, s.queue
    ensures outcome == NoRoundTrip <==> !e.SentEvent? && !old(s.hasSeenValidRtt) && !BringsTime(e, input)
    ensures outcome == EqualRates <==> outcome != NoRoundTrip && MeetsEqualRates(old(At(s)), e, input)
    ensures outcome == WrongSize <==> outcome != NoRoundTrip && MeetsWrongSize(old(At(s)), e, input)
    ensures outcome == EqualRates ==> old(s.hasSeenValidRtt && s.skewed) && Clashed(s.Now()) && s.skewed
    ensures outcome == WrongSize ==> old(s.hasSeenValidRtt && !s.WithinLimit()) && s.Now() == old(s.Now())
    ensures outcome == EqualRates || outcome == WrongSize ==> s.queue.intervals == Counted(old(At(s)), e, input)
    ensures outcome != NoRoundTrip ==> s.queue.flight == Flying(log + [e])
    ensures outcome == Done ==> s.Valid() && s.queue.nextNo <= NextId(log + [e]) && s.queue.now <= input.time
    ensures outcome == Done ==> s.hasSeenValidRtt == (old(s.hasSeenValidRtt) || !e.SentEvent?)
    ensures outcome == Done && old(s.WithinLimit()) ==> s.WithinLimit()
  {
    hide PccVivaceSender.Valid, Flying, NextId, Told, MonitorQueues.Judged, MonitorQueues.AdvancedAll, TooLong, Decision, Reenters, Home, PccVivaceSender.Retagged;
    outcome := Done;
    LogAppend(log, e);
    s.UsefulCounted();
    ReadyUseful(s, e, input);
    match e
    case SentEvent(id, bytes) =>
      s.OnPacketSent(input.time, id, bytes, input.coin);
    case AckedEvent(id, bytes) =>
      var verdict;
      OneReport(s.queue.flight, id, bytes);
      outcome, verdict := s.OnCongestionEvent(true, input.rtt, input.inflated, [MonitorIntervals.Packet(id, bytes)], Losses(e),
                                              MonitorIntervals.Trusted(|s.queue.pending|, input.trusted), input.utilities, input.amplifier);
    case LostEvent(id, bytes) =>
      var verdict;
      OneReport(s.queue.flight, id, bytes);
      outcome, verdict := s.OnCongestionEvent(false, 0.0, input.inflated, [], Losses(e),
                                              MonitorIntervals.Trusted(|s.queue.pending|, input.trusted), input.utilities, input.amplifier);
  }

  /** A round that is complete has useful intervals; a round that is too long is one of PROBING. */
  lemma ReadyUseful(s: PccVivaceSender, e: ControlEvent, input: Input)
    requires s.Valid()
    ensures Completes(At(s), e, input) ==> s.queue.numUseful > 0 && s.hasSeenValidRtt
    ensures TooLong(s.mode, Told(s.queue.intervals, input.utilities), s.scavenger) ==> s.mode == Probing
  {
    hide MonitorQueues.Sound, RateControl.Paced, RateControl.Bounded, MonitorQueues.AdvancedAll;
    s.UsefulCounted();
    MonitorQueues.NothingToJudge(s.queue.intervals, Losses(e), s.queue.pending, MonitorIntervals.Trusted(|s.queue.pending|, input.trusted));
  }

  lemma OneReport(flight: map<int, nat>, id: int, bytes: nat)
    requires id in flight && flight[id] == bytes
    ensures var ps := [MonitorIntervals.Packet(id, bytes)];
            && MonitorIntervals.Reported(ps, flight) && MonitorIntervals.Reported([], MonitorIntervals.Landed(flight, ps))
            && MonitorIntervals.Reported([], flight) && MonitorIntervals.Reported(ps, MonitorIntervals.Landed(flight, []))
            && MonitorIntervals.Landed(MonitorIntervals.Landed(flight, ps), []) == flight - {id}
            && MonitorIntervals.Landed(MonitorIntervals.Landed(flight, []), ps) == flight - {id}
  {
    var ps := [MonitorIntervals.Packet(id, bytes)];
    assert ps[..|ps| - 1] == [];
  }
}
