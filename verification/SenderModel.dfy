/** What the protocol steps of core.cpp do to the sending side, as functions on values, and
    the invariant that every one of them keeps. */
module SenderModel {
  import opened Arithmetic
  import opened Records
  import opened SeqNo

  /** The calls the sender makes on the rate controller, in order. */
  datatype ControlEvent =
    | SentEvent(id: nat, bytes: nat)
    | AckedEvent(id: nat, bytes: nat)
    | LostEvent(id: nat, bytes: nat)

  datatype SenderState = SenderState(
    isn: int,                 // first sequence number of the connection
    records: Recorded,
    lastId: nat,              // identifier of the latest transmission
    currSeq: int,             // m_iSndCurrSeqNo
    lastDataAck: int,         // m_iSndLastDataAck
    bytesInFlight: int,
    bufferCount: int,         // packets held by the send buffer
    log: seq<ControlEvent>,
    forgotten: nat)           // bytes of packets whose final ack came while they were lost

  // ---------- the steps ----------

  /** Cutting a user buffer into packet payloads. */
  function Chunks(data: Payload, size: nat): (cs: seq<Payload>)
    requires size > 0
    ensures forall c :: c in cs ==> 0 < |c| <= size
  {
    if data == [] then []
    else if |data| <= size then [data]
    else [data[..size]] + Chunks(data[size..], size)
  }

  function Flatten(cs: seq<Payload>): Payload {
    if cs == [] then [] else Flatten(cs[..|cs| - 1]) + cs[|cs| - 1]
  }

  function Enqueued(st: SenderState, payload: Payload): SenderState {
    st.(currSeq := st.currSeq + 1,
        records := st.records[st.currSeq + 1 := PacketRecord(QUEUED, st.currSeq + 1, payload, [])])
  }

  function EnqueuedAll(st: SenderState, cs: seq<Payload>): SenderState {
    if cs == [] then st else Enqueued(EnqueuedAll(st, cs[..|cs| - 1]), cs[|cs| - 1])
  }

  /** The number of bytes `send` hands to the send buffer: what is left of its nominal size,
      and not more than the user gave. */
  function Accepted(st: SenderState, len: nat, bufferSize: int, size: nat): int {
    var room := (bufferSize - st.bufferCount) * size;
    if room > len then len else room
  }

  /** Blocks needed for `len` bytes; C++ division rounds toward zero. */
  function BlocksFor(len: int, size: nat): int
    requires size > 0
  {
    TruncDiv(len, size) + if len % size != 0 then 1 else 0
  }

  function AfterSendCall(st: SenderState, data: Payload, bufferSize: int, size: nat): SenderState
    requires size > 0
  {
    EnqueuedAll(st, Chunks(data, size)).(
      bufferCount := st.bufferCount + BlocksFor(Accepted(st, |data|, bufferSize, size), size))
  }

  /** The packet `packData` picks: the lowest lost one, else the lowest never sent. */
  ghost predicate NextToSend(rs: Recorded, s: int) {
    LowestIn(rs, LOST, s) || (NoneIn(rs, LOST) && LowestIn(rs, QUEUED, s))
  }

  /** A packet waits for all lost ones with lower numbers, and a new one for all lost ones. */
  ghost predicate LostFirst(rs: Recorded, s: int) {
    && s in rs && (rs[s].state.LOST? || rs[s].state.QUEUED?)
    && (forall u :: u in rs && rs[u].state.LOST? ==> rs[s].state.LOST? && s <= u)
    && (forall u :: u in rs && rs[u].state.QUEUED? ==> rs[s].state.LOST? || s <= u)
  }

  lemma NextIsLostFirst(rs: Recorded, s: int)
    ensures NextToSend(rs, s) <==> LostFirst(rs, s)
  {
  }

  function Transmitted(st: SenderState, s: int, now: nat): SenderState
    requires s in st.records && st.records[s].LastMsgNo() >= 0
  {
    var r := st.records[s];
    var m := MessageRecord(r.LastMsgNo() + 1, st.lastId + 1, now);
    st.(records := st.records[s := r.Sent(m)],
        lastId := st.lastId + 1,
        bytesInFlight := if r.state.QUEUED? then st.bytesInFlight + |r.payload| else st.bytesInFlight,
        log := st.log + [SentEvent(st.lastId + 1, |r.payload|)])
  }

  function MarkedLost(st: SenderState, s: int): SenderState
    requires s in st.records && st.records[s].messages != []
  {
    var r := st.records[s];
    st.(records := st.records[s := r.(state := LOST)],
        log := st.log + [LostEvent(r.LastId(), |r.payload|)])
  }

  /** Whether an acknowledgement is the final one of a recorded packet. */
  predicate FinalAck(st: SenderState, s: int, msgNo: int) {
    s in st.records && st.records[s].messages != [] && msgNo == st.records[s].LastMsgNo()
  }

  /** The effect of the final ack of s, when other packets are still recorded. */
  ghost function Acknowledged(st: SenderState, s: int): SenderState
    requires s in st.records && st.records[s].messages != [] && |st.records - {s}| != 0
    requires forall u :: u in st.records ==> 0 <= u < MODULUS
    requires 0 <= st.lastDataAck < MODULUS
  {
    var r, rest := st.records[s], st.records - {s};
    var minSeq := MinSeq(rest);
    var offset := SeqOff(st.lastDataAck, minSeq);
    var st1 := st.(records := rest,
                   bufferCount := if offset > 0 then st.bufferCount - offset else st.bufferCount,
                   lastDataAck := if offset > 0 then minSeq else st.lastDataAck);
    if r.state.LOST? then st1.(forgotten := st.forgotten + |r.payload|)
    else st1.(log := st.log + [AckedEvent(r.LastId(), |r.payload|)],
              bytesInFlight := st.bytesInFlight - |r.payload|)
  }

  // ---------- the invariant ----------

  function Contribution(rs: Recorded, s: int): nat {
    if s in rs && (rs[s].state.SENT? || rs[s].state.LOST?) then |rs[s].payload| else 0
  }

  /** The bytes of all sent or lost packets numbered lo up to hi. */
  function OutstandingBytes(rs: Recorded, lo: int, hi: int): nat
    decreases hi - lo
  {
    if hi <= lo then 0 else OutstandingBytes(rs, lo, hi - 1) + Contribution(rs, hi - 1)
  }

  ghost predicate InFlight(rs: Recorded, id: nat) {
    exists s :: s in rs && FlightOf(rs[s], id)
  }

  predicate FlightOf(r: PacketRecord, id: nat) {
    r.state.SENT? && r.messages != [] && r.LastId() == id
  }

  ghost predicate DistinctFlights(rs: Recorded) {
    forall s, u, id: nat | s in rs && u in rs :: FlightOf(rs[s], id) && FlightOf(rs[u], id) ==> s == u
  }

  /** How often the controller was told the fate of a transmission. */
  function Verdicts(log: seq<ControlEvent>, id: nat): nat {
    if log == [] then 0
    else Verdicts(log[..|log| - 1], id)
         + if !log[|log| - 1].SentEvent? && log[|log| - 1].id == id then 1 else 0
  }

  /** Records are numbered within the connection, and nothing below `lastDataAck` is left. */
  ghost predicate Numbered(st: SenderState) {
    && 0 <= st.isn && st.isn - 1 <= st.currSeq <= MAX_SEQ_NO
    && st.isn <= st.lastDataAck <= st.currSeq + 1
    && forall s :: s in st.records ==> st.lastDataAck <= s <= st.currSeq && st.records[s].seqNo == s
  }

  /** `lastDataAck` is the lowest recorded number, or all records lie so far above it that the circular
      comparison no longer sees them there. */
  ghost predicate Released(st: SenderState) {
    if st.records == map[] then st.lastDataAck == st.currSeq + 1
    else st.lastDataAck in st.records || forall s :: s in st.records ==> s - st.lastDataAck >= SEQ_NO_TH
  }

  ghost predicate Accounted(st: SenderState) {
    st.bytesInFlight == OutstandingBytes(st.records, st.isn, st.currSeq + 1) + st.forgotten
  }

  /** Transmission identifiers in flight are distinct and were announced with their size. */
  ghost predicate IdsKnown(st: SenderState) {
    && (forall s :: s in st.records && st.records[s].messages != [] ==> 1 <= st.records[s].LastId() <= st.lastId)
    && (forall s :: s in st.records && st.records[s].messages != [] ==>
          SentEvent(st.records[s].LastId(), |st.records[s].payload|) in st.log)
    && DistinctFlights(st.records)
  }

  /** Each transmission is in flight with no verdict, or out of flight with exactly one; and
      a verdict names the number of bytes that were sent. */
  ghost predicate Reported(st: SenderState) {
    && (forall id: nat :: Verdicts(st.log, id) ==
          if 1 <= id <= st.lastId && !InFlight(st.records, id) then 1 else 0)
    && (forall e :: e in st.log && !e.SentEvent? ==> SentEvent(e.id, e.bytes) in st.log)
  }

  ghost predicate Inv(st: SenderState) {
    ValidRecords(st.records) && Settled(st.records)
    && Numbered(st) && Released(st) && Accounted(st) && IdsKnown(st) && Reported(st)
  }

  // ---------- the invariant is kept ----------

  lemma {:induction false} OutstandingFrame(rs: Recorded, rs': Recorded, s: int, lo: int, hi: int)
    requires forall u :: lo <= u < hi && u != s ==> Contribution(rs, u) == Contribution(rs', u)
    ensures OutstandingBytes(rs', lo, hi) ==
            OutstandingBytes(rs, lo, hi) + if lo <= s < hi then Contribution(rs', s) - Contribution(rs, s) else 0
    decreases hi - lo
  {
    if lo < hi {
      OutstandingFrame(rs, rs', s, lo, hi - 1);
    }
  }

  lemma VerdictsAppend(log: seq<ControlEvent>, e: ControlEvent, id: nat)
    ensures Verdicts(log + [e], id) == Verdicts(log, id) + if !e.SentEvent? && e.id == id then 1 else 0
  {
    assert (log + [e])[..|log|] == log;
  }

  lemma EnqueueReleased(st: SenderState, payload: Payload)
    requires Numbered(st) && Released(st)
    ensures Released(Enqueued(st, payload))
  {
    if st.records != map[] {
      HasKey(st.records);
      var u :| u in st.records;
      assert st.lastDataAck !in st.records ==> st.currSeq + 1 - st.lastDataAck > u - st.lastDataAck >= SEQ_NO_TH;
    }
    assert st.currSeq + 1 in Enqueued(st, payload).records;
  }

  lemma SameNumbersReleased(st: SenderState, st': SenderState)
    requires Released(st) && st'.records.Keys == st.records.Keys && st'.lastDataAck == st.lastDataAck && st'.currSeq == st.currSeq
    ensures Released(st')
  {
    assert st'.records == map[] <==> st'.records.Keys == {};
    assert st.records == map[] <==> st.records.Keys == {};
  }

  lemma EnqueueKeepsInv(st: SenderState, payload: Payload)
    requires Inv(st) && st.currSeq < MAX_SEQ_NO
    ensures Inv(Enqueued(st, payload))
  {
    hide Released;
    var st' := Enqueued(st, payload);
    EnqueueReleased(st, payload);
    OutstandingFrame(st.records, st'.records, st.currSeq + 1, st.isn, st.currSeq + 2);
    FlightsAfterUpdate(st.records, st.currSeq + 1, st'.records[st.currSeq + 1]);
  }

  /** Updating one packet changes which identifiers are in flight only through that packet. */
  lemma FlightsAfterUpdate(rs: Recorded, s: int, r: PacketRecord)
    requires s in rs || !r.state.SENT?
    requires DistinctFlights(rs)
    ensures forall id: nat :: InFlight(rs[s := r], id) <==>
              FlightOf(r, id) || (InFlight(rs, id) && !(s in rs && FlightOf(rs[s], id)))
  {
    var rs' := rs[s := r];
    forall id: nat ensures InFlight(rs', id) <==>
              FlightOf(r, id) || (InFlight(rs, id) && !(s in rs && FlightOf(rs[s], id))) {
      if InFlight(rs, id) && !(s in rs && FlightOf(rs[s], id)) {
        var u :| u in rs && FlightOf(rs[u], id);
        assert u in rs' && FlightOf(rs'[u], id);
      }
      if FlightOf(r, id) {
        assert s in rs' && FlightOf(rs'[s], id);
      }
    }
  }

  lemma {:induction false} EnqueueAllKeepsInv(st: SenderState, cs: seq<Payload>)
    requires Inv(st) && st.currSeq + |cs| <= MAX_SEQ_NO
    ensures Inv(EnqueuedAll(st, cs)) && EnqueuedAll(st, cs).currSeq == st.currSeq + |cs|
    ensures EnqueuedAll(st, cs) == st.(records := EnqueuedAll(st, cs).records, currSeq := st.currSeq + |cs|)
  {
    if cs != [] {
      EnqueueAllKeepsInv(st, cs[..|cs| - 1]);
      EnqueueKeepsInv(EnqueuedAll(st, cs[..|cs| - 1]), cs[|cs| - 1]);
    }
  }

  lemma TransmitKeepsInv(st: SenderState, s: int, now: nat)
    requires Inv(st)
    requires s in st.records && !st.records[s].state.SENT?
    ensures st.records[s].LastMsgNo() >= 0 && Inv(Transmitted(st, s, now))
  {
    hide ValidRecords, Settled, Numbered, Released, Accounted, IdsKnown, Reported, Transmitted;
    TransmitCounts(st, s, now);
    TransmitReports(st, s, now);
  }

  lemma TransmitCounts(st: SenderState, s: int, now: nat)
    requires ValidRecords(st.records) && Settled(st.records) && Numbered(st) && Released(st) && Accounted(st)
    requires s in st.records && !st.records[s].state.SENT?
    ensures st.records[s].LastMsgNo() >= 0
    ensures var st' := Transmitted(st, s, now);
            ValidRecords(st'.records) && Settled(st'.records) && Numbered(st') && Released(st') && Accounted(st')
  {
    hide Released;
    assert st.records[s].Valid();
    var st' := Transmitted(st, s, now);
    SameNumbersReleased(st, st');
    OutstandingFrame(st.records, st'.records, s, st.isn, st.currSeq + 1);
  }

  lemma TransmitReports(st: SenderState, s: int, now: nat)
    requires ValidRecords(st.records) && IdsKnown(st) && Reported(st)
    requires s in st.records && !st.records[s].state.SENT?
    ensures st.records[s].LastMsgNo() >= 0 && IdsKnown(Transmitted(st, s, now)) && Reported(Transmitted(st, s, now))
  {
    assert st.records[s].Valid();
    var st' := Transmitted(st, s, now);
    FlightsAfterUpdate(st.records, s, st'.records[s]);
    forall id: nat ensures Verdicts(st'.log, id) == Verdicts(st.log, id) {
      VerdictsAppend(st.log, st'.log[|st.log|], id);
    }
  }

  lemma LossKeepsInv(st: SenderState, s: int)
    requires Inv(st)
    requires s in st.records && st.records[s].state.SENT?
    ensures st.records[s].messages != [] && Inv(MarkedLost(st, s))
  {
    hide ValidRecords, Settled, Numbered, Released, Accounted, IdsKnown, Reported, MarkedLost;
    LossCounts(st, s);
    LossReports(st, s);
  }

  lemma LossCounts(st: SenderState, s: int)
    requires ValidRecords(st.records) && Settled(st.records) && Numbered(st) && Released(st) && Accounted(st)
    requires s in st.records && st.records[s].state.SENT?
    ensures st.records[s].messages != []
    ensures var st' := MarkedLost(st, s);
            ValidRecords(st'.records) && Settled(st'.records) && Numbered(st') && Released(st') && Accounted(st')
  {
    hide Released;
    assert st.records[s].Valid();
    var st' := MarkedLost(st, s);
    SameNumbersReleased(st, st');
    OutstandingFrame(st.records, st'.records, s, st.isn, st.currSeq + 1);
  }

  lemma LossReports(st: SenderState, s: int)
    requires ValidRecords(st.records) && IdsKnown(st) && Reported(st)
    requires s in st.records && st.records[s].state.SENT?
    ensures st.records[s].messages != [] && IdsKnown(MarkedLost(st, s)) && Reported(MarkedLost(st, s))
  {
    var r := st.records[s];
    assert r.Valid();
    var st' := MarkedLost(st, s);
    FlightsAfterUpdate(st.records, s, st'.records[s]);
    assert FlightOf(r, r.LastId());
    forall id: nat ensures Verdicts(st'.log, id) == Verdicts(st.log, id) + if id == r.LastId() then 1 else 0 {
      VerdictsAppend(st.log, st'.log[|st.log|], id);
    }
  }

  lemma FlightsAfterDelete(rs: Recorded, s: int)
    requires s in rs
    requires DistinctFlights(rs)
    ensures forall id: nat :: InFlight(rs - {s}, id) <==> InFlight(rs, id) && !FlightOf(rs[s], id)
  {
    var rs' := rs - {s};
    forall id: nat ensures InFlight(rs', id) <==> InFlight(rs, id) && !FlightOf(rs[s], id) {
      if InFlight(rs, id) && !FlightOf(rs[s], id) {
        var u :| u in rs && FlightOf(rs[u], id);
        assert u in rs' && FlightOf(rs'[u], id);
      }
    }
  }

  lemma AckKeepsCounts(st: SenderState, s: int)
    requires Inv(st)
    requires s in st.records && st.records[s].messages != [] && |st.records - {s}| != 0
    ensures Numbered(Acknowledged(st, s)) && Accounted(Acknowledged(st, s))
  {
    hide Released, IdsKnown, Reported;
    var r := st.records[s];
    assert r.Valid();
    var rest := st.records - {s};
    OutstandingFrame(st.records, rest, s, st.isn, st.currSeq + 1);
    assert IsMinSeq(rest, MinSeq(rest));
  }

  lemma AckKeepsReports(st: SenderState, s: int)
    requires Inv(st)
    requires s in st.records && st.records[s].messages != [] && |st.records - {s}| != 0
    ensures IdsKnown(Acknowledged(st, s)) && Reported(Acknowledged(st, s))
  {
    hide Released, Accounted, MinSeq, SeqOff;
    var r := st.records[s];
    assert r.Valid();
    var st' := Acknowledged(st, s);
    FlightsAfterDelete(st.records, s);
    if !r.state.LOST? {
      assert FlightOf(r, r.LastId());
      forall id: nat ensures Verdicts(st'.log, id) == Verdicts(st.log, id) + if id == r.LastId() then 1 else 0 {
        VerdictsAppend(st.log, st'.log[|st.log|], id);
      }
    }
  }

  /** Up to where a final ack releases the buffer when these records are left. */
  ghost function ReleasedTo(rs: Recorded, lastDataAck: int): int
    requires |rs| != 0
  {
    if MinSeq(rs) - lastDataAck < SEQ_NO_TH then MinSeq(rs) else lastDataAck
  }

  /** A final ack releases the buffer up to the lowest number still recorded, whatever the state of the
      packet was, exactly when that number is less than half the circle away. */
  lemma AckReleases(st: SenderState, s: int)
    requires Inv(st)
    requires s in st.records && st.records[s].messages != [] && |st.records - {s}| != 0
    ensures Released(Acknowledged(st, s))
    ensures var st' := Acknowledged(st, s); var lowest := MinSeq(st'.records);
            && (IsMinSeq(st'.records, st'.lastDataAck) <==> lowest - st.lastDataAck < SEQ_NO_TH)
            && st'.lastDataAck == ReleasedTo(st'.records, st.lastDataAck)
            && st'.bufferCount == st.bufferCount - (st'.lastDataAck - st.lastDataAck)
  {
    hide Accounted, IdsKnown, Reported;
    var rest := st.records - {s};
    assert IsMinSeq(rest, MinSeq(rest)) && rest == Acknowledged(st, s).records;
  }

  lemma AckKeepsInv(st: SenderState, s: int)
    requires Inv(st)
    requires s in st.records && st.records[s].messages != [] && |st.records - {s}| != 0
    ensures Inv(Acknowledged(st, s))
  {
    hide Numbered, Released, Accounted, IdsKnown, Reported, MinSeq, SeqOff;
    AckReleases(st, s);
    AckKeepsCounts(st, s);
    AckKeepsReports(st, s);
  }

  // ---------- the send buffer's count ----------

  /** How many of the numbers from `lastDataAck` to `currSeq` have no block in the send buffer. */
  ghost function Unbacked(st: SenderState): int {
    st.currSeq + 1 - st.lastDataAck - st.bufferCount
  }

  /** The send buffer holds one block for every number from `lastDataAck` to `currSeq`. */
  ghost predicate BufferTracks(st: SenderState) {
    Unbacked(st) == 0
  }

  /** An acknowledgement leaves as many numbers without a block as before.  It asks for more blocks than
      there are exactly when fewer numbers than those remain, so never while every number has a block. */
  lemma AckKeepsBuffer(st: SenderState, s: int)
    requires Inv(st)
    requires s in st.records && st.records[s].messages != [] && |st.records - {s}| != 0
    ensures Unbacked(Acknowledged(st, s)) == Unbacked(st) && Acknowledged(st, s).lastDataAck <= st.currSeq
    ensures Acknowledged(st, s).bufferCount <= st.bufferCount
    ensures Acknowledged(st, s).bufferCount < 0 <==> st.currSeq + 1 - Acknowledged(st, s).lastDataAck < Unbacked(st)
    ensures BufferTracks(st) ==> Acknowledged(st, s).bufferCount >= 1
  {
    hide Released, IdsKnown, Reported, Accounted;
    assert IsMinSeq(st.records - {s}, MinSeq(st.records - {s}));
  }

  lemma FlattenOneMore(a: seq<Payload>, c: Payload)
    ensures Flatten(a + [c]) == Flatten(a) + c
  {
    assert (a + [c])[..|a|] == a;
  }

  lemma {:induction false} FlattenConcat(a: seq<Payload>, b: seq<Payload>)
    ensures Flatten(a + b) == Flatten(a) + Flatten(b)
    decreases |b|
  {
    hide Flatten;
    if b == [] {
      FlattenOne([]);
      assert a + b == a;
    } else {
      var front, last := b[..|b| - 1], b[|b| - 1];
      FlattenConcat(a, front);
      FlattenOneMore(a + front, last);
      FlattenOneMore(front, last);
      assert a + b == a + front + [last] && b == front + [last];
    }
  }

  lemma FlattenOne(c: Payload)
    ensures Flatten([c]) == c && Flatten([]) == []
  {
    assert [c][..0] == [];
  }

  /** How a buffer is cut: nothing, one packet, or a full packet and the rest. */
  lemma ChunksStep(data: Payload, size: nat)
    requires size > 0
    ensures data == [] ==> Chunks(data, size) == []
    ensures 0 < |data| <= size ==> Chunks(data, size) == [data]
    ensures |data| > size ==> Chunks(data, size) == [data[..size]] + Chunks(data[size..], size)
  {
  }

  /** Packetising loses no byte and adds none. */
  lemma {:induction false} ChunksFlatten(data: Payload, size: nat)
    requires size > 0
    ensures Flatten(Chunks(data, size)) == data
  {
    hide Flatten, Chunks;
    ChunksStep(data, size);
    FlattenOne(data);
    if |data| > size {
      ChunksFlatten(data[size..], size);
      FlattenOne(data[..size]);
      FlattenConcat([data[..size]], Chunks(data[size..], size));
      assert data[..size] + data[size..] == data;
    }
  }

  lemma DivModUnique(a: int, b: int, q: int, r: int)
    requires 0 <= r < b && a == q * b + r
    ensures a / b == q && a % b == r
  {
    Remainder(q, r, b);
  }

  lemma DivModStep(n: nat, size: nat)
    requires 0 < size <= n
    ensures n / size == (n - size) / size + 1 && n % size == (n - size) % size
  {
    var q, r := (n - size) / size, (n - size) % size;
    assert (q + 1) * size == q * size + size;
    DivModUnique(n, size, q + 1, r);
  }

  lemma {:induction false} ChunksCount(data: Payload, size: nat)
    requires size > 0
    ensures |Chunks(data, size)| == BlocksFor(|data|, size)
  {
    if |data| > size {
      ChunksCount(data[size..], size);
      DivModStep(|data|, size);
    } else if |data| < size {
      DivModUnique(|data|, size, 0, |data|);
    } else {
      DivModUnique(|data|, size, 1, 0);
    }
  }

  lemma BlocksForMultiple(k: int, size: nat)
    requires size > 0
    ensures BlocksFor(k * size, size) == k
  {
    DivModUnique(k * size, size, k, 0);
    assert -(k * size) == (-k) * size;
    DivModUnique(-(k * size), size, -k, 0);
  }

  lemma BlocksForBound(k: int, len: nat, size: nat)
    requires size > 0 && k * size < len
    ensures k < BlocksFor(len, size)
  {
    var q := len / size;
    assert len == q * size + len % size;
    if k > q {
      assert (k - q) * size == k * size - q * size;
      MulAtLeast(k - q, size);
    }
  }

  /** The packets of one `send` for which its cut-down size leaves no block. */
  ghost function CutBlocks(st: SenderState, data: Payload, bufferSize: int, size: nat): int
    requires size > 0
  {
    |Chunks(data, size)| - BlocksFor(Accepted(st, |data|, bufferSize, size), size)
  }

  /** `send` gives every packet a block exactly when the nominal buffer has room for the whole call;
      otherwise it enqueues every packet but gives the buffer fewer bytes. */
  lemma SendKeepsBuffer(st: SenderState, data: Payload, bufferSize: int, size: nat)
    requires size > 0 && Inv(st) && st.currSeq + BlocksFor(|data|, size) <= MAX_SEQ_NO
    ensures Unbacked(AfterSendCall(st, data, bufferSize, size)) == Unbacked(st) + CutBlocks(st, data, bufferSize, size)
    ensures CutBlocks(st, data, bufferSize, size) >= 0
    ensures CutBlocks(st, data, bufferSize, size) == 0 <==> |data| <= (bufferSize - st.bufferCount) * size
  {
    hide Inv, Chunks;
    ChunksCount(data, size);
    EnqueueAllKeepsInv(st, Chunks(data, size));
    var k := bufferSize - st.bufferCount;
    if k * size < |data| {
      BlocksForMultiple(k, size);
      BlocksForBound(k, |data|, size);
    }
  }

  lemma SendKeepsInv(st: SenderState, data: Payload, bufferSize: int, size: nat)
    requires size > 0 && Inv(st) && st.currSeq + |Chunks(data, size)| <= MAX_SEQ_NO
    ensures Inv(AfterSendCall(st, data, bufferSize, size))
  {
    EnqueueAllKeepsInv(st, Chunks(data, size));
  }
}
