/** The values kept by the packet tracker, and the pure transitions on a map of records.
    These transitions are what the tracker's methods are proved against, and what the
    two-party protocol is built from. */
module Records {

  newtype byte = x: int | 0 <= x < 256

  type Payload = seq<byte>

  datatype PacketState = QUEUED | SENT | ACKED | LOST

  /** One transmission of a packet: `sentTime` counts nanoseconds of the monotonic clock. */
  datatype MessageRecord = MessageRecord(msgNo: nat, packetId: nat, sentTime: nat)

  datatype PacketRecord = PacketRecord(state: PacketState, seqNo: int, payload: Payload, messages: seq<MessageRecord>) {

    function LastMsgNo(): int {
      if messages == [] then 0 else messages[|messages| - 1].msgNo
    }

    /** Transmissions are numbered 1, 2, 3, ... and only a queued packet has none. */
    ghost predicate Valid() {
      && (state.QUEUED? <==> messages == [])
      && forall i :: 0 <= i < |messages| ==> messages[i].msgNo == i + 1
    }

    function LastSent(): nat
      requires messages != []
    {
      messages[|messages| - 1].sentTime
    }

    function LastId(): nat
      requires messages != []
    {
      messages[|messages| - 1].packetId
    }

    predicate HasMessage(msgNo: int) {
      exists i :: 0 <= i < |messages| && messages[i].msgNo == msgNo
    }

    function Sent(m: MessageRecord): PacketRecord {
      this.(state := SENT, messages := messages + [m])
    }

    /** Only news about the latest transmission moves the packet's state. */
    function Updated(newState: PacketState, msgNo: int): PacketRecord {
      if msgNo == LastMsgNo() then this.(state := newState) else this
    }
  }

  type Recorded = map<int, PacketRecord>

  ghost predicate ValidRecords(rs: Recorded) {
    forall s :: s in rs ==> rs[s].Valid() && rs[s].seqNo == s
  }

  /** Between two protocol steps no record is in the passing state ACKED. */
  ghost predicate Settled(rs: Recorded) {
    forall s :: s in rs ==> !rs[s].state.ACKED?
  }

  ghost predicate LowestIn(rs: Recorded, st: PacketState, seqNo: int) {
    && seqNo in rs && rs[seqNo].state == st
    && forall s :: s in rs && rs[s].state == st ==> seqNo <= s
  }

  ghost predicate NoneIn(rs: Recorded, st: PacketState) {
    forall s :: s in rs ==> rs[s].state != st
  }

  ghost predicate IsMinSeq(rs: Recorded, seqNo: int) {
    seqNo in rs && forall s :: s in rs ==> seqNo <= s
  }

  lemma HasKey(rs: Recorded)
    ensures |rs| == 0 || exists k :: k in rs
  {
    if forall k :: k !in rs {
      assert rs.Keys == {};
    }
  }

  lemma HasMinSeq(rs: Recorded)
    requires |rs| != 0
    ensures exists m :: IsMinSeq(rs, m)
    decreases |rs|
  {
    HasKey(rs);
    var k :| k in rs;
    var rest := rs - {k};
    assert rest.Keys == rs.Keys - {k};
    if |rest| == 0 {
      assert rs.Keys == {k};
      assert IsMinSeq(rs, k);
    } else {
      HasMinSeq(rest);
      var m :| IsMinSeq(rest, m);
      assert forall s :: s in rs ==> s == k || s in rest;
      assert IsMinSeq(rs, if m <= k then m else k);
    }
  }

  /** The least recorded sequence number. */
  ghost function MinSeq(rs: Recorded): (m: int)
    requires |rs| != 0
    ensures IsMinSeq(rs, m)
  {
    HasMinSeq(rs);
    var m :| IsMinSeq(rs, m);
    m
  }

  /** The sent packet whose latest transmission is the oldest. */
  ghost predicate OldestSent(rs: Recorded, seqNo: int)
    requires ValidRecords(rs)
  {
    && seqNo in rs && rs[seqNo].state.SENT?
    && forall s :: s in rs && rs[s].state.SENT? ==> rs[seqNo].LastSent() <= rs[s].LastSent()
  }

  const NS_PER_SEC: int := 1_000_000_000
  const TWO_64: int := 0x1_0000_0000_0000_0000

  /** C++ integer division, which rounds toward zero. */
  function TruncDiv(a: int, b: int): int
    requires b > 0
  {
    if a >= 0 then a / b else -((-a) / b)
  }

  /** Microseconds from `sent` to `cur`, computed from the second and nanosecond fields
      separately and then converted to an unsigned 64-bit number. */
  function AgeUs(cur: nat, sent: nat): nat {
    (TruncDiv(cur % NS_PER_SEC - sent % NS_PER_SEC, 1000)
     + (cur / NS_PER_SEC - sent / NS_PER_SEC) * 1_000_000) % TWO_64
  }

  /** The second-and-nanosecond age never ranks a newer packet above an older one, although
      its rounding direction depends on the two nanosecond fields. */
  lemma AgeIsMonotone(cur: nat, older: nat, newer: nat)
    requires older <= newer <= cur < 1000 * TWO_64
    ensures AgeUs(cur, newer) <= AgeUs(cur, older)
  {
    var cs, cn := cur / NS_PER_SEC, cur % NS_PER_SEC;
    var os, on := older / NS_PER_SEC, older % NS_PER_SEC;
    var ns, nn := newer / NS_PER_SEC, newer % NS_PER_SEC;
    AgeUnwrapped(cur, older);
    AgeUnwrapped(cur, newer);
  }

  lemma AgeUnwrapped(cur: nat, sent: nat)
    requires sent <= cur < 1000 * TWO_64
    ensures AgeUs(cur, sent) ==
            TruncDiv(cur % NS_PER_SEC - sent % NS_PER_SEC, 1000) + (cur / NS_PER_SEC - sent / NS_PER_SEC) * 1_000_000
  {
    var dn, ds := cur % NS_PER_SEC - sent % NS_PER_SEC, cur / NS_PER_SEC - sent / NS_PER_SEC;
    assert ds * NS_PER_SEC + dn == cur - sent;
    assert 0 <= TruncDiv(dn, 1000) + ds * 1_000_000 < TWO_64;
  }

  /** The age is the elapsed time in microseconds, less than one off. */
  lemma AgeIsElapsed(cur: nat, sent: nat)
    requires sent <= cur < 1000 * TWO_64
    ensures cur - sent - 1000 < 1000 * AgeUs(cur, sent) < cur - sent + 1000
  {
    AgeUnwrapped(cur, sent);
    var dn, ds := cur % NS_PER_SEC - sent % NS_PER_SEC, cur / NS_PER_SEC - sent / NS_PER_SEC;
    assert ds * NS_PER_SEC + dn == cur - sent;
  }

  predicate Expired(r: PacketRecord, cur: nat, thresholdUs: nat)
  {
    r.state.SENT? && r.messages != [] && AgeUs(cur, r.LastSent()) > thresholdUs
  }

  /** What a full scan over the records would mark lost. */
  function SweptRecords(rs: Recorded, cur: nat, thresholdUs: nat): Recorded {
    map s | s in rs :: if Expired(rs[s], cur, thresholdUs) then rs[s].(state := LOST) else rs[s]
  }
}
