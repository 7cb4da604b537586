/** Priority queues whose top is the least element, as multisets of integers. */
module MinQueues {

  predicate IsTop(q: multiset<int>, x: int) {
    x in q && forall y :: y in q ==> x <= y
  }

  lemma TopIsIn(q: multiset<int>, x: int)
    requires IsTop(q, x)
    ensures q != multiset{}
  {
  }

  lemma HasElement(q: multiset<int>)
    ensures q == multiset{} || exists y :: y in q
  {
    if forall y :: y !in q {
      assert q == multiset{};
    }
  }

  lemma HasTop(q: multiset<int>)
    requires q != multiset{}
    ensures exists x :: IsTop(q, x)
    decreases |q|
  {
    HasElement(q);
    var y :| y in q;
    var rest := q[y := 0];
    if rest == multiset{} {
      assert forall z :: z in q ==> z == y || z in rest;
      assert IsTop(q, y);
    } else {
      HasTop(rest);
      var x :| IsTop(rest, x);
      assert forall z :: z in q ==> z == y || z in rest;
      assert IsTop(q, if x <= y then x else y);
    }
  }

  method Top(q: multiset<int>) returns (x: int)
    requires q != multiset{}
    ensures IsTop(q, x)
  {
    HasTop(q);
    x :| x in q && forall y :: y in q ==> x <= y;
  }
}

/** The sender's record of every packet that is not finally acknowledged
    (`PacketTracker` in packet_tracker.h).  Three queues and one map, cleaned lazily, are kept
    beside the records; `Consistent` says that they only ever add stale entries to what the
    records alone determine, so each method is specified as a transition on `records`. */
module PacketTracking {
  import opened MinQueues
  import opened Records
  import opened Wrappers

  /** `Exit` stands for a path that prints an error and calls `exit(-1)`. */
  datatype Outcome = Continue | Exit

  /** The fields of a tracker beside its records. */
  datatype Index = Index(
    retransmittableQueue: multiset<int>,
    sendQueue: multiset<int>,
    sentQueue: multiset<int>,
    sentTimes: map<int, int>,
    numPackets: int,
    curMinSeq: Option<int>)

  /** Every sequence number ever enqueued, and the transmission that took each time stamp. */
  datatype History = History(used: set<int>, stamped: map<int, (int, int)>)

  ghost predicate Consistent(rs: Recorded, ix: Index, h: History) {
    && ValidRecords(rs)
    && QueuesAgree(rs, ix.sendQueue, ix.retransmittableQueue, h.used)
    && TimesAgree(rs, ix.sentTimes, ix.sentQueue, h.stamped)
    && Counted(rs, ix.numPackets, ix.curMinSeq)
  }

  /** The packet count, and the lowest recorded number unless there is none. */
  ghost predicate Counted(rs: Recorded, count: int, m: Option<int>) {
    && count == |rs|
    && if count == 0 then m.None? else m.Some? && IsMinSeq(rs, m.value)
  }

  lemma CountedAfterUpdate(rs: Recorded, count: int, m: Option<int>, s: int, r: PacketRecord)
    requires Counted(rs, count, m) && s in rs
    ensures Counted(rs[s := r], count, m)
  {
    assert rs[s := r].Keys == rs.Keys;
  }

  /** Each queued packet is once in the send queue, each lost packet once in the
      retransmission queue; other live packets are in neither (a lost packet that has just
      been acknowledged may linger in the second). */
  ghost predicate QueuesAgree(rs: Recorded, sendQ: multiset<int>, retransQ: multiset<int>, used: set<int>) {
    && rs.Keys <= used
    && (forall s :: s in sendQ ==> s in used)
    && (forall s :: s in retransQ ==> s in used)
    && (forall s :: s in rs ==> Placed(rs[s].state, sendQ[s], retransQ[s]))
  }

  /** How often a live packet in this state occurs in the two queues. */
  ghost predicate Placed(st: PacketState, inSend: nat, inRetrans: nat) {
    match st
    case QUEUED => inSend == 1 && inRetrans == 0
    case SENT => inSend == 0 && inRetrans == 0
    case LOST => inSend == 0 && inRetrans == 1
    case ACKED => inSend == 0 && inRetrans <= 1
  }

  /** `sentTimes` holds exactly the latest transmission times of the sent packets, and each
      of those times is still in the time queue. */
  ghost predicate TimesAgree(rs: Recorded, sentTimes: map<int, int>, sentQ: multiset<int>, stamped: map<int, (int, int)>) {
    && (forall s :: s in rs ==> StampsOf(s, rs[s], stamped))
    && (forall t :: t in sentTimes ==> t in sentQ && sentTimes[t] in rs && SentAt(rs[sentTimes[t]], t))
    && (forall s :: s in rs && rs[s].state.SENT? && rs[s].messages != [] ==>
          rs[s].LastSent() in sentTimes && sentTimes[rs[s].LastSent()] == s)
    && (forall t :: t in sentQ ==> t in stamped)
  }

  ghost predicate SentAt(r: PacketRecord, t: int) {
    r.state.SENT? && r.messages != [] && r.LastSent() == t
  }

  ghost predicate StampsOf(s: int, r: PacketRecord, stamped: map<int, (int, int)>) {
    forall i :: 0 <= i < |r.messages| ==>
      r.messages[i].sentTime in stamped && stamped[r.messages[i].sentTime] == (s, i)
  }

  function NewRecord(s: int, payload: Payload): PacketRecord {
    PacketRecord(QUEUED, s, payload, [])
  }

  lemma AfterEnqueue(rs: Recorded, ix: Index, h: History, s: int, payload: Payload)
    requires Consistent(rs, ix, h) && s !in h.used
    ensures Consistent(rs[s := NewRecord(s, payload)],
                       ix.(sendQueue := ix.sendQueue + multiset{s}, numPackets := ix.numPackets + 1,
                           curMinSeq := Some(if ix.curMinSeq.None? || ix.curMinSeq.value > s then s else ix.curMinSeq.value)),
                       h.(used := h.used + {s}))
  {
    var rs' := rs[s := NewRecord(s, payload)];
    forall u | u in rs' ensures StampsOf(u, rs'[u], h.stamped) {
      assert u != s ==> StampsOf(u, rs[u], h.stamped);
    }
  }

  /** Taking s off the queue its state points to, and noting its send time. */
  function Popped(ix: Index, s: int, queued: bool): Index {
    if queued then ix.(sendQueue := ix.sendQueue - multiset{s})
    else ix.(retransmittableQueue := ix.retransmittableQueue - multiset{s})
  }

  function Timed(ix: Index, s: int, now: int): Index {
    ix.(sentQueue := ix.sentQueue + multiset{now}, sentTimes := ix.sentTimes[now := s])
  }

  lemma AfterSend(rs: Recorded, ix: Index, h: History, s: int, m: MessageRecord)
    requires Consistent(rs, ix, h)
    requires s in rs && (rs[s].state.QUEUED? || rs[s].state.LOST?)
    requires m.sentTime !in h.stamped && m.msgNo == rs[s].LastMsgNo() + 1
    ensures Consistent(rs[s := rs[s].Sent(m)], Timed(Popped(ix, s, rs[s].state.QUEUED?), s, m.sentTime),
                       h.(stamped := h.stamped[m.sentTime := (s, m.msgNo - 1)]))
  {
    hide TimesAgree, QueuesAgree, Counted, ValidRecords;
    ValidAfterSend(rs, s, m);
    QueuesAfterSend(rs, ix, h, s, m);
    TimesAfterSend(rs, ix, h, s, m);
    CountedAfterUpdate(rs, ix.numPackets, ix.curMinSeq, s, rs[s].Sent(m));
  }

  lemma ValidAfterSend(rs: Recorded, s: int, m: MessageRecord)
    requires ValidRecords(rs) && s in rs && m.msgNo == rs[s].LastMsgNo() + 1
    ensures m.msgNo == |rs[s].messages| + 1
    ensures ValidRecords(rs[s := rs[s].Sent(m)])
  {
    assert rs[s].Valid();
    assert rs[s].Sent(m).Valid();
  }

  lemma TimesAfterSend(rs: Recorded, ix: Index, h: History, s: int, m: MessageRecord)
    requires TimesAgree(rs, ix.sentTimes, ix.sentQueue, h.stamped)
    requires s in rs && !rs[s].state.SENT? && m.sentTime !in h.stamped
    ensures TimesAgree(rs[s := rs[s].Sent(m)], ix.sentTimes[m.sentTime := s], ix.sentQueue + multiset{m.sentTime},
                       h.stamped[m.sentTime := (s, |rs[s].messages|)])
  {
    var rs', stamped' := rs[s := rs[s].Sent(m)], h.stamped[m.sentTime := (s, |rs[s].messages|)];
    forall u | u in rs' ensures StampsOf(u, rs'[u], stamped') {
      assert StampsOf(u, rs[u], h.stamped);
    }
    forall t | t in ix.sentTimes ensures t != m.sentTime && ix.sentTimes[t] != s {
    }
  }

  lemma QueuesAfterSend(rs: Recorded, ix: Index, h: History, s: int, m: MessageRecord)
    requires Consistent(rs, ix, h)
    requires s in rs && (rs[s].state.QUEUED? || rs[s].state.LOST?)
    ensures var ix' := Timed(Popped(ix, s, rs[s].state.QUEUED?), s, m.sentTime);
            QueuesAgree(rs[s := rs[s].Sent(m)], ix'.sendQueue, ix'.retransmittableQueue, h.used)
  {
    hide TimesAgree;
  }

  /** Erasing the time of transmission i of s when s leaves SENT: if that was not the latest
      transmission, nothing was there to erase. */
  lemma TimesAfterNews(rs: Recorded, ix: Index, h: History, s: int, i: nat, r': PacketRecord)
    requires TimesAgree(rs, ix.sentTimes, ix.sentQueue, h.stamped)
    requires s in rs && i < |rs[s].messages| && r'.messages == rs[s].messages
    requires if i == |rs[s].messages| - 1 then !r'.state.SENT? else r' == rs[s]
    ensures TimesAgree(rs[s := r'], ix.sentTimes - {rs[s].messages[i].sentTime}, ix.sentQueue, h.stamped)
  {
    var r, t := rs[s], rs[s].messages[i].sentTime;
    assert StampsOf(s, r, h.stamped);
    var rs' := rs[s := r'];
    forall u | u in rs' ensures StampsOf(u, rs'[u], h.stamped) {
      assert StampsOf(u, rs[u], h.stamped);
    }
    forall u | u in rs' && rs'[u].state.SENT? && rs'[u].messages != []
      ensures rs'[u].LastSent() != t
    {
      assert StampsOf(u, rs[u], h.stamped);
    }
  }

  lemma AfterNews(rs: Recorded, ix: Index, h: History, s: int, i: nat, newState: PacketState)
    requires Consistent(rs, ix, h) && Settled(rs)
    requires s in rs && i < |rs[s].messages| && rs[s].messages[i].msgNo == i + 1
    requires newState.ACKED? || (newState.LOST? && rs[s].state.SENT? && i == |rs[s].messages| - 1)
    ensures Consistent(rs[s := rs[s].Updated(newState, i + 1)],
                       ix.(sentTimes := ix.sentTimes - {rs[s].messages[i].sentTime},
                           retransmittableQueue := if newState.LOST? then ix.retransmittableQueue + multiset{s}
                                                   else ix.retransmittableQueue), h)
  {
    hide Counted;
    hide TimesAgree;
    var r' := rs[s].Updated(newState, i + 1);
    assert rs[s].LastMsgNo() == |rs[s].messages|;
    TimesAfterNews(rs, ix, h, s, i, r');
    CountedAfterUpdate(rs, ix.numPackets, ix.curMinSeq, s, r');
  }

  lemma MessageNumbers(rs: Recorded, ix: Index, h: History, s: int)
    requires Consistent(rs, ix, h) && s in rs
    ensures forall i :: 0 <= i < |rs[s].messages| ==> rs[s].messages[i].msgNo == i + 1
    ensures rs[s].messages == [] <==> rs[s].state.QUEUED?
  {
    assert rs[s].Valid();
  }

  lemma AfterDelete(rs: Recorded, ix: Index, h: History, s: int, m: Option<int>)
    requires Consistent(rs, ix, h)
    requires s in rs && !rs[s].state.SENT?
    requires if |rs| == 1 then m.None?
             else if ix.curMinSeq != Some(s) then m == ix.curMinSeq
             else m.Some? && IsMinSeq(rs - {s}, m.value)
    ensures Consistent(rs - {s}, ix.(numPackets := ix.numPackets - 1, curMinSeq := m), h)
  {
    assert (rs - {s}).Keys == rs.Keys - {s};
  }

  lemma CountedFacts(rs: Recorded, ix: Index, h: History, s: int)
    requires Consistent(rs, ix, h)
    ensures ix.numPackets == |rs| && (ix.curMinSeq.None? <==> rs == map[])
    ensures ix.curMinSeq.Some? ==> IsMinSeq(rs, ix.curMinSeq.value)
    ensures s in rs ==> |rs - {s}| == |rs| - 1
    ensures s in rs && ix.curMinSeq == Some(s) ==> forall u :: u in rs - {s} ==> s < u
  {
    if s in rs {
      assert (rs - {s}).Keys == rs.Keys - {s};
    }
  }

  /** Dropping a stale top changes nothing; a live top is the lowest packet of its kind. */
  lemma TopOfSendQueue(rs: Recorded, ix: Index, h: History, top: int)
    requires Consistent(rs, ix, h) && Settled(rs) && IsTop(ix.sendQueue, top)
    ensures top in rs ==> LowestIn(rs, QUEUED, top)
    ensures top !in rs ==> Consistent(rs, ix.(sendQueue := ix.sendQueue - multiset{top}), h)
  {
    hide TimesAgree;
  }

  lemma TopOfRetransmittableQueue(rs: Recorded, ix: Index, h: History, top: int)
    requires Consistent(rs, ix, h) && Settled(rs) && IsTop(ix.retransmittableQueue, top)
    ensures top in rs ==> LowestIn(rs, LOST, top)
    ensures top !in rs ==>
              Consistent(rs, ix.(retransmittableQueue := ix.retransmittableQueue - multiset{top}), h)
  {
    hide TimesAgree;
  }

  lemma TopOfSentQueue(rs: Recorded, ix: Index, h: History, top: int)
    requires Consistent(rs, ix, h) && IsTop(ix.sentQueue, top)
    ensures top in ix.sentTimes ==> OldestSent(rs, ix.sentTimes[top])
    ensures top !in ix.sentTimes ==> Consistent(rs, ix.(sentQueue := ix.sentQueue - multiset{top}), h)
  {
    hide QueuesAgree, StampsOf;
  }

  /** An empty queue means that no packet is in the state it serves. */
  lemma EmptyQueues(rs: Recorded, ix: Index, h: History)
    requires Consistent(rs, ix, h)
    ensures ix.sendQueue == multiset{} ==> NoneIn(rs, QUEUED)
    ensures ix.retransmittableQueue == multiset{} ==> NoneIn(rs, LOST)
    ensures ix.sentQueue == multiset{} ==> NoneIn(rs, SENT)
  {
    hide StampsOf;
  }

  lemma RecordsValid(rs: Recorded, ix: Index, h: History)
    requires Consistent(rs, ix, h)
    ensures ValidRecords(rs)
  {
  }

  lemma QueueOfState(rs: Recorded, ix: Index, h: History, s: int)
    requires Consistent(rs, ix, h) && s in rs
    ensures rs[s].state.QUEUED? ==> s in ix.sendQueue
    ensures rs[s].state.LOST? ==> s in ix.retransmittableQueue
  {
    hide TimesAgree;
  }

  class PacketTracker {
    var records: Recorded
    var retransmittableQueue: multiset<int>
    var sendQueue: multiset<int>
    var sentQueue: multiset<int>
    var sentTimes: map<int, int>
    var prevPacketId: nat
    var numPackets: int
    var packetLimit: int
    var curMinSeq: Option<int>
    ghost var history: History

    ghost function IndexNow(): Index
      reads this
    {
      Index(retransmittableQueue, sendQueue, sentQueue, sentTimes, numPackets, curMinSeq)
    }

    ghost predicate Valid()
      reads this
    {
      Consistent(records, IndexNow(), history)
    }

    constructor (limit: int)
      ensures Valid() && records == map[] && history == History({}, map[]) && prevPacketId == 0
      ensures packetLimit == limit
    {
      records, sentTimes := map[], map[];
      retransmittableQueue, sendQueue, sentQueue := multiset{}, multiset{}, multiset{};
      prevPacketId, numPackets, packetLimit := 0, 0, limit;
      curMinSeq := None;
      history := History({}, map[]);
    }

    method CanEnqueuePacket() returns (b: bool)
      requires Valid()
      ensures b <==> |records| < packetLimit
    {
      b := numPackets < packetLimit;
    }

    /** Record a packet.  The queues stay consistent as long as numbers are not reused. */
    method EnqueuePacket(seqNo: int, payload: Payload) returns (r: Outcome)
      requires Valid()
      modifies this
      ensures r.Exit? <==> seqNo in old(records)
      ensures prevPacketId == old(prevPacketId) && packetLimit == old(packetLimit)
      ensures r.Continue? ==>
                && history == old(history).(used := old(history.used) + {seqNo})
                && records == old(records)[seqNo := NewRecord(seqNo, payload)]
                && (seqNo !in old(history).used ==> Valid())
    {
      hide Consistent;
      ghost var ix := IndexNow();
      if curMinSeq.None? || curMinSeq.value > seqNo {
        curMinSeq := Some(seqNo);
      }
      if seqNo in records {
        return Exit;
      }
      if seqNo !in history.used {
        AfterEnqueue(records, ix, history, seqNo, payload);
      }
      records := records[seqNo := NewRecord(seqNo, payload)];
      sendQueue := sendQueue + multiset{seqNo};
      numPackets := numPackets + 1;
      history := history.(used := history.used + {seqNo});
      return Continue;
    }

    /** Record a transmission, of any packet with a queue to be taken from.  The tracker stays
        consistent when it was the next transmission of a queued or lost packet. */
    method OnPacketSent(seqNo: int, msgNo: nat, now: nat) returns (r: Outcome)
      requires Valid()
      requires now !in history.stamped  // send time stamps are distinct
      requires seqNo in records && !records[seqNo].state.QUEUED? ==> retransmittableQueue != multiset{}
      modifies this
      ensures r.Continue? <==>
                && seqNo in old(records)
                && IsTop(if old(records)[seqNo].state.QUEUED? then old(sendQueue) else old(retransmittableQueue), seqNo)
      ensures packetLimit == old(packetLimit)
      ensures r.Continue? ==>
                && (IsNext(old(records)[seqNo], msgNo) ==> Valid()) && prevPacketId == old(prevPacketId) + 1
                && history == old(history).(stamped := old(history.stamped)[now := (seqNo, msgNo - 1)])
                && records == old(records)[seqNo :=
                     old(records)[seqNo].Sent(MessageRecord(msgNo, prevPacketId, now))]
    {
      hide Consistent, IsTop, Popped, Timed, PacketRecord.Sent, PacketRecord.LastMsgNo;
      if seqNo !in records {
        return Exit;
      }
      var record, m := records[seqNo], MessageRecord(msgNo, prevPacketId + 1, now);
      ghost var ix := IndexNow();
      QueueOfState(records, ix, history, seqNo);
      if IsNext(record, msgNo) {
        AfterSend(records, ix, history, seqNo, m);
      }
      var popped := PopExpected(seqNo, record.state.QUEUED?);
      if !popped {
        return Exit;
      }
      StoreTransmission(seqNo, m);
      r := Continue;
    }

    static ghost predicate IsNext(record: PacketRecord, msgNo: int) {
      (record.state.QUEUED? || record.state.LOST?) && msgNo == record.LastMsgNo() + 1
    }

    method StoreTransmission(seqNo: int, m: MessageRecord)
      requires seqNo in records && m.packetId == prevPacketId + 1
      modifies this`prevPacketId, this`records, this`sentQueue, this`sentTimes, this`history
      ensures prevPacketId == m.packetId
      ensures records == old(records)[seqNo := old(records)[seqNo].Sent(m)]
      ensures IndexNow() == Timed(old(IndexNow()), seqNo, m.sentTime)
      ensures history == old(history).(stamped := old(history).stamped[m.sentTime := (seqNo, m.msgNo - 1)])
    {
      prevPacketId := prevPacketId + 1;
      records := records[seqNo := records[seqNo].Sent(m)];
      sentQueue := sentQueue + multiset{m.sentTime};
      sentTimes := sentTimes[m.sentTime := seqNo];
      history := history.(stamped := history.stamped[m.sentTime := (seqNo, m.msgNo - 1)]);
    }

    /** Take `seqNo` off the queue it should be at the top of. */
    method PopExpected(seqNo: int, queued: bool) returns (popped: bool)
      requires if queued then sendQueue != multiset{} else retransmittableQueue != multiset{}
      modifies this`sendQueue, this`retransmittableQueue
      ensures popped <==> IsTop(if queued then old(sendQueue) else old(retransmittableQueue), seqNo)
      ensures popped ==> IndexNow() == Popped(old(IndexNow()), seqNo, queued)
    {
      if queued {
        var sendable := Top(sendQueue);
        if seqNo != sendable {
          return false;
        }
        sendQueue := sendQueue - multiset{sendable};
      } else {
        var retransmittable := Top(retransmittableQueue);
        if seqNo != retransmittable {
          return false;
        }
        retransmittableQueue := retransmittableQueue - multiset{retransmittable};
      }
      popped := true;
    }

    /** The place of one transmission, found by scanning the packet's messages. */
    method FindMessage(record: PacketRecord, msgNo: int) returns (found: bool, i: nat)
      ensures found <==> record.HasMessage(msgNo)
      ensures found ==> i < |record.messages| && record.messages[i].msgNo == msgNo
    {
      i := 0;
      while i < |record.messages| && record.messages[i].msgNo != msgNo
        invariant 0 <= i <= |record.messages|
        invariant forall j :: 0 <= j < i ==> record.messages[j].msgNo != msgNo
      {
        i := i + 1;
      }
      found := i < |record.messages|;
    }

    method OnPacketAck(seqNo: int, msgNo: int) returns (r: Outcome)
      requires Valid() && Settled(records)
      modifies this
      ensures r.Exit? <==> seqNo in old(records) && !old(records)[seqNo].HasMessage(msgNo)
      ensures history == old(history) && prevPacketId == old(prevPacketId) && packetLimit == old(packetLimit)
      ensures r.Continue? ==>
                && Valid()
                && records == if seqNo in old(records)
                              then old(records)[seqNo := old(records)[seqNo].Updated(ACKED, msgNo)]
                              else old(records)
    {
      hide Consistent;
      if seqNo in records {
        var record := records[seqNo];
        var found, i := FindMessage(record, msgNo);
        if !found {
          return Exit;
        }
        MessageNumbers(records, IndexNow(), history, seqNo);
        AfterNews(records, IndexNow(), history, seqNo, i, ACKED);
        sentTimes := sentTimes - {record.messages[i].sentTime};
        records := records[seqNo := record.Updated(ACKED, msgNo)];
      }
      r := Continue;
    }

    /** Record a loss, of any transmission.  The tracker stays consistent when it was the latest one
        of a packet in flight. */
    method OnPacketLoss(seqNo: int, msgNo: int) returns (r: Outcome)
      requires Valid() && Settled(records)
      modifies this
      ensures r.Exit? <==> seqNo in old(records) && !old(records)[seqNo].HasMessage(msgNo)
      ensures history == old(history) && prevPacketId == old(prevPacketId) && packetLimit == old(packetLimit)
      ensures sentQueue == old(sentQueue)
      ensures r.Continue? ==>
                records == if seqNo in old(records)
                           then old(records)[seqNo := old(records)[seqNo].Updated(LOST, msgNo)] else old(records)
      ensures r.Continue? && (seqNo in old(records) ==> IsLatest(old(records)[seqNo], msgNo)) ==> Valid()
    {
      hide Consistent;
      if seqNo in records {
        var record := records[seqNo];
        MessageNumbers(records, IndexNow(), history, seqNo);
        var found, i := FindMessage(record, msgNo);
        if !found {
          return Exit;
        }
        if IsLatest(record, msgNo) {
          AfterNews(records, IndexNow(), history, seqNo, i, LOST);
        }
        sentTimes := sentTimes - {record.messages[i].sentTime};
        records := records[seqNo := record.Updated(LOST, msgNo)];
        retransmittableQueue := retransmittableQueue + multiset{seqNo};
      }
      r := Continue;
    }

    static ghost predicate IsLatest(record: PacketRecord, msgNo: int) {
      record.state.SENT? && msgNo == record.LastMsgNo()
    }

    /** Forget a packet, and move the minimum up to the next recorded number.  The tracker stays
        consistent unless the packet is in flight. */
    method DeletePacketRecord(seqNo: int) returns (r: Outcome)
      requires Valid()
      modifies this
      ensures r.Exit? <==> seqNo !in old(records)
      ensures history == old(history) && prevPacketId == old(prevPacketId) && packetLimit == old(packetLimit)
      ensures r.Continue? ==> records == old(records) - {seqNo}
      ensures r.Continue? ==> if records == map[] then curMinSeq.None? else curMinSeq.Some? && IsMinSeq(records, curMinSeq.value)
      ensures r.Continue? && !old(records)[seqNo].state.SENT? ==> Valid()
    {
      hide Consistent;
      if seqNo !in records {
        return Exit;
      }
      ghost var ix := IndexNow();
      CountedFacts(records, ix, history, seqNo);
      records := records - {seqNo};
      numPackets := numPackets - 1;
      if curMinSeq == Some(seqNo) {
        if numPackets == 0 {
          curMinSeq := None;
        } else {
          MoveMinimum(seqNo);
        }
      }
      if !old(records)[seqNo].state.SENT? {
        AfterDelete(old(records), ix, history, seqNo, curMinSeq);
      }
      r := Continue;
    }

    /** The incrementing loop of `DeletePacketRecord`. */
    method MoveMinimum(from: int)
      requires |records| != 0
      requires forall s :: s in records ==> from < s
      modifies this`curMinSeq
      ensures curMinSeq.Some? && IsMinSeq(records, curMinSeq.value)
    {
      HasKey(records);
      ghost var top :| top in records;
      var m := from + 1;
      while m !in records
        invariant forall s :: s in records ==> m <= s
        decreases top - m
      {
        m := m + 1;
      }
      curMinSeq := Some(m);
    }

    method HasRetransmittablePackets() returns (b: bool)
      requires Valid() && Settled(records)
      modifies this`retransmittableQueue
      ensures Valid()
      ensures b <==> !NoneIn(records, LOST)
      ensures b ==> exists s :: LowestIn(records, LOST, s) && IsTop(retransmittableQueue, s)
    {
      hide Consistent;
      while retransmittableQueue != multiset{}
        invariant Valid()
        decreases |retransmittableQueue|
      {
        var top := Top(retransmittableQueue);
        TopOfRetransmittableQueue(records, IndexNow(), history, top);
        if top in records {
          return true;
        }
        retransmittableQueue := retransmittableQueue - multiset{top};
      }
      EmptyQueues(records, IndexNow(), history);
      b := false;
    }

    method GetLowestRetransmittableSeqNo() returns (seqNo: int)
      requires Valid() && Settled(records)
      modifies this`retransmittableQueue
      ensures Valid()
      ensures NoneIn(records, LOST) ==> seqNo == 0
      ensures !NoneIn(records, LOST) ==>
                LowestIn(records, LOST, seqNo) && IsTop(retransmittableQueue, seqNo)
    {
      hide Consistent;
      var b := HasRetransmittablePackets();
      if !b {
        return 0;
      }
      seqNo := Top(retransmittableQueue);
    }

    method HasSendablePackets() returns (b: bool)
      requires Valid() && Settled(records)
      modifies this`sendQueue
      ensures Valid()
      ensures b <==> !NoneIn(records, QUEUED)
      ensures b ==> exists s :: LowestIn(records, QUEUED, s) && IsTop(sendQueue, s)
    {
      hide Consistent;
      while sendQueue != multiset{}
        invariant Valid()
        decreases |sendQueue|
      {
        var top := Top(sendQueue);
        TopOfSendQueue(records, IndexNow(), history, top);
        if top in records {
          return true;
        }
        sendQueue := sendQueue - multiset{top};
      }
      EmptyQueues(records, IndexNow(), history);
      b := false;
    }

    method GetLowestSendableSeqNo() returns (seqNo: int)
      requires Valid() && Settled(records)
      modifies this`sendQueue
      ensures Valid()
      ensures NoneIn(records, QUEUED) ==> seqNo == 0
      ensures !NoneIn(records, QUEUED) ==> LowestIn(records, QUEUED, seqNo) && IsTop(sendQueue, seqNo)
    {
      hide Consistent;
      var b := HasSendablePackets();
      if !b {
        return 0;
      }
      seqNo := Top(sendQueue);
    }

    method HasSentPackets() returns (b: bool)
      ensures b <==> sentQueue != multiset{}
    {
      b := sentQueue != multiset{};
    }

    lemma NothingInFlight()
      requires Valid() && sentQueue == multiset{}
      ensures NoneIn(records, SENT)
    {
      EmptyQueues(records, IndexNow(), history);
    }

    /** Drop stale times until the oldest one belongs to a packet still in flight. */
    method GetOldestSentSeqNo() returns (seqNo: int)
      requires Valid() && sentQueue != multiset{}
      modifies this`sentQueue
      ensures Valid()
      ensures sentQueue <= old(sentQueue)
      ensures NoneIn(records, SENT) ==> seqNo == 0 && sentQueue == multiset{}
      ensures !NoneIn(records, SENT) ==>
                sentQueue != multiset{} && ValidRecords(records) && OldestSent(records, seqNo)
    {
      hide Consistent;
      RecordsValid(records, IndexNow(), history);
      while sentQueue != multiset{}
        invariant Valid()
        invariant sentQueue <= old(sentQueue)
        decreases |sentQueue|
      {
        var top := Top(sentQueue);
        TopOfSentQueue(records, IndexNow(), history, top);
        if top in sentTimes {
          return sentTimes[top];
        }
        sentQueue := sentQueue - multiset{top};
      }
      EmptyQueues(records, IndexNow(), history);
      seqNo := 0;
    }

    /** `None` where the original dereferences a null pointer. */
    method GetMinSeqNo() returns (m: Option<int>)
      requires Valid()
      ensures m.None? <==> records == map[]
      ensures m.Some? ==> IsMinSeq(records, m.value)
    {
      CountedFacts(records, IndexNow(), history, 0);
      m := curMinSeq;
    }

    method GetPacketLastMsgNo(seqNo: int) returns (m: int)
      ensures m == if seqNo in records then records[seqNo].LastMsgNo() else 0
    {
      m := if seqNo in records then records[seqNo].LastMsgNo() else 0;
    }

    /** The time of any one transmission, 0 for an unknown packet. */
    method GetPacketSentTime(seqNo: int, msgNo: int) returns (r: Outcome, t: nat)
      requires Valid()
      ensures r.Exit? <==> seqNo in records && !records[seqNo].HasMessage(msgNo)
      ensures seqNo !in records ==> t == 0
      ensures r.Continue? && seqNo in records ==>
                1 <= msgNo <= |records[seqNo].messages| && t == records[seqNo].messages[msgNo - 1].sentTime
      ensures seqNo in records && records[seqNo].messages != [] && msgNo == records[seqNo].LastMsgNo() ==>
                r.Continue? && t == records[seqNo].LastSent()
    {
      hide Consistent;
      if seqNo !in records {
        return Continue, 0;
      }
      MessageNumbers(records, IndexNow(), history, seqNo);
      var found, i := FindMessage(records[seqNo], msgNo);
      if !found {
        return Exit, 0;
      }
      return Continue, records[seqNo].messages[i].sentTime;
    }

    method GetPacketSize(seqNo: int) returns (n: nat)
      ensures n == if seqNo in records then |records[seqNo].payload| else 0
    {
      n := if seqNo in records then |records[seqNo].payload| else 0;
    }

    /** The identifier of any one transmission, 0 for an unknown packet. */
    method GetPacketId(seqNo: int, msgNo: int) returns (r: Outcome, id: nat)
      requires Valid()
      ensures r.Exit? <==> seqNo in records && !records[seqNo].HasMessage(msgNo)
      ensures seqNo !in records ==> id == 0
      ensures r.Continue? && seqNo in records ==>
                1 <= msgNo <= |records[seqNo].messages| && id == records[seqNo].messages[msgNo - 1].packetId
      ensures seqNo in records && records[seqNo].messages != [] && msgNo == records[seqNo].LastMsgNo() ==>
                r.Continue? && id == records[seqNo].LastId()
    {
      hide Consistent;
      if seqNo !in records {
        return Continue, 0;
      }
      MessageNumbers(records, IndexNow(), history, seqNo);
      var found, i := FindMessage(records[seqNo], msgNo);
      if !found {
        return Exit, 0;
      }
      return Continue, records[seqNo].messages[i].packetId;
    }
  }
}
