/** A run of the rate controller, from a new sender with the initial window that core.cpp gives it, to the
    comparison of equal rates in `ComputeRateChange`.  Six intervals probe around a centre of
    200000000 / 21 bits per second; the decision falls while the last of them, a slowed-down one, is
    still the tail, so the new rate is counted from the slower rate and ends where a faster interval was.
    A second run changes the utility tag after the sixth interval, and ends at the comparison of the size
    of the round.  All rates are exact reals. */
module RateClashes {
  import opened MonitorIntervals
  import opened MonitorQueues
  import opened RateVotes
  import opened RateControl
  import opened PccSenders

  const CENTRE: real := 200000000.0 / 21.0
  const RTT: real := 5880.0

  // ---------- bursts of packets ----------

  /** An interval of `count` packets of 1000 bytes, sent at consecutive times, of which some are
      acknowledged with reliable round-trip times. */
  function Burst(rate: real, isUseful: bool, number: int, time: int, count: nat, acked: nat): MonitorInterval {
    MonitorInterval(rate, isUseful, time, time + count - 1, number, number + count - 1, 1000 * count, 1000 * acked, 0, acked, acked,
                    acked >= MIN_RELIABLE_RTT, false)
  }

  predicate InAir(flight: map<int, nat>, n: int) {
    n in flight && flight[n] == 1000
  }

  /** The packets of these numbers are in the air. */
  ghost predicate AllInAir(flight: map<int, nat>, ps: seq<Packet>) {
    && (forall i :: 0 <= i < |ps| ==> InAir(flight, ps[i].number) && ps[i].bytes == 1000)
    && (forall i, j :: 0 <= i < j < |ps| ==> ps[i].number != ps[j].number)
  }

  /** How many of the packets have numbers in the range. */
  function Hits(ps: seq<Packet>, lo: int, hi: int): nat {
    if ps == [] then 0 else Hits(ps[..|ps| - 1], lo, hi) + if lo <= ps[|ps| - 1].number <= hi then 1 else 0
  }

  lemma {:induction false} HitsAll(ps: seq<Packet>, lo: int, hi: int)
    ensures (forall i :: 0 <= i < |ps| ==> lo <= ps[i].number <= hi) ==> Hits(ps, lo, hi) == |ps|
    ensures (forall i :: 0 <= i < |ps| ==> !(lo <= ps[i].number <= hi)) ==> Hits(ps, lo, hi) == 0
  {
    if ps != [] {
      HitsAll(ps[..|ps| - 1], lo, hi);
    }
  }

  lemma {:induction false} HitsOne(ps: seq<Packet>, lo: int, hi: int, k: nat)
    requires k < |ps| && forall i :: 0 <= i < |ps| ==> (lo <= ps[i].number <= hi <==> i == k)
    ensures Hits(ps, lo, hi) == 1
  {
    if k < |ps| - 1 {
      HitsOne(ps[..|ps| - 1], lo, hi, k);
    } else {
      HitsAll(ps[..|ps| - 1], lo, hi);
    }
  }

  lemma {:induction false} AckBurst(rate: real, number: int, time: int, count: nat, acked: nat, ps: seq<Packet>)
    requires forall i :: 0 <= i < |ps| ==> ps[i].bytes == 1000
    ensures AckAll(Burst(rate, true, number, time, count, acked), ps, Trusted(|ps|, true)) ==
            Burst(rate, true, number, time, count, acked + Hits(ps, number, number + count - 1))
  {
    if ps != [] {
      var front := ps[..|ps| - 1];
      AckBurst(rate, number, time, count, acked, front);
      assert Trusted(|ps|, true)[..|ps| - 1] == Trusted(|front|, true);
    }
  }

  /** What an event that reports no loss does to a burst that is not complete. */
  lemma AdvanceBurst(rate: real, number: int, time: int, count: nat, acked: nat, ps: seq<Packet>)
    requires acked < count && forall i :: 0 <= i < |ps| ==> ps[i].bytes == 1000
    ensures Advanced(Burst(rate, true, number, time, count, acked), [], ps, Trusted(|ps|, true)) ==
            Burst(rate, true, number, time, count, acked + Hits(ps, number, number + count - 1))
  {
    AckBurst(rate, number, time, count, acked, ps);
  }

  /** A queue whose tail is useful waits for it; useful intervals have two sending times each. */
  lemma JudgeUseful(q: seq<MonitorInterval>, ps: seq<Packet>)
    requires TailUseful(q) && forall i :: 0 <= i < |q| && q[i].isUseful ==> q[i].firstTime != q[i].lastTime
    ensures !Advanced(q[|q| - 1], [], ps, Trusted(|ps|, true)).Available() ==> Judged(q, [], ps, Trusted(|ps|, true)) == Waiting
    ensures (forall i :: 0 <= i < |q| && q[i].isUseful ==> Advanced(q[i], [], ps, Trusted(|ps|, true)).Available()) ==>
              Judged(q, [], ps, Trusted(|ps|, true)) == Ready
    ensures UsefulCount(q) > 0
  {
    hide Advanced;
    forall i | 0 <= i < |q| ensures SameSending(q[i], Advanced(q[i], [], ps, Trusted(|ps|, true))) {
      AdvancedSame(q[i], [], ps, Trusted(|ps|, true));
    }
    var r := AdvancedAll(q, [], ps, Trusted(|ps|, true));
    assert r[|q| - 1] == Advanced(q[|q| - 1], [], ps, Trusted(|ps|, true));
  }

  lemma {:induction false} AllUseful(q: seq<MonitorInterval>)
    requires forall i :: 0 <= i < |q| ==> q[i].isUseful
    ensures UsefulCount(q) == |q|
  {
    if q != [] {
      AllUseful(q[..|q| - 1]);
    }
  }

  lemma LandAcks(flight: map<int, nat>, ps: seq<Packet>)
    requires AllInAir(flight, ps)
    ensures Reported([], flight) && Landed(flight, []) == flight && Reported(ps, Landed(flight, []))
    ensures forall n :: InAir(flight, n) && (forall i :: 0 <= i < |ps| ==> ps[i].number != n) ==> InAir(Landed(Landed(flight, []), ps), n)
  {
    forall n | InAir(flight, n) && (forall i :: 0 <= i < |ps| ==> ps[i].number != n) ensures InAir(Landed(flight, ps), n) {
      LandedKeys(flight, ps, n);
    }
  }

  // ---------- sending and reporting ----------

  /** The first packet opens an interval, and the others follow in it. */
  method SendBurst(s: PccVivaceSender, number: int, time: int, count: nat)
    requires s.Valid() && s.queue.now <= time && s.queue.nextNo <= number && count > 0 && s.NewIsDue(time)
    requires s.latestRtt == 0.0 || s.UsefulIsNext()
    modifies s`sendingRate, s`direction, s`monitorDuration, s.queue
    ensures s.Valid() && s.queue.pending == old(s.queue.pending)
    ensures s.queue.intervals == old(s.queue.intervals) + [Burst(s.sendingRate, old(s.UsefulIsNext()), number, time, count, 0)]
    ensures forall n :: number <= n < number + count ==> InAir(s.queue.flight, n)
    ensures forall n :: n < number && InAir(old(s.queue.flight), n) ==> InAir(s.queue.flight, n)
    ensures s.queue.nextNo == number + count && s.queue.now == time + count - 1
    ensures NextRate(old(s.Now()), s.Now(), s.centre, old(s.queue.numUseful), Limit(s.mode, s.scavenger), true) && s.monitorDuration == s.minRtt
    ensures s.mode == old(s.mode)
  {
    hide PccVivaceSender.Valid, NextRate;
    ghost var q, useful, was := s.queue.intervals, s.UsefulIsNext(), s.Now();
    s.OnPacketSent(time, number, 1000, true);
    NextRateFacts(was, s.Now(), s.centre, old(s.queue.numUseful), Limit(s.mode, s.scavenger), true);
    for i := 1 to count
      invariant s.Valid() && s.queue.pending == old(s.queue.pending)
      invariant s.queue.intervals == q + [Burst(s.sendingRate, useful, number, time, i, 0)]
      invariant forall n :: number <= n < number + i ==> InAir(s.queue.flight, n)
      invariant forall n :: n < number && InAir(old(s.queue.flight), n) ==> InAir(s.queue.flight, n)
      invariant s.queue.nextNo == number + i && s.queue.now == time + i - 1
      invariant NextRate(old(s.Now()), s.Now(), s.centre, old(s.queue.numUseful), Limit(s.mode, s.scavenger), true) && s.monitorDuration == s.minRtt
    {
      NotDue(s, time + i);
      ghost var flight := s.queue.flight;
      s.OnPacketSent(time + i, number + i, 1000, true);
      forall n | InAir(flight, n) && n != number + i ensures InAir(s.queue.flight, n) {
      }
      assert forall n :: number <= n < number + i ==> InAir(flight, n);
    }
  }

  /** While the last interval has too few samples no other one is opened. */
  lemma NotDue(s: PccVivaceSender, time: int)
    requires s.Valid() && s.queue.intervals != [] && !s.queue.intervals[|s.queue.intervals| - 1].hasEnough
    requires s.latestRtt == 0.0 || TailUseful(s.queue.intervals)
    ensures !s.NewIsDue(time) && !s.ExtensionIsDue(time)
  {
    hide Sound, Paced, Bounded;
    QueueFacts(s.queue.intervals, s.queue.numUseful, s.queue.flight, s.queue.pending, s.queue.nextNo, s.queue.now);
  }

  /** An event that acknowledges packets, each of them with a reliable round-trip time. */
  method Acknowledge(s: PccVivaceSender, acks: seq<Packet>, utilities: seq<real>) returns (outcome: Outcome, verdict: Verdict)
    requires s.Valid() && AllInAir(s.queue.flight, acks) && |utilities| >= 6
    modifies s`latestRtt, s`avgRtt, s`minRtt, s`hasSeenValidRtt
    modifies s`mode, s`sendingRate, s`direction, s`rounds, s`allowance, s`latestInfo, s`scavenger, s`centre, s`skewed, s.queue
    ensures s.queue.nextNo == old(s.queue.nextNo) && s.queue.now == old(s.queue.now)
    ensures verdict == Judged(old(s.queue.intervals), [], old(s.queue.pending), Trusted(|old(s.queue.pending)|, true))
    ensures outcome == if verdict == Ready then Verdicted(old(s.Now()), Told(old(s.queue.intervals), utilities), old(s.scavenger)) else Done
    ensures outcome == EqualRates ==> Clashed(s.Now())
    ensures outcome == WrongSize ==> s.Now() == old(s.Now())
    ensures s.queue.pending == if old(s.queue.numUseful) > 0 then acks else old(s.queue.pending)
    ensures outcome == Done ==> s.Valid() && s.hasSeenValidRtt && s.latestRtt == RTT
    ensures outcome == Done ==> s.minRtt == if old(s.minRtt) == 0.0 || RTT < old(s.minRtt) then RTT else old(s.minRtt)
    ensures outcome == Done && verdict == Waiting ==>
              && s.Now() == old(s.Now()).(rate := MeasuredRate(old(s.hasSeenValidRtt), old(s.sendingRate), RTT)) && s.centre == old(s.centre)
              && s.queue.intervals == if old(s.queue.numUseful) > 0
                                      then AdvancedAll(old(s.queue.intervals), [], old(s.queue.pending), Trusted(|old(s.queue.pending)|, true))
                                      else old(s.queue.intervals)
    ensures outcome == Done && verdict == Ready ==>
              && Decision(old(s.Now()), old(Home(s.sendingRate, s.centre, TailUseful(s.queue.intervals))), s.Now(), Told(old(s.queue.intervals), utilities),
                          Groups(old(s.scavenger)), old(s.scavenger), 1.0)
              && (TailUseful(old(s.queue.intervals)) ==> s.queue.intervals == []) && (s.mode == Probing ==> s.sendingRate == s.centre)
    ensures outcome == Done && old(s.mode) == Probing && s.mode == DecisionMade ==> s.latestInfo.rate == Tilt(old(s.centre), s.direction)
    ensures outcome == Done && !s.tag.Hybrid? ==> s.scavenger == old(s.scavenger)
    ensures forall n :: InAir(old(s.queue.flight), n) && (forall i :: 0 <= i < |acks| ==> acks[i].number != n) ==> InAir(s.queue.flight, n)
  {
    hide PccVivaceSender.Valid, Judged, Decision, MeasuredRate, Landed, Reported, Rates, InfoRates, Told, Verdicted, Home, Reenters, AdvancedAll;
    LandAcks(s.queue.flight, acks);
    s.UsefulCounted();
    outcome, verdict := s.OnCongestionEvent(true, RTT, false, acks, [], Trusted(|s.queue.pending|, true), utilities, 1.0);
  }

  // ---------- STARTING ----------

  /** What stays the same during the round.  Packets 3 and 4 are still in the air. */
  ghost predicate InRound(s: PccVivaceSender)
    reads s, s.queue
  {
    && s.Valid() && s.hasSeenValidRtt && s.mode == Probing && s.centre == CENTRE && !s.scavenger && !s.tag.Hybrid?
    && s.latestRtt == RTT && s.minRtt == RTT && InAir(s.queue.flight, 3) && InAir(s.queue.flight, 4)
  }

  /** Where the run stands when k intervals have been sent in PROBING.  The last packet of every
      interval is still in the air. */
  ghost predicate Stage(s: PccVivaceSender, k: nat)
    reads s, s.queue
  {
    && InRound(s) && (k > 0 ==> s.monitorDuration == RTT && s.direction == Side(k - 1))
    && s.queue.intervals == Probes(k) && s.queue.pending == [Packet(if k == 0 then 2 else 7 + 6 * k, 1000)]
    && s.queue.now < Start(k) && s.queue.nextNo <= First(k)
    && forall i :: 0 <= i < k ==> InAir(s.queue.flight, First(i) + 5)
  }

  function First(i: int): int {
    9 + 6 * i
  }

  function Start(i: int): int {
    200000 + 100000 * i
  }

  function Side(i: int): Direction {
    if i % 2 == 0 then Increase else Decrease
  }

  /** Interval i, with this many of its six packets counted as acknowledged. */
  function Probe(i: int, acked: nat): MonitorInterval {
    Burst(Tilt(CENTRE, Side(i)), true, First(i), Start(i), 6, acked)
  }

  /** Of the last interval four packets are counted, of the others five. */
  function Probes(k: nat): (q: seq<MonitorInterval>)
    ensures |q| == k && forall i :: 0 <= i < k ==> q[i] == Probe(i, if i == k - 1 then 4 else 5)
  {
    seq(k, i => Probe(i, if i == k - 1 then 4 else 5))
  }

  lemma FirstRate()
    ensures MeasuredRate(false, 1120000.0, RTT) == 2.0 * CENTRE
  {
    assert INITIAL_RTT / RTT == 100000.0 / 5880.0;
  }

  lemma NewSender(s: PccVivaceSender)
    requires s.Valid() && s.queue.intervals == [] && !s.hasSeenValidRtt
    ensures s.NewIsDue(1) && s.latestRtt == 0.0 && !s.UsefulIsNext() && s.queue.numUseful == 0
  {
  }

  /** No useful interval yet: events are skipped, and with a round-trip time a useful one is due. */
  lemma NoneUseful(s: PccVivaceSender, time: int)
    requires s.Valid() && |s.queue.intervals| == 1 && !s.queue.intervals[0].isUseful
    ensures s.queue.numUseful == 0
    ensures Judged(s.queue.intervals, [], s.queue.pending, Trusted(|s.queue.pending|, true)) == Waiting
    ensures s.hasSeenValidRtt && s.latestRtt != 0.0 ==> s.NewIsDue(time) && s.UsefulIsNext()
  {
    hide Sound, Paced, Bounded;
    var q := s.queue.intervals;
    QueueFacts(q, s.queue.numUseful, s.queue.flight, s.queue.pending, s.queue.nextNo, s.queue.now);
    assert q[..0] == [];
    NothingToJudge(q, [], s.queue.pending, Trusted(|s.queue.pending|, true));
  }

  /** The first useful interval: nothing is counted yet, or all four packets are. */
  lemma FirstUseful(w: MonitorInterval, rate: real, ps: seq<Packet>)
    requires !w.isUseful && (ps == [] || ps == Packets(5, 4))
    ensures var q := [w, Burst(rate, true, 5, 100000, 4, 0)];
            && UsefulCount(q) > 0 && TailUseful(q)
            && Judged(q, [], ps, Trusted(|ps|, true)) == (if ps == [] then Waiting else Ready)
            && (ps == [] ==> AdvancedAll(q, [], ps, Trusted(|ps|, true)) == q)
  {
    hide Judged;
    var q := [w, Burst(rate, true, 5, 100000, 4, 0)];
    AdvanceBurst(rate, 5, 100000, 4, 0, ps);
    HitsAll(ps, 5, 8);
    JudgeUseful(q, ps);
  }

  /** The first round-trip time takes the rate to twice the centre, and a first useful interval without
      utility halves it. */
  method Begin() returns (s: PccVivaceSender)
    ensures fresh(s) && fresh(s.queue) && Stage(s, 0)
  {
    hide PccVivaceSender.Valid, Judged, MeasuredRate, Rates, InfoRates, UsefulCount, Told, Home, Verdicted, Decision;
    s := new PccVivaceSender(10);
    NewSender(s);
    SendBurst(s, 1, 1, 4);
    NoneUseful(s, 100000);
    FirstRate();
    var outcome, verdict;
    outcome, verdict := Acknowledge(s, [Packet(1, 1000)], ZEROS);
    NoneUseful(s, 100000);
    ghost var w := s.queue.intervals[0];
    SendBurst(s, 5, 100000, 4);
    Halve(s, w);
  }

  const ZEROS := [0.0, 0.0, 0.0, 0.0, 0.0, 0.0]

  lemma SameRate(rate: real)
    ensures MeasuredRate(true, rate, RTT) == rate
  {
  }

  /** The rest of STARTING. */
  method Halve(s: PccVivaceSender, ghost w: MonitorInterval)
    requires s.Valid() && s.hasSeenValidRtt && s.mode == Starting && s.sendingRate == 2.0 * CENTRE && s.latestInfo.utility == 0.0
    requires !s.scavenger && !s.tag.Hybrid? && s.minRtt == RTT && s.queue.pending == []
    requires !w.isUseful && s.queue.intervals == [w, Burst(s.sendingRate, true, 5, 100000, 4, 0)]
    requires s.queue.now < Start(0) && s.queue.nextNo <= First(0)
    requires forall n :: 2 <= n <= 8 ==> InAir(s.queue.flight, n)
    modifies s, s.queue
    ensures Stage(s, 0)
  {
    hide PccVivaceSender.Valid, Judged, MeasuredRate, Rates, InfoRates, UsefulCount, Burst;
    var outcome, verdict;
    FirstUseful(w, s.sendingRate, []);
    s.UsefulCounted();
    SameRate(s.sendingRate);
    outcome, verdict := Acknowledge(s, Packets(5, 4), ZEROS);
    FirstUseful(w, s.sendingRate, Packets(5, 4));
    s.UsefulCounted();
    outcome, verdict := Acknowledge(s, [Packet(2, 1000)], ZEROS);
    assert Probes(0) == [];
  }

  function Packets(number: int, count: nat): (ps: seq<Packet>)
    ensures |ps| == count && forall i :: 0 <= i < count ==> ps[i] == Packet(number + i, 1000)
  {
    seq(count, i => Packet(number + i, 1000))
  }

  // ---------- PROBING ----------

  function Fives(k: nat): (q: seq<MonitorInterval>)
    ensures |q| == k && forall i :: 0 <= i < k ==> q[i] == Probe(i, 5)
  {
    seq(k, i => Probe(i, 5))
  }

  /** The event after the burst counts the fifth packet of the interval before. */
  lemma CountsFifth(k: nat, p: int)
    requires if k == 0 then p == 2 else p == 7 + 6 * k
    ensures var q, ps := Probes(k) + [Probe(k, 0)], [Packet(p, 1000)];
            && AdvancedAll(q, [], ps, Trusted(1, true)) == Fives(k) + [Probe(k, 0)]
            && Judged(q, [], ps, Trusted(1, true)) == Waiting && UsefulCount(q) > 0
  {
    hide Judged, Advanced, Burst, Hits;
    var q, ps := Probes(k) + [Probe(k, 0)], [Packet(p, 1000)];
    forall i | 0 <= i <= k ensures q[i].isUseful && q[i].firstTime != q[i].lastTime
        && Advanced(q[i], [], ps, Trusted(1, true)) == Probe(i, if i == k then 0 else 5) {
      ProbeUseful(i, if i == k then 0 else if i == k - 1 then 4 else 5);
      AdvanceBurst(Tilt(CENTRE, Side(i)), First(i), Start(i), 6, if i == k then 0 else if i == k - 1 then 4 else 5, ps);
      HitsAll(ps, First(i), First(i) + 5);
    }
    JudgeUseful(q, ps);
    NotComplete(k, 0);
    assert AdvancedAll(q, [], ps, Trusted(1, true)) == Fives(k) + [Probe(k, 0)];
  }

  /** The next event counts the first four packets of the burst. */
  lemma CountsFour(k: nat)
    ensures var q, ps := Fives(k) + [Probe(k, 0)], Packets(First(k), 4);
            && AdvancedAll(q, [], ps, Trusted(4, true)) == Probes(k + 1)
            && Judged(q, [], ps, Trusted(4, true)) == Waiting && UsefulCount(q) > 0
  {
    hide Judged, Advanced, Burst, Hits;
    var q, ps := Fives(k) + [Probe(k, 0)], Packets(First(k), 4);
    forall i | 0 <= i <= k ensures q[i].isUseful && q[i].firstTime != q[i].lastTime
        && Advanced(q[i], [], ps, Trusted(4, true)) == Probe(i, if i == k then 4 else 5) {
      ProbeUseful(i, if i == k then 0 else 5);
      AdvanceBurst(Tilt(CENTRE, Side(i)), First(i), Start(i), 6, if i == k then 0 else 5, ps);
      HitsAll(ps, First(i), First(i) + 5);
    }
    JudgeUseful(q, ps);
    NotComplete(k, 4);
    assert AdvancedAll(q, [], ps, Trusted(4, true)) == Probes(k + 1);
  }

  lemma ProbeUseful(i: int, acked: nat)
    ensures Probe(i, acked).isUseful && Probe(i, acked).firstTime != Probe(i, acked).lastTime
  {
  }

  lemma NotComplete(k: int, acked: nat)
    ensures Probe(k, acked).Available() <==> acked == 6
  {
  }

  /** A new interval of the round is due. */
  lemma StageDue(s: PccVivaceSender, k: nat)
    requires Stage(s, k) && k < 6
    ensures s.NewIsDue(Start(k)) && s.UsefulIsNext() && s.queue.numUseful == k && Limit(s.mode, s.scavenger) == 6
  {
    hide Sound, Paced, Bounded;
    var q := s.queue.intervals;
    s.UsefulCounted();
    forall i | 0 <= i < k ensures q[i].isUseful {
      ProbeUseful(i, if i == k - 1 then 4 else 5);
    }
    AllUseful(q);
  }

  lemma SideNext(was: Control, now: Control, k: nat)
    requires NextRate(was, now, CENTRE, k, 6, true) && was.mode == Probing && k < 6 && (k > 0 ==> was.direction == Side(k - 1))
    ensures now.mode == Probing && now.direction == Side(k) && now.rate == Tilt(CENTRE, Side(k))
  {
  }

  /** Interval k has just been sent. */
  ghost predicate Sent(s: PccVivaceSender, k: nat)
    reads s, s.queue
  {
    && InRound(s) && s.monitorDuration == RTT && s.direction == Side(k)
    && s.queue.intervals == Probes(k) + [Probe(k, 0)] && s.queue.pending == [Packet(if k == 0 then 2 else 7 + 6 * k, 1000)]
    && s.queue.now < Start(k + 1) && s.queue.nextNo <= First(k + 1)
    && (forall i :: 0 <= i <= k ==> InAir(s.queue.flight, First(i) + 5))
    && forall n :: First(k) <= n < First(k) + 6 ==> InAir(s.queue.flight, n)
  }

  method SendProbe(s: PccVivaceSender, k: nat)
    requires Stage(s, k) && k < 6
    modifies s`sendingRate, s`direction, s`monitorDuration, s.queue
    ensures Sent(s, k)
  {
    hide PccVivaceSender.Valid, NextRate, Tilt, Burst, PccVivaceSender.NewIsDue, PccVivaceSender.UsefulIsNext, Limit;
    StageDue(s, k);
    ghost var was := s.Now();
    SendBurst(s, First(k), Start(k), 6);
    SideNext(was, s.Now(), k);
  }

  /** One interval of the round: six packets, of which five are acknowledged before the next interval. */
  method ProbeOne(s: PccVivaceSender, k: nat)
    requires Stage(s, k) && k < 6
    modifies s, s.queue
    ensures Stage(s, k + 1)
  {
    hide Stage, Sent;
    SendProbe(s, k);
    AckProbe(s, k);
  }

  /** The first four packets of interval k are reported, and the fifth one of the interval before it counts. */
  ghost predicate FourPending(s: PccVivaceSender, k: nat)
    reads s, s.queue
  {
    && InRound(s) && s.monitorDuration == RTT && s.direction == Side(k)
    && s.queue.intervals == Fives(k) + [Probe(k, 0)] && s.queue.pending == Packets(First(k), 4)
    && s.queue.now < Start(k + 1) && s.queue.nextNo <= First(k + 1)
    && (forall i :: 0 <= i <= k ==> InAir(s.queue.flight, First(i) + 5))
    && InAir(s.queue.flight, First(k) + 4)
  }

  method AckFour(s: PccVivaceSender, k: nat)
    requires Sent(s, k) && k < 6
    modifies s, s.queue
    ensures FourPending(s, k)
  {
    hide PccVivaceSender.Valid, Judged, MeasuredRate, Rates, InfoRates, UsefulCount, Told, Home, Verdicted, Decision, Burst, AdvancedAll,
         Clashed;
    CountsFifth(k, if k == 0 then 2 else 7 + 6 * k);
    s.UsefulCounted();
    SameRate(s.sendingRate);
    var outcome, verdict := Acknowledge(s, Packets(First(k), 4), ZEROS);
  }

  method AckProbe(s: PccVivaceSender, k: nat)
    requires Sent(s, k) && k < 6
    modifies s, s.queue
    ensures Stage(s, k + 1)
  {
    hide PccVivaceSender.Valid, Judged, MeasuredRate, Rates, InfoRates, UsefulCount, Told, Home, Verdicted, Decision, Burst, AdvancedAll,
         Clashed, Sent;
    AckFour(s, k);
    CountsFour(k);
    s.UsefulCounted();
    SameRate(s.sendingRate);
    var outcome, verdict := Acknowledge(s, [Packet(First(k) + 4, 1000)], ZEROS);
  }

  // ---------- the decision ----------

  /** The last packets of the six intervals. */
  function Sixths(): (ps: seq<Packet>)
    ensures |ps| == 6 && forall i :: 0 <= i < 6 ==> ps[i] == Packet(First(i) + 5, 1000)
  {
    seq(6, i => Packet(First(i) + 5, 1000))
  }

  lemma CountsLastFifth()
    ensures AdvancedAll(Probes(6), [], [Packet(43, 1000)], Trusted(1, true)) == Fives(6)
    ensures Judged(Probes(6), [], [Packet(43, 1000)], Trusted(1, true)) == Waiting && UsefulCount(Probes(6)) > 0
  {
    hide Judged, Advanced, Burst, Hits;
    var q, ps := Probes(6), [Packet(43, 1000)];
    forall i | 0 <= i < 6 ensures q[i].isUseful && q[i].firstTime != q[i].lastTime
        && Advanced(q[i], [], ps, Trusted(1, true)) == Probe(i, 5) {
      ProbeUseful(i, if i == 5 then 4 else 5);
      AdvanceBurst(Tilt(CENTRE, Side(i)), First(i), Start(i), 6, if i == 5 then 4 else 5, ps);
      HitsAll(ps, First(i), First(i) + 5);
    }
    JudgeUseful(q, ps);
    NotComplete(5, 5);
    assert AdvancedAll(q, [], ps, Trusted(1, true)) == Fives(6);
  }

  /** The last event completes all six intervals at once. */
  lemma CountsSixths()
    ensures Judged(Fives(6), [], Sixths(), Trusted(6, true)) == Ready && UsefulCount(Fives(6)) > 0 && TailUseful(Fives(6))
    ensures |Rates(Fives(6))| == 6 && forall i :: 0 <= i < 6 ==> Rates(Fives(6))[i] == Tilt(CENTRE, Side(i))
  {
    hide Judged, Advanced, Burst, Hits;
    var q, ps := Fives(6), Sixths();
    forall i | 0 <= i < 6 ensures q[i].isUseful && q[i].firstTime != q[i].lastTime && q[i].rate == Tilt(CENTRE, Side(i))
        && Advanced(q[i], [], ps, Trusted(6, true)).Available() {
      ProbeUseful(i, 5);
      ProbeRate(i, 5);
      AdvanceBurst(Tilt(CENTRE, Side(i)), First(i), Start(i), 6, 5, ps);
      HitsOne(ps, First(i), First(i) + 5, i);
      NotComplete(i, 6);
    }
    JudgeUseful(q, ps);
    RatesUseful(q);
  }

  lemma ProbeRate(i: int, acked: nat)
    ensures Probe(i, acked).rate == Tilt(CENTRE, Side(i))
  {
  }

  lemma {:induction false} RatesUseful(q: seq<MonitorInterval>)
    requires forall i :: 0 <= i < |q| ==> q[i].isUseful
    ensures |Rates(q)| == |q| && forall i :: 0 <= i < |q| ==> Rates(q)[i] == q[i].rate
  {
    if q != [] {
      RatesUseful(q[..|q| - 1]);
    }
  }

  /** The faster interval of every pair has the better utility, so the rate goes up: from the slower rate
      of the last interval, by the smallest change there is, to the rate of the faster ones. */
  lemma GoesUp(was: Control, now: Control, infos: seq<UtilityInfo>)
    requires Probed(was, CENTRE, now, infos, 3, false, 1.0) && was.rate == Tilt(CENTRE, Decrease) && |infos| == 6
    requires forall i :: 0 <= i < 6 ==> infos[i] == UtilityInfo(Tilt(CENTRE, Side(i)), if i % 2 == 0 then 1.0 else 0.0)
    ensures now.mode == DecisionMade && now.rate == Tilt(CENTRE, Increase) && now.direction == Increase
  {
    hide AskedChange, Better;
    assert Increases(infos, 0) == 0 && Increases(infos, 1) == 1 && Increases(infos, 2) == 2 && Increases(infos, 3) == 3 by {
      assert VotesIncrease(infos, 0) && VotesIncrease(infos, 1) && VotesIncrease(infos, 2);
    }
    assert Tilt(Tilt(CENTRE, Decrease), Increase) == 9500000.0;
    assert forall raw :: Capped(raw, 9500000.0, 0) == 500000.0;
    var mid :| Turned(was, mid, infos, 3, 1.0) && now == Restarted(mid);
    assert mid.rate == 10000000.0;
  }

  /** The round of PROBING ends at the rate of its faster intervals. */
  method DecideUp(s: PccVivaceSender)
    requires Stage(s, 6)
    modifies s, s.queue
    ensures s.Valid() && s.hasSeenValidRtt && s.mode == DecisionMade && s.sendingRate == s.latestInfo.rate
    ensures s.latestRtt == RTT && s.queue.intervals == [] && s.queue.pending == [Packet(3, 1000)]
    ensures s.queue.now < Start(6) && s.queue.nextNo <= First(6) && InAir(s.queue.flight, 4) && !s.scavenger
  {
    hide PccVivaceSender.Valid, Judged, MeasuredRate, Rates, InfoRates, UsefulCount, Tilt, AdvancedAll, Probed, Burst;
    SlowTail(s);
    var outcome, verdict;
    CountsLastFifth();
    s.UsefulCounted();
    SameRate(s.sendingRate);
    outcome, verdict := Acknowledge(s, Sixths(), ZEROS);
    CountsSixths();
    s.UsefulCounted();
    ghost var was := s.Now();
    outcome, verdict := Acknowledge(s, [Packet(3, 1000)], [1.0, 0.0, 1.0, 0.0, 1.0, 0.0]);
    ToldAre([1.0, 0.0, 1.0, 0.0, 1.0, 0.0]);
    GoesUp(was, s.Now(), Told(Fives(6), [1.0, 0.0, 1.0, 0.0, 1.0, 0.0]));
  }

  /** In the last interval of the round the rate is the slower one. */
  lemma SlowTail(s: PccVivaceSender)
    requires Stage(s, 6)
    ensures s.sendingRate == Tilt(CENTRE, Decrease)
  {
    hide Sound, Bounded;
    ProbeUseful(5, 4);
  }

  lemma ToldAre(utilities: seq<real>)
    requires |utilities| == 6
    ensures var infos := Told(Fives(6), utilities);
            |infos| == 6 && forall i :: 0 <= i < 6 ==> infos[i] == UtilityInfo(Tilt(CENTRE, Side(i)), utilities[i])
  {
    CountsSixths();
  }

  // ---------- the clash ----------

  lemma FirstDue(s: PccVivaceSender)
    requires s.Valid() && s.hasSeenValidRtt && s.queue.intervals == []
    ensures s.NewIsDue(Start(6)) && s.UsefulIsNext()
  {
    hide Sound, Paced, Bounded;
    QueueFacts(s.queue.intervals, s.queue.numUseful, s.queue.flight, s.queue.pending, s.queue.nextNo, s.queue.now);
  }

  /** One interval after the decision: nothing is counted yet, or all four packets are. */
  lemma AfterDecision(rate: real, ps: seq<Packet>)
    requires ps == [Packet(3, 1000)] || ps == Packets(First(6), 4)
    ensures var q := [Burst(rate, true, First(6), Start(6), 4, 0)];
            && UsefulCount(q) > 0 && TailUseful(q)
            && Judged(q, [], ps, Trusted(|ps|, true)) == (if |ps| == 1 then Waiting else Ready)
            && (|ps| == 1 ==> AdvancedAll(q, [], ps, Trusted(|ps|, true)) == q)
  {
    hide Judged;
    var q := [Burst(rate, true, First(6), Start(6), 4, 0)];
    AdvanceBurst(rate, First(6), Start(6), 4, 0, ps);
    HitsAll(ps, First(6), First(6) + 3);
    JudgeUseful(q, ps);
  }

  /** The next report completes a round at the stored rate. */
  ghost predicate Facing(s: PccVivaceSender)
    reads s, s.queue
  {
    && s.Valid() && s.mode == DecisionMade && s.sendingRate == s.latestInfo.rate && InAir(s.queue.flight, 4)
    && Judged(s.queue.intervals, [], s.queue.pending, Trusted(|s.queue.pending|, true)) == Ready
  }

  method SixProbes() returns (s: PccVivaceSender)
    ensures fresh(s) && fresh(s.queue) && Stage(s, 6)
  {
    hide Stage;
    s := Begin();
    for k := 0 to 6
      invariant fresh(s) && fresh(s.queue) && Stage(s, k)
    {
      ProbeOne(s, k);
    }
  }

  /** The run up to the last report. */
  method ReachClash() returns (s: PccVivaceSender)
    ensures fresh(s) && fresh(s.queue) && Facing(s)
  {
    hide PccVivaceSender.Valid, Judged, MeasuredRate, Rates, InfoRates, UsefulCount, AdvancedAll, Burst, Stage, Told, Home, Decision;
    s := SixProbes();
    DecideUp(s);
    FirstDue(s);
    SendBurst(s, First(6), Start(6), 4);
    assert s.queue.intervals == [Burst(s.sendingRate, true, First(6), Start(6), 4, 0)];
    AfterDecision(s.sendingRate, [Packet(3, 1000)]);
    s.UsefulCounted();
    SameRate(s.sendingRate);
    var outcome, verdict := Acknowledge(s, Packets(First(6), 4), ZEROS);
    AfterDecision(s.sendingRate, Packets(First(6), 4));
  }

  /** The last report: the comparison in `ComputeRateChange` meets equal rates.  The rates of the run are
      exact reals, where the source rounds them. */
  method Clash(s: PccVivaceSender) returns (outcome: Outcome)
    requires Facing(s)
    modifies s, s.queue
    ensures outcome == EqualRates && Clashed(s.Now())
  {
    hide PccVivaceSender.Valid, Judged, AdvancedAll, Told, Home, Decision, TooLong;
    var verdict;
    outcome, verdict := Acknowledge(s, [Packet(4, 1000)], ZEROS);
  }

  // ---------- a tag that changes in the round ----------

  /** Six intervals are in the queue, the next report completes all of them, and the utility tag asks
      for four. */
  ghost predicate Outgrown(s: PccVivaceSender)
    reads s, s.queue
  {
    && s.Valid() && s.mode == Probing && s.scavenger && s.queue.numUseful == 6 && !s.WithinLimit() && InAir(s.queue.flight, 3)
    && s.queue.intervals == Fives(6) && Judged(s.queue.intervals, [], s.queue.pending, Trusted(|s.queue.pending|, true)) == Ready
  }

  /** The tag becomes the one of a scavenger after the sixth interval has been sent. */
  method TagInRound() returns (s: PccVivaceSender)
    ensures fresh(s) && fresh(s.queue) && Outgrown(s)
  {
    hide Stage, Outgrown;
    s := SixProbes();
    Outgrow(s);
  }

  method Outgrow(s: PccVivaceSender)
    requires Stage(s, 6)
    modifies s, s.queue
    ensures Outgrown(s)
  {
    hide PccVivaceSender.Valid, Judged, MeasuredRate, Rates, InfoRates, UsefulCount, AdvancedAll, Burst, Told, Home, Decision, Verdicted;
    s.SetUtilityTag(ScavengerTag);
    CountsLastFifth();
    s.UsefulCounted();
    SameRate(s.sendingRate);
    var outcome, verdict := Acknowledge(s, Sixths(), ZEROS);
    CountsSixths();
    s.UsefulCounted();
  }

  /** Its first two groups decide, so the size of the round is compared, and it is not four. */
  method LongRound(s: PccVivaceSender) returns (outcome: Outcome)
    requires Outgrown(s)
    modifies s, s.queue
    ensures outcome == WrongSize && s.mode == Probing
  {
    hide PccVivaceSender.Valid, Judged, AdvancedAll, Told, Home, Decision, TooLong;
    var utilities := [1.0, 0.0, 1.0, 0.0, 1.0, 0.0];
    TwoGroupsDecide(utilities);
    var verdict;
    outcome, verdict := Acknowledge(s, [Packet(3, 1000)], utilities);
  }

  lemma TwoGroupsDecide(utilities: seq<real>)
    requires utilities == [1.0, 0.0, 1.0, 0.0, 1.0, 0.0]
    ensures TooLong(Probing, Told(Fives(6), utilities), true)
  {
    hide Told, Tilt;
    ToldAre(utilities);
    TiltUndone(CENTRE);
    var infos := Told(Fives(6), utilities);
    assert Increases(infos, 0) == 0 && Increases(infos, 1) == 1 && Increases(infos, 2) == 2 by {
      assert VotesIncrease(infos, 0) && VotesIncrease(infos, 1);
    }
  }
}
