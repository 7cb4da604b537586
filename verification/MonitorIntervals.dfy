/** The monitor intervals of the PCC controller: what the queue of
    pcc_monitor_interval_queue.cpp stores, how reports change an interval, and the properties
    of the queue's contents that hold between calls.  Times and byte counts are integers,
    rates are exact reals in bits per second. */
module MonitorIntervals {

  const MIN_RELIABLE_RTT: nat := 4

  /** A packet of a report: its number and size. */
  datatype Packet = Packet(number: int, bytes: nat)

  datatype MonitorInterval = MonitorInterval(
    rate: real, isUseful: bool,
    firstTime: int, lastTime: int, firstNo: int, lastNo: int,
    bytesSent: nat, bytesAcked: nat, bytesLost: nat,
    samples: nat, reliable: nat, hasEnough: bool, extended: bool)
  {
    /** `IntervalContainsPacket` */
    predicate Contains(number: int) {
      firstNo <= number <= lastNo
    }

    /** `IsUtilityAvailable` */
    predicate Available() {
      hasEnough && bytesAcked + bytesLost == bytesSent
    }

    /** `HasInvalidUtility` */
    predicate Invalid() {
      firstTime == lastTime
    }
  }

  function Fresh(rate: real, isUseful: bool): MonitorInterval {
    MonitorInterval(rate, isUseful, 0, 0, 0, 0, 0, 0, 0, 0, 0, false, false)
  }

  function WithPacket(v: MonitorInterval, time: int, p: Packet): MonitorInterval {
    var w := if v.bytesSent == 0 then v.(firstTime := time, firstNo := p.number) else v;
    w.(lastTime := time, lastNo := p.number, bytesSent := w.bytesSent + p.bytes)
  }

  // ---------- how reports change an interval ----------

  function LoseOne(v: MonitorInterval, p: Packet): MonitorInterval {
    if v.Contains(p.number) then v.(bytesLost := v.bytesLost + p.bytes) else v
  }

  /** One pending acknowledgment; `trusted` is the verdict on its round-trip sample. */
  function AckOne(v: MonitorInterval, p: Packet, trusted: bool): MonitorInterval {
    if v.Contains(p.number) then
      var n := v.reliable + if trusted then 1 else 0;
      v.(bytesAcked := v.bytesAcked + p.bytes, samples := v.samples + 1, reliable := n,
         hasEnough := v.hasEnough || n >= MIN_RELIABLE_RTT)
    else v
  }

  function LoseAll(v: MonitorInterval, ps: seq<Packet>): MonitorInterval {
    if ps == [] then v else LoseOne(LoseAll(v, ps[..|ps| - 1]), ps[|ps| - 1])
  }

  function AckAll(v: MonitorInterval, ps: seq<Packet>, trusted: seq<bool>): MonitorInterval
    requires |trusted| == |ps|
  {
    if ps == [] then v
    else AckOne(AckAll(v, ps[..|ps| - 1], trusted[..|ps| - 1]), ps[|ps| - 1], trusted[|ps| - 1])
  }

  /** The same verdict on n round-trip samples. */
  function Trusted(n: nat, b: bool): (r: seq<bool>)
    ensures |r| == n && forall i :: 0 <= i < n ==> r[i] == b
  {
    seq(n, _ => b)
  }

  lemma AckNone(v: MonitorInterval)
    ensures AckAll(v, [], []) == v
  {
  }

  lemma AckNext(v: MonitorInterval, ps: seq<Packet>, trusted: seq<bool>, i: nat)
    requires |trusted| == |ps| && i < |ps|
    ensures AckAll(v, ps[..i + 1], trusted[..i + 1]) == AckOne(AckAll(v, ps[..i], trusted[..i]), ps[i], trusted[i])
  {
    hide AckOne;
    assert ps[..i + 1][..i] == ps[..i] && trusted[..i + 1][..i] == trusted[..i];
  }

  /** What one congestion event does to an interval. */
  function Advanced(v: MonitorInterval, losses: seq<Packet>, pending: seq<Packet>, trusted: seq<bool>): MonitorInterval
    requires |trusted| == |pending|
  {
    if !v.isUseful || v.Available() then v else AckAll(LoseAll(v, losses), pending, trusted)
  }

  /** What stays the same about an interval when reports come in. */
  ghost predicate SameSending(v: MonitorInterval, w: MonitorInterval) {
    && w.rate == v.rate && w.isUseful == v.isUseful && w.firstTime == v.firstTime && w.lastTime == v.lastTime
    && w.firstNo == v.firstNo && w.lastNo == v.lastNo && w.bytesSent == v.bytesSent && w.extended == v.extended
    && (v.hasEnough ==> w.hasEnough) && v.reliable <= w.reliable
  }

  /** Reliable samples are samples, and they are enough exactly from four on. */
  ghost predicate Sampled(v: MonitorInterval) {
    v.reliable <= v.samples && (v.hasEnough <==> MIN_RELIABLE_RTT <= v.reliable)
  }

  /** Which of the listed packets lie in a range of numbers. */
  ghost function Within(ps: seq<Packet>, lo: int, hi: int): set<int> {
    set i | 0 <= i < |ps| && lo <= ps[i].number <= hi
  }

  /** Which of them have a reliable round-trip sample. */
  ghost function TrustedWithin(ps: seq<Packet>, trusted: seq<bool>, lo: int, hi: int): set<int>
    requires |trusted| == |ps|
  {
    set i | 0 <= i < |ps| && lo <= ps[i].number <= hi && trusted[i]
  }

  /** Bytes of those listed packets that lie in a range of numbers. */
  function ListedIn(ps: seq<Packet>, lo: int, hi: int): nat {
    if ps == [] then 0
    else ListedIn(ps[..|ps| - 1], lo, hi) + if lo <= ps[|ps| - 1].number <= hi then ps[|ps| - 1].bytes else 0
  }

  /** Bytes in flight in a range of numbers. */
  ghost function FlightIn(flight: map<int, nat>, lo: int, hi: int): nat
    decreases hi - lo
  {
    if hi < lo then 0 else FlightIn(flight, lo, hi - 1) + if hi in flight then flight[hi] else 0
  }

  lemma {:induction false} LoseAllSums(v: MonitorInterval, ps: seq<Packet>)
    ensures var w := LoseAll(v, ps);
            && SameSending(v, w) && w.bytesLost == v.bytesLost + ListedIn(ps, v.firstNo, v.lastNo)
            && w.bytesAcked == v.bytesAcked && w.hasEnough == v.hasEnough && w.samples == v.samples && w.reliable == v.reliable
  {
    if ps != [] {
      LoseAllSums(v, ps[..|ps| - 1]);
    }
  }

  lemma {:induction false} AckAllSums(v: MonitorInterval, ps: seq<Packet>, trusted: seq<bool>)
    requires |trusted| == |ps|
    ensures var w := AckAll(v, ps, trusted);
            && SameSending(v, w) && w.bytesAcked == v.bytesAcked + ListedIn(ps, v.firstNo, v.lastNo)
            && w.bytesLost == v.bytesLost && (Sampled(v) ==> Sampled(w))
            && w.samples == v.samples + |Within(ps, v.firstNo, v.lastNo)|
            && w.reliable == v.reliable + |TrustedWithin(ps, trusted, v.firstNo, v.lastNo)|
  {
    if ps != [] {
      AckAllSums(v, ps[..|ps| - 1], trusted[..|ps| - 1]);
      WithinNext(ps, trusted, v.firstNo, v.lastNo);
    }
  }

  lemma WithinNext(ps: seq<Packet>, trusted: seq<bool>, lo: int, hi: int)
    requires ps != [] && |trusted| == |ps|
    ensures var n := |ps| - 1; var listed := lo <= ps[n].number <= hi;
            && |Within(ps, lo, hi)| == |Within(ps[..n], lo, hi)| + (if listed then 1 else 0)
            && |TrustedWithin(ps, trusted, lo, hi)| ==
               |TrustedWithin(ps[..n], trusted[..n], lo, hi)| + if listed && trusted[n] then 1 else 0
  {
    hide Within, TrustedWithin;
    OneMoreWithin(ps, lo, hi);
    OneMoreTrusted(ps, trusted, lo, hi);
  }

  lemma OneMoreWithin(ps: seq<Packet>, lo: int, hi: int)
    requires ps != []
    ensures var n := |ps| - 1; |Within(ps, lo, hi)| == |Within(ps[..n], lo, hi)| + if lo <= ps[n].number <= hi then 1 else 0
  {
    var n := |ps| - 1;
    assert Within(ps, lo, hi) == Within(ps[..n], lo, hi) + if lo <= ps[n].number <= hi then {n} else {};
  }

  lemma OneMoreTrusted(ps: seq<Packet>, trusted: seq<bool>, lo: int, hi: int)
    requires ps != [] && |trusted| == |ps|
    ensures var n := |ps| - 1;
            |TrustedWithin(ps, trusted, lo, hi)| ==
            |TrustedWithin(ps[..n], trusted[..n], lo, hi)| + if lo <= ps[n].number <= hi && trusted[n] then 1 else 0
  {
    var n := |ps| - 1;
    assert TrustedWithin(ps, trusted, lo, hi) ==
           TrustedWithin(ps[..n], trusted[..n], lo, hi) + if lo <= ps[n].number <= hi && trusted[n] then {n} else {};
  }

  // ---------- packets in flight ----------

  /** A report names packets in flight, with their sizes, each once. */
  ghost predicate Reported(ps: seq<Packet>, flight: map<int, nat>) {
    && (forall i :: 0 <= i < |ps| ==> ps[i].number in flight && flight[ps[i].number] == ps[i].bytes)
    && (forall i, j :: 0 <= i < j < |ps| ==> ps[i].number != ps[j].number)
  }

  /** The flight without the reported packets. */
  ghost function Landed(flight: map<int, nat>, ps: seq<Packet>): map<int, nat> {
    if ps == [] then flight else Landed(flight, ps[..|ps| - 1]) - {ps[|ps| - 1].number}
  }

  lemma {:induction false} LandedKeys(flight: map<int, nat>, ps: seq<Packet>, n: int)
    ensures n in Landed(flight, ps) <==> n in flight && forall i :: 0 <= i < |ps| ==> ps[i].number != n
    ensures n in Landed(flight, ps) ==> Landed(flight, ps)[n] == flight[n]
  {
    if ps != [] {
      LandedKeys(flight, ps[..|ps| - 1], n);
      assert forall i :: 0 <= i < |ps| - 1 ==> ps[..|ps| - 1][i] == ps[i];
    }
  }

  lemma {:induction false} FlightWithout(flight: map<int, nat>, n: int, lo: int, hi: int)
    ensures FlightIn(flight - {n}, lo, hi) == FlightIn(flight, lo, hi) - if lo <= n <= hi && n in flight then flight[n] else 0
    decreases hi - lo
  {
    if lo <= hi {
      FlightWithout(flight, n, lo, hi - 1);
    }
  }

  lemma {:induction false} FlightWith(flight: map<int, nat>, n: int, bytes: nat, lo: int, hi: int)
    requires n !in flight
    ensures FlightIn(flight[n := bytes], lo, hi) == FlightIn(flight, lo, hi) + if lo <= n <= hi then bytes else 0
    decreases hi - lo
  {
    if lo <= hi {
      FlightWith(flight, n, bytes, lo, hi - 1);
    }
  }

  /** Extending a range over numbers that are not in flight adds nothing. */
  lemma {:induction false} FlightStretch(flight: map<int, nat>, lo: int, mid: int, hi: int)
    requires mid <= hi && lo <= mid + 1 && forall n :: mid < n <= hi ==> n !in flight
    ensures FlightIn(flight, lo, hi) == FlightIn(flight, lo, mid)
    decreases hi - mid
  {
    if mid < hi {
      FlightStretch(flight, lo, mid, hi - 1);
    }
  }

  /** What a report takes out of the flight is what it lists. */
  lemma {:induction false} LandedSums(flight: map<int, nat>, ps: seq<Packet>, lo: int, hi: int)
    requires Reported(ps, flight)
    ensures FlightIn(Landed(flight, ps), lo, hi) == FlightIn(flight, lo, hi) - ListedIn(ps, lo, hi)
  {
    if ps != [] {
      var front, p := ps[..|ps| - 1], ps[|ps| - 1];
      assert forall i :: 0 <= i < |front| ==> front[i] == ps[i];
      LandedSums(flight, front, lo, hi);
      LandedKeys(flight, front, p.number);
      FlightWithout(Landed(flight, front), p.number, lo, hi);
    }
  }

  // ---------- conservation ----------

  /** Every byte sent in a useful interval is counted as acknowledged or lost, is still in
      flight, or is waiting among the pending acknowledgments. */
  ghost predicate Balanced(v: MonitorInterval, flight: map<int, nat>, pending: seq<Packet>) {
    v.bytesAcked + v.bytesLost + FlightIn(flight, v.firstNo, v.lastNo) + ListedIn(pending, v.firstNo, v.lastNo) == v.bytesSent
  }

  /** An event keeps the balance; an interval that is skipped because it is complete had nothing
      to gain from the reports. */
  lemma AdvanceKeepsBalance(v: MonitorInterval, flight: map<int, nat>, pending: seq<Packet>, trusted: seq<bool>,
                            losses: seq<Packet>, acks: seq<Packet>)
    requires v.isUseful && Balanced(v, flight, pending) && |trusted| == |pending|
    requires Reported(losses, flight) && Reported(acks, Landed(flight, losses))
    ensures Balanced(Advanced(v, losses, pending, trusted), Landed(Landed(flight, losses), acks), acks)
    ensures SameSending(v, Advanced(v, losses, pending, trusted))
    ensures Sampled(v) ==> Sampled(Advanced(v, losses, pending, trusted))
  {
    LandedSums(flight, losses, v.firstNo, v.lastNo);
    LandedSums(Landed(flight, losses), acks, v.firstNo, v.lastNo);
    LoseAllSums(v, losses);
    AckAllSums(LoseAll(v, losses), pending, trusted);
  }

  /** A complete interval is left as it is by the reports even without the test that skips it. */
  lemma SkippingLosesNothing(v: MonitorInterval, flight: map<int, nat>, pending: seq<Packet>, trusted: seq<bool>, losses: seq<Packet>)
    requires v.isUseful && v.Available() && Balanced(v, flight, pending) && |trusted| == |pending| && Reported(losses, flight)
    ensures ListedIn(losses, v.firstNo, v.lastNo) == 0 && ListedIn(pending, v.firstNo, v.lastNo) == 0
    ensures var w := AckAll(LoseAll(v, losses), pending, trusted);
            w.bytesAcked == v.bytesAcked && w.bytesLost == v.bytesLost && w.Available()
  {
    LandedSums(flight, losses, v.firstNo, v.lastNo);
    LoseAllSums(v, losses);
    AckAllSums(LoseAll(v, losses), pending, trusted);
  }
}
