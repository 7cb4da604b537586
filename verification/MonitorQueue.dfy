/** The queue of monitor intervals (`PccMonitorIntervalQueue`).  The callback into the sender, which
    the source makes in the middle of `OnCongestionEvent`, is split off: `OnCongestionEvent` says
    that the utilities are ready, the sender makes its decision, and then calls `RemoveUseful`. */
module MonitorQueues {
  import opened MonitorIntervals

  // ---------- what holds of the contents ----------

  function UsefulCount(q: seq<MonitorInterval>): (n: nat)
    ensures n <= |q|
  {
    if q == [] then 0 else UsefulCount(q[..|q| - 1]) + if q[|q| - 1].isUseful then 1 else 0
  }

  /** The useful intervals, in order. */
  function Useful(q: seq<MonitorInterval>): (r: seq<MonitorInterval>)
    ensures |r| == UsefulCount(q)
  {
    if q == [] then [] else Useful(q[..|q| - 1]) + if q[|q| - 1].isUseful then [q[|q| - 1]] else []
  }

  function AvailableCount(q: seq<MonitorInterval>): (n: nat)
    ensures n <= UsefulCount(q)
  {
    if q == [] then 0 else AvailableCount(q[..|q| - 1]) + if q[|q| - 1].isUseful && q[|q| - 1].Available() then 1 else 0
  }

  function Lead(q: seq<MonitorInterval>): nat {
    if q != [] && !q[0].isUseful then 1 else 0
  }

  /** At most one useless interval, then u useful ones, then at most one useless one. */
  ghost predicate Shaped(q: seq<MonitorInterval>, u: nat) {
    && Lead(q) + u <= |q| <= Lead(q) + u + 1
    && (u == 0 ==> |q| <= 1)
    && (forall i :: 0 <= i < |q| ==> (q[i].isUseful <==> Lead(q) <= i < Lead(q) + u))
  }

  /** Intervals hold packets with increasing, separate ranges of numbers, the last one up to the
      number before `next`. */
  ghost predicate Ranged(q: seq<MonitorInterval>, next: int) {
    && (q != [] ==> q[|q| - 1].lastNo == next - 1)
    && (forall i :: 0 <= i < |q| ==> q[i].firstNo <= q[i].lastNo < next && q[i].bytesSent > 0)
    && (forall i, j :: 0 <= i < j < |q| ==> q[i].lastNo < q[j].firstNo)
  }

  ghost predicate Conserved(q: seq<MonitorInterval>, flight: map<int, nat>, pending: seq<Packet>) {
    forall i :: 0 <= i < |q| && q[i].isUseful ==> Balanced(q[i], flight, pending)
  }

  /** Every useful interval but the last in the queue has enough samples. */
  ghost predicate Completed(q: seq<MonitorInterval>) {
    forall i :: 0 <= i < |q| - 1 && q[i].isUseful ==> q[i].hasEnough
  }

  /** Sending times are in order, and a useful interval whose utility counts has two of them. */
  ghost predicate Timed(q: seq<MonitorInterval>, now: int) {
    forall i :: 0 <= i < |q| ==>
      && q[i].firstTime <= q[i].lastTime <= now && Sampled(q[i])
      && (q[i].isUseful && q[i].Available() ==> q[i].firstTime < q[i].lastTime)
  }

  /** No packet in flight or waiting has a number that is still to come. */
  ghost predicate Past(flight: map<int, nat>, pending: seq<Packet>, next: int) {
    && (forall n :: n in flight ==> n < next)
    && (forall i :: 0 <= i < |pending| ==> pending[i].number < next)
  }

  /** All of it: what holds of the queue between calls. */
  ghost predicate Sound(q: seq<MonitorInterval>, u: nat, flight: map<int, nat>, pending: seq<Packet>, next: int, now: int) {
    && u == UsefulCount(q) && Shaped(q, u) && Ranged(q, next) && Conserved(q, flight, pending)
    && Completed(q) && Timed(q, now) && Past(flight, pending, next)
  }

  datatype Verdict = Waiting | Discard | Ready

  class PccMonitorIntervalQueue {
    var intervals: seq<MonitorInterval>
    var pending: seq<Packet>
    var numUseful: nat
    var numAvailable: nat
    ghost var flight: map<int, nat>
    ghost var nextNo: int
    ghost var now: int

    ghost predicate Valid()
      reads this
    {
      Sound(intervals, numUseful, flight, pending, nextNo, now)
    }

    constructor ()
      ensures Valid() && intervals == [] && pending == [] && flight == map[] && nextNo == now == 0
    {
      intervals, pending, numUseful, numAvailable := [], [], 0, 0;
      flight, nextNo, now := map[], 0, 0;
    }

    // ---------- sending ----------

    method EnqueueNewMonitorInterval(rate: real, isUseful: bool)
      modifies this`intervals, this`numUseful
      ensures intervals == old(intervals) + [Fresh(rate, isUseful)]
      ensures numUseful == old(numUseful) + if isUseful then 1 else 0
    {
      if isUseful {
        numUseful := numUseful + 1;
      }
      intervals := intervals + [Fresh(rate, isUseful)];
    }

    /** A packet goes out.  The ghost part records it as in flight. */
    method OnPacketSent(time: int, number: int, bytes: nat)
      requires number !in flight && bytes > 0
      modifies this`intervals, this`flight, this`nextNo, this`now
      ensures old(intervals) == [] ==> intervals == []
      ensures old(intervals) != [] ==>
                intervals == Sending(old(intervals), time, Packet(number, bytes))
      ensures flight == old(flight)[number := bytes] && nextNo == number + 1 && now == time
    {
      flight, nextNo, now := flight[number := bytes], number + 1, time;
      if intervals == [] {
        return;
      }
      var n := |intervals|;
      var tail := intervals[n - 1];
      if tail.bytesSent == 0 {
        tail := tail.(firstTime := time, firstNo := number);
      }
      tail := tail.(lastTime := time, lastNo := number, bytesSent := tail.bytesSent + bytes);
      intervals := intervals[n - 1 := tail];
    }

    // ---------- reports ----------

    /** The inner loop over the lost packets, for one interval. */
    static method CountLosses(v: MonitorInterval, losses: seq<Packet>) returns (w: MonitorInterval)
      ensures w == LoseAll(v, losses)
    {
      w := v;
      for i := 0 to |losses|
        invariant w == LoseAll(v, losses[..i])
      {
        assert losses[..i + 1][..i] == losses[..i];
        if w.Contains(losses[i].number) {
          w := w.(bytesLost := w.bytesLost + losses[i].bytes);
        }
      }
      assert losses[..|losses|] == losses;
    }

    /** The inner loop over the acknowledgments of the report before, for one interval.  Whether a
        round-trip sample counts as reliable is an input. */
    static method CountAcks(v: MonitorInterval, pending: seq<Packet>, trusted: seq<bool>) returns (w: MonitorInterval)
      requires |trusted| == |pending|
      ensures w == AckAll(v, pending, trusted)
    {
      hide AckAll, AckOne;
      w := v;
      AckNone(v);
      assert pending[..0] == [] && trusted[..0] == [];
      for i := 0 to |pending|
        invariant w == AckAll(v, pending[..i], trusted[..i])
      {
        AckNext(v, pending, trusted, i);
        w := CountAck(w, pending[i], trusted[i]);
      }
      assert pending[..|pending|] == pending && trusted[..|trusted|] == trusted;
    }

    /** One of the pending acknowledgments. */
    static method CountAck(v: MonitorInterval, p: Packet, trusted: bool) returns (w: MonitorInterval)
      ensures w == AckOne(v, p, trusted)
    {
      w := v;
      if w.Contains(p.number) {
        w := w.(bytesAcked := w.bytesAcked + p.bytes);
        if trusted {
          w := w.(reliable := w.reliable + 1);
        }
        w := w.(samples := w.samples + 1);
        if w.reliable >= MIN_RELIABLE_RTT {
          w := w.(hasEnough := true);
        }
      }
    }

    /** The body of the outer loop, for one interval. */
    static method CountReports(v: MonitorInterval, losses: seq<Packet>, pending: seq<Packet>, trusted: seq<bool>)
      returns (w: MonitorInterval, available: bool, invalid: bool)
      requires |trusted| == |pending|
      ensures w == Advanced(v, losses, pending, trusted)
      ensures available <==> !Spoilt(v, w) && w.isUseful && w.Available()
      ensures invalid <==> Spoilt(v, w)
      ensures v.isUseful && !v.Available() ==>
                && w.samples == v.samples + |Within(pending, v.firstNo, v.lastNo)|
                && w.reliable == v.reliable + |TrustedWithin(pending, trusted, v.firstNo, v.lastNo)|
                && w.bytesAcked == v.bytesAcked + ListedIn(pending, v.firstNo, v.lastNo)
                && w.bytesLost == v.bytesLost + ListedIn(losses, v.firstNo, v.lastNo)
      ensures v.isUseful && !v.Available() && Sampled(v) ==> (w.hasEnough <==> MIN_RELIABLE_RTT <= w.reliable)
    {
      w, available, invalid := v, false, false;
      if v.isUseful {
        if v.Available() {
          available := true;
        } else {
          w := CountLosses(v, losses);
          w := CountAcks(w, pending, trusted);
          LoseAllSums(v, losses);
          AckAllSums(LoseAll(v, losses), pending, trusted);
          if w.Available() {
            invalid := w.Invalid();
            available := !invalid;
          }
        }
      }
    }

    /** The outer loop, up to the first interval that turns out invalid. */
    method CountAll(losses: seq<Packet>, trusted: seq<bool>) returns (invalid: bool)
      requires |trusted| == |pending|
      modifies this`intervals, this`numAvailable
      ensures |intervals| == |old(intervals)|
      ensures !invalid ==> intervals == AdvancedAll(old(intervals), losses, pending, trusted)
      ensures !invalid ==> numAvailable == AvailableCount(intervals) && NoneSpoilt(old(intervals), intervals)
      ensures invalid ==> PartlyAdvanced(old(intervals), intervals, losses, pending, trusted)
      ensures invalid ==> !NoneSpoilt(old(intervals), intervals)
    {
      hide Advanced, AdvancedAll, Spoilt, NoneSpoilt, PartlyAdvanced, AvailableCount, UsefulCount;
      ghost var q := intervals;
      numAvailable := 0;
      invalid := false;
      var i := 0;
      StartAdvance(q, losses, pending, trusted);
      while i < |intervals| && !invalid
        invariant 0 <= i <= |intervals| == |q|
        invariant intervals == AdvancedAll(q[..i], losses, pending, trusted) + q[i..]
        invariant !invalid ==> NoneSpoilt(q[..i], intervals[..i]) && numAvailable == AvailableCount(intervals[..i])
        invariant invalid ==> i > 0 && Spoilt(q[i - 1], intervals[i - 1])
      {
        ghost var was := intervals;
        assert was[i] == q[i];
        var v, available;
        v, available, invalid := CountReports(intervals[i], losses, pending, trusted);
        intervals := intervals[i := v];
        if available {
          numAvailable := numAvailable + 1;
        }
        AdvanceNext(q, i, losses, pending, trusted);
        assert intervals[..i + 1] == was[..i] + [v] && q[..i + 1] == q[..i] + [q[i]];
        CountAvailable(was[..i], v);
        if !invalid {
          SpoiltNext(q[..i], was[..i], q[i], v);
        }
        i := i + 1;
      }
      if invalid {
        SpoiltSome(q, intervals, i - 1);
        PartlyFrom(q, intervals, i, losses, pending, trusted);
      } else {
        assert q[..i] == q && intervals[..i] == intervals && q[i..] == [];
      }
    }

    /** `OnCongestionEvent` up to the delegate call: counts the reports and says what is to happen. */
    method ScanReports(acks: seq<Packet>, losses: seq<Packet>, trusted: seq<bool>) returns (verdict: Verdict)
      requires numUseful == UsefulCount(intervals) && |trusted| == |pending|
      modifies this`intervals, this`pending, this`numAvailable
      ensures |intervals| == |old(intervals)|
      ensures old(numUseful) == 0 ==> verdict == Waiting && intervals == old(intervals) && pending == old(pending)
      ensures old(numUseful) > 0 ==> pending == acks
      ensures old(numUseful) > 0 && verdict != Discard ==>
                intervals == AdvancedAll(old(intervals), losses, old(pending), trusted) && NoneSpoilt(old(intervals), intervals)
      ensures verdict == Ready ==> AllAvailable(intervals)
      ensures verdict == Discard ==>
                PartlyAdvanced(old(intervals), intervals, losses, old(pending), trusted) && !NoneSpoilt(old(intervals), intervals)
      ensures old(numUseful) > 0 && verdict == Waiting ==> !AllAvailable(intervals)
    {
      hide Advanced, Spoilt, NoneSpoilt, AllAvailable;
      if numUseful == 0 {
        numAvailable := 0;
        return Waiting;
      }
      var invalid := CountAll(losses, trusted);
      if !invalid {
        CountSame(old(intervals), losses, pending, trusted);
        CountsAgree(intervals);
      }
      pending := acks;
      if numUseful > numAvailable && !invalid {
        return Waiting;
      }
      return if invalid then Discard else Ready;
    }

    /** `OnCongestionEvent`: everything stays sound unless an interval turned out invalid, and then
        enough to remove the useful ones. */
    method OnCongestionEvent(acks: seq<Packet>, losses: seq<Packet>, trusted: seq<bool>) returns (verdict: Verdict)
      requires Valid() && |trusted| == |pending|
      requires Reported(losses, flight) && Reported(acks, Landed(flight, losses))
      modifies this`intervals, this`pending, this`numAvailable, this`flight
      ensures verdict != Discard ==> Valid()
      ensures verdict != Waiting ==> numUseful > 0
      ensures verdict == Ready ==> AllAvailable(intervals)
      ensures flight == Landed(Landed(old(flight), losses), acks)
      ensures SameKinds(old(intervals), intervals) && numUseful == UsefulCount(intervals) && Past(flight, pending, nextNo)
      ensures numUseful == old(numUseful) && pending == if numUseful > 0 then acks else old(pending)
      ensures verdict == Discard <==>
              numUseful > 0 && !NoneSpoilt(old(intervals), AdvancedAll(old(intervals), losses, old(pending), trusted))
      ensures verdict == Ready <==> numUseful > 0 && verdict != Discard && AllAvailable(intervals)
      ensures verdict == Judged(old(intervals), losses, old(pending), trusted)
      ensures verdict != Discard ==>
                intervals == if numUseful > 0 then AdvancedAll(old(intervals), losses, old(pending), trusted) else old(intervals)
    {
      hide Sound, Past, UsefulCount, Landed, Reported, AdvancedAll, PartlyAdvanced, NoneSpoilt, AllAvailable, SameKinds;
      ghost var q, was, waiting := intervals, flight, pending;
      SoundCount(q, numUseful, was, waiting, nextNo, now);
      LandedPast(was, losses, acks, waiting, nextNo);
      if numUseful == 0 {
        IdleKeeps(q, was, waiting, nextNo, now, acks, losses);
        KindsSame(q);
      } else {
        KindsAdvanced(q, losses, waiting, trusted);
        if NoneSpoilt(q, AdvancedAll(q, losses, waiting, trusted)) {
          EventKeeps(q, numUseful, was, waiting, nextNo, now, acks, losses, trusted);
        }
      }
      verdict := ScanReports(acks, losses, trusted);
      if verdict == Discard {
        SpoiltPartly(q, intervals, losses, waiting, trusted);
      }
      flight := Landed(Landed(flight, losses), acks);
      KindsCount(q, intervals);
    }

    /** The last loop of `OnCongestionEvent`: drops everything up to the last useful interval. */
    method RemoveUseful()
      requires numUseful == UsefulCount(intervals)
      modifies this`intervals, this`numUseful, this`numAvailable
      ensures numUseful == 0 == UsefulCount(intervals)
      ensures exists k :: 0 <= k <= |old(intervals)| && intervals == old(intervals)[k..]
                && (k > 0 ==> old(intervals)[k - 1].isUseful)
    {
      ghost var k := 0;
      while numUseful > 0
        invariant 0 <= k <= |old(intervals)| && intervals == old(intervals)[k..]
        invariant numUseful == UsefulCount(intervals)
        invariant numUseful == 0 && k > 0 ==> old(intervals)[k - 1].isUseful
        decreases |intervals|
      {
        CountFirst(intervals);
        if intervals[0].isUseful {
          numUseful := numUseful - 1;
        }
        intervals := intervals[1..];
        k := k + 1;
      }
      numAvailable := 0;
    }

    /** `OnRttInflationInStarting` */
    method OnRttInflationInStarting()
      modifies this`intervals, this`numUseful, this`numAvailable
      ensures intervals == [] && numUseful == 0
    {
      intervals, numUseful, numAvailable := [], 0, 0;
    }
  }

  /** An interval whose utility has just become available and is invalid. */
  ghost predicate Spoilt(was: MonitorInterval, now: MonitorInterval) {
    now.isUseful && !was.Available() && now.Available() && now.Invalid()
  }

  function AdvancedAll(q: seq<MonitorInterval>, losses: seq<Packet>, pending: seq<Packet>, trusted: seq<bool>): (r: seq<MonitorInterval>)
    requires |trusted| == |pending|
    ensures |r| == |q| && forall i :: 0 <= i < |q| ==> r[i] == Advanced(q[i], losses, pending, trusted)
  {
    seq(|q|, i requires 0 <= i < |q| => Advanced(q[i], losses, pending, trusted))
  }

  ghost predicate PartlyAdvanced(q: seq<MonitorInterval>, r: seq<MonitorInterval>, losses: seq<Packet>, pending: seq<Packet>, trusted: seq<bool>)
    requires |trusted| == |pending|
  {
    exists i :: 0 < i <= |q| && r == AdvancedAll(q[..i], losses, pending, trusted) + q[i..]
  }

  ghost predicate NoneSpoilt(q: seq<MonitorInterval>, r: seq<MonitorInterval>) {
    |q| == |r| && forall i :: 0 <= i < |q| ==> !Spoilt(q[i], r[i])
  }

  /** What a report means for the round. */
  ghost function Judged(q: seq<MonitorInterval>, losses: seq<Packet>, pending: seq<Packet>, trusted: seq<bool>): Verdict
    requires |trusted| == |pending|
  {
    var r := AdvancedAll(q, losses, pending, trusted);
    if UsefulCount(q) == 0 then Waiting
    else if !NoneSpoilt(q, r) then Discard
    else if AllAvailable(r) then Ready
    else Waiting
  }

  /** All bytes of an interval are acknowledged or lost, and enough of its samples are reliable. */
  ghost predicate Whole(v: MonitorInterval) {
    v.reliable >= MIN_RELIABLE_RTT && v.bytesAcked + v.bytesLost == v.bytesSent
  }

  /** They are when the packets of a report in its range are counted in. */
  ghost predicate WholeWith(v: MonitorInterval, losses: seq<Packet>, pending: seq<Packet>, trusted: seq<bool>)
    requires |trusted| == |pending|
  {
    && v.reliable + |TrustedWithin(pending, trusted, v.firstNo, v.lastNo)| >= MIN_RELIABLE_RTT
    && v.bytesAcked + v.bytesLost + ListedIn(pending, v.firstNo, v.lastNo) + ListedIn(losses, v.firstNo, v.lastNo) == v.bytesSent
  }

  /** The verdict in terms of what the report lists.  A round is discarded if some useful interval
      is completed by it that has one sending time, and is ready if otherwise all of them are complete. */
  lemma JudgedMeans(q: seq<MonitorInterval>, losses: seq<Packet>, pending: seq<Packet>, trusted: seq<bool>)
    requires |trusted| == |pending| && forall i :: 0 <= i < |q| ==> Sampled(q[i])
    ensures Judged(q, losses, pending, trusted) ==
            if forall i :: 0 <= i < |q| ==> !q[i].isUseful then Waiting
            else if exists i :: 0 <= i < |q| && q[i].isUseful && !Whole(q[i]) && WholeWith(q[i], losses, pending, trusted)
                                && q[i].firstTime == q[i].lastTime then Discard
            else if forall i :: 0 <= i < |q| && q[i].isUseful ==> Whole(q[i]) || WholeWith(q[i], losses, pending, trusted) then Ready
            else Waiting
  {
    hide Advanced, Whole, WholeWith, UsefulCount;
    if UsefulCount(q) == 0 {
      NoneUseful(q);
    } else if forall i :: 0 <= i < |q| ==> !q[i].isUseful {
      CountNone(q);
    }
    var r := AdvancedAll(q, losses, pending, trusted);
    forall i | 0 <= i < |q| && q[i].isUseful
      ensures SameSending(q[i], r[i]) && (q[i].Available() <==> Whole(q[i]))
      ensures r[i].Available() <==> Whole(q[i]) || WholeWith(q[i], losses, pending, trusted)
    {
      AdvancedMeans(q[i], losses, pending, trusted);
    }
    forall i | 0 <= i < |q| ensures q[i].isUseful == r[i].isUseful {
      AdvancedSame(q[i], losses, pending, trusted);
    }
  }

  lemma AdvancedMeans(v: MonitorInterval, losses: seq<Packet>, pending: seq<Packet>, trusted: seq<bool>)
    requires |trusted| == |pending| && Sampled(v) && v.isUseful
    ensures SameSending(v, Advanced(v, losses, pending, trusted)) && (v.Available() <==> Whole(v))
    ensures Advanced(v, losses, pending, trusted).Available() <==> Whole(v) || WholeWith(v, losses, pending, trusted)
  {
    LoseAllSums(v, losses);
    AckAllSums(LoseAll(v, losses), pending, trusted);
  }

  lemma NothingToJudge(q: seq<MonitorInterval>, losses: seq<Packet>, pending: seq<Packet>, trusted: seq<bool>)
    requires |trusted| == |pending|
    ensures UsefulCount(q) == 0 ==> Judged(q, losses, pending, trusted) == Waiting
  {
  }

  lemma SpoiltPartly(q: seq<MonitorInterval>, r: seq<MonitorInterval>, losses: seq<Packet>, pending: seq<Packet>, trusted: seq<bool>)
    requires |trusted| == |pending| && PartlyAdvanced(q, r, losses, pending, trusted) && !NoneSpoilt(q, r)
    ensures !NoneSpoilt(q, AdvancedAll(q, losses, pending, trusted))
  {
  }

  lemma StartAdvance(q: seq<MonitorInterval>, losses: seq<Packet>, pending: seq<Packet>, trusted: seq<bool>)
    requires |trusted| == |pending|
    ensures AdvancedAll(q[..0], losses, pending, trusted) == [] && NoneSpoilt(q[..0], q[..0]) && AvailableCount(q[..0]) == 0
  {
  }

  lemma SpoiltNext(q: seq<MonitorInterval>, r: seq<MonitorInterval>, v: MonitorInterval, w: MonitorInterval)
    requires NoneSpoilt(q, r) && !Spoilt(v, w)
    ensures NoneSpoilt(q + [v], r + [w])
  {
    hide Spoilt;
  }

  lemma SpoiltSome(q: seq<MonitorInterval>, r: seq<MonitorInterval>, i: nat)
    requires i < |q| == |r| && Spoilt(q[i], r[i])
    ensures !NoneSpoilt(q, r)
  {
    hide Spoilt;
  }

  lemma PartlyFrom(q: seq<MonitorInterval>, r: seq<MonitorInterval>, i: nat, losses: seq<Packet>, pending: seq<Packet>, trusted: seq<bool>)
    requires |trusted| == |pending| && 0 < i <= |q| && r == AdvancedAll(q[..i], losses, pending, trusted) + q[i..]
    ensures PartlyAdvanced(q, r, losses, pending, trusted)
  {
    hide AdvancedAll;
  }

  /** The same queue up to what reports change. */
  ghost predicate SameKinds(q: seq<MonitorInterval>, r: seq<MonitorInterval>) {
    |r| == |q| && forall i :: 0 <= i < |q| ==>
      r[i].isUseful == q[i].isUseful && r[i].rate == q[i].rate && (!q[i].isUseful ==> r[i] == q[i])
  }

  lemma KindsSame(q: seq<MonitorInterval>)
    ensures SameKinds(q, q)
  {
  }

  lemma KindsAdvanced(q: seq<MonitorInterval>, losses: seq<Packet>, pending: seq<Packet>, trusted: seq<bool>)
    requires |trusted| == |pending|
    ensures SameKinds(q, AdvancedAll(q, losses, pending, trusted))
    ensures forall r :: PartlyAdvanced(q, r, losses, pending, trusted) ==> SameKinds(q, r)
  {
    hide Advanced;
    forall i | 0 <= i < |q|
      ensures SameSending(q[i], Advanced(q[i], losses, pending, trusted))
      ensures !q[i].isUseful ==> Advanced(q[i], losses, pending, trusted) == q[i]
    {
      AdvancedSame(q[i], losses, pending, trusted);
    }
  }

  lemma {:induction false} KindsCount(q: seq<MonitorInterval>, r: seq<MonitorInterval>)
    requires SameKinds(q, r)
    ensures UsefulCount(r) == UsefulCount(q)
  {
    if q != [] {
      KindsCount(q[..|q| - 1], r[..|r| - 1]);
    }
  }

  lemma SoundCount(q: seq<MonitorInterval>, u: nat, flight: map<int, nat>, pending: seq<Packet>, next: int, now: int)
    requires Sound(q, u, flight, pending, next, now)
    ensures u == UsefulCount(q) && Past(flight, pending, next)
  {
  }

  lemma AdvanceNext(q: seq<MonitorInterval>, i: nat, losses: seq<Packet>, pending: seq<Packet>, trusted: seq<bool>)
    requires |trusted| == |pending| && i < |q|
    ensures (AdvancedAll(q[..i], losses, pending, trusted) + q[i..])[i := Advanced(q[i], losses, pending, trusted)]
         == AdvancedAll(q[..i + 1], losses, pending, trusted) + q[i + 1..]
  {
    hide Advanced;
  }

  lemma CountAvailable(q: seq<MonitorInterval>, v: MonitorInterval)
    ensures AvailableCount(q + [v]) == AvailableCount(q) + if v.isUseful && v.Available() then 1 else 0
  {
    assert (q + [v])[..|q|] == q;
  }

  lemma {:induction false} CountSame(q: seq<MonitorInterval>, losses: seq<Packet>, pending: seq<Packet>, trusted: seq<bool>)
    requires |trusted| == |pending|
    ensures UsefulCount(AdvancedAll(q, losses, pending, trusted)) == UsefulCount(q)
  {
    if q != [] {
      var n := |q| - 1;
      CountSame(q[..n], losses, pending, trusted);
      LoseAllSums(q[n], losses);
      AckAllSums(LoseAll(q[n], losses), pending, trusted);
      assert AdvancedAll(q, losses, pending, trusted)[..n] == AdvancedAll(q[..n], losses, pending, trusted);
    }
  }

  lemma {:induction false} CountsAgree(q: seq<MonitorInterval>)
    ensures AvailableCount(q) >= UsefulCount(q) <==> AllAvailable(q)
  {
    if q != [] {
      CountsAgree(q[..|q| - 1]);
      assert forall i :: 0 <= i < |q| - 1 ==> q[..|q| - 1][i] == q[i];
    }
  }

  lemma {:induction false} CountFirst(q: seq<MonitorInterval>)
    requires UsefulCount(q) > 0
    ensures q != [] && UsefulCount(q[1..]) == UsefulCount(q) - if q[0].isUseful then 1 else 0
  {
    var n := |q| - 1;
    if UsefulCount(q[..n]) > 0 {
      CountFirst(q[..n]);
      assert q[1..][..n - 1] == q[..n][1..];
    } else if n > 0 {
      NoneUseful(q[..n]);
      CountNone(q[1..n]);
      assert q[1..][..n - 1] == q[1..n];
    }
  }

  lemma {:induction false} NoneUseful(q: seq<MonitorInterval>)
    requires UsefulCount(q) == 0
    ensures forall i :: 0 <= i < |q| ==> !q[i].isUseful
  {
    if q != [] {
      NoneUseful(q[..|q| - 1]);
      assert forall i :: 0 <= i < |q| - 1 ==> q[..|q| - 1][i] == q[i];
    }
  }

  lemma {:induction false} CountNone(q: seq<MonitorInterval>)
    requires forall i :: 0 <= i < |q| ==> !q[i].isUseful
    ensures UsefulCount(q) == 0
  {
    if q != [] {
      CountNone(q[..|q| - 1]);
    }
  }

  ghost predicate AllAvailable(q: seq<MonitorInterval>) {
    forall i :: 0 <= i < |q| && q[i].isUseful ==> q[i].Available()
  }

  /** The queue after a packet has been sent in its last interval. */
  function Sending(q: seq<MonitorInterval>, time: int, p: Packet): seq<MonitorInterval>
    requires q != []
  {
    q[|q| - 1 := WithPacket(q[|q| - 1], time, p)]
  }

  // ---------- sending keeps the properties ----------

  lemma CountAppend(q: seq<MonitorInterval>, v: MonitorInterval)
    ensures UsefulCount(q + [v]) == UsefulCount(q) + if v.isUseful then 1 else 0
    ensures Useful(q + [v]) == Useful(q) + if v.isUseful then [v] else []
  {
    assert (q + [v])[..|q|] == q;
  }

  lemma CountLast(q: seq<MonitorInterval>, v: MonitorInterval)
    requires q != [] && v.isUseful == q[|q| - 1].isUseful
    ensures UsefulCount(q[|q| - 1 := v]) == UsefulCount(q)
  {
    var n := |q| - 1;
    assert q[n := v] == q[..n] + [v];
    assert q == q[..n] + [q[n]];
    CountAppend(q[..n], v);
    CountAppend(q[..n], q[n]);
  }

  /** A packet that joins the last interval. */
  lemma SentKeeps(q: seq<MonitorInterval>, u: nat, time: int, p: Packet, flight: map<int, nat>, pending: seq<Packet>, next: int, now: int)
    requires q != [] && Sound(q, u, flight, pending, next, now)
    requires now <= time && next <= p.number && p.bytes > 0
    ensures Sound(Sending(q, time, p), u, flight[p.number := p.bytes], pending, p.number + 1, time)
  {
    hide Conserved, Shaped, Timed;
    var n := |q| - 1;
    CountLast(q, WithPacket(q[n], time, p));
    SentConserved(q, time, p, flight, pending, next);
    if q[n].isUseful {
      CountedAtMostSent(q, n, flight, pending);
    }
    SentTimed(q, u, time, p, now, next);
  }

  lemma SentTimed(q: seq<MonitorInterval>, u: nat, time: int, p: Packet, now: int, next: int)
    requires q != [] && Shaped(q, u) && Timed(q, now) && Ranged(q, next) && now <= time && p.bytes > 0
    requires q[|q| - 1].isUseful ==> q[|q| - 1].bytesAcked + q[|q| - 1].bytesLost <= q[|q| - 1].bytesSent
    ensures Shaped(Sending(q, time, p), u) && Timed(Sending(q, time, p), time)
  {
  }

  lemma CountedAtMostSent(q: seq<MonitorInterval>, i: nat, flight: map<int, nat>, pending: seq<Packet>)
    requires Conserved(q, flight, pending) && i < |q| && q[i].isUseful
    ensures q[i].bytesAcked + q[i].bytesLost <= q[i].bytesSent
  {
  }

  lemma SentConserved(q: seq<MonitorInterval>, time: int, p: Packet, flight: map<int, nat>, pending: seq<Packet>, next: int)
    requires q != [] && Ranged(q, next) && Conserved(q, flight, pending) && Past(flight, pending, next) && next <= p.number
    ensures Conserved(Sending(q, time, p), flight[p.number := p.bytes], pending)
  {
    var n, r, f := |q| - 1, Sending(q, time, p), flight[p.number := p.bytes];
    forall i | 0 <= i < |r| && r[i].isUseful ensures Balanced(r[i], f, pending) {
      FlightWith(flight, p.number, p.bytes, r[i].firstNo, r[i].lastNo);
      if i == n {
        FlightStretch(flight, q[n].firstNo, q[n].lastNo, p.number);
        ListedStretch(pending, q[n].firstNo, q[n].lastNo, p.number);
      }
    }
  }

  lemma {:induction false} ListedStretch(ps: seq<Packet>, lo: int, mid: int, hi: int)
    requires mid <= hi && forall i :: 0 <= i < |ps| ==> ps[i].number <= mid
    ensures ListedIn(ps, lo, hi) == ListedIn(ps, lo, mid)
    ensures mid < lo ==> ListedIn(ps, lo, hi) == 0
  {
    if ps != [] {
      var front := ps[..|ps| - 1];
      assert forall i :: 0 <= i < |front| ==> front[i] == ps[i];
      ListedStretch(front, lo, mid, hi);
    }
  }

  /** A packet that opens a new interval at the end of a queue that may take one. */
  lemma OpenKeeps(q: seq<MonitorInterval>, u: nat, rate: real, isUseful: bool, time: int, p: Packet,
                  flight: map<int, nat>, pending: seq<Packet>, next: int, now: int)
    requires Sound(q, u, flight, pending, next, now)
    requires now <= time && next <= p.number && p.bytes > 0
    requires u > 0 ==> q[|q| - 1].isUseful && q[|q| - 1].hasEnough
    requires u == 0 && q != [] ==> isUseful
    ensures Sound(Sending(q + [Fresh(rate, isUseful)], time, p), u + if isUseful then 1 else 0,
                  flight[p.number := p.bytes], pending, p.number + 1, time)
  {
    hide Conserved, Shaped, Timed, Ranged, Completed, Past, UsefulCount;
    var v := WithPacket(Fresh(rate, isUseful), time, p);
    assert Sending(q + [Fresh(rate, isUseful)], time, p) == q + [v];
    CountAppend(q, v);
    OpenConserved(q, v, p, flight, pending, next);
    OpenShaped(q, u, v);
    OpenTimed(q, v, now, time);
    OpenRanged(q, u, v, p, flight, pending, next);
  }

  lemma OpenRanged(q: seq<MonitorInterval>, u: nat, v: MonitorInterval, p: Packet, flight: map<int, nat>, pending: seq<Packet>, next: int)
    requires Shaped(q, u) && Ranged(q, next) && Completed(q) && Past(flight, pending, next) && next <= p.number
    requires u > 0 ==> q[|q| - 1].isUseful && q[|q| - 1].hasEnough
    requires v.firstNo == v.lastNo == p.number && v.bytesSent > 0
    ensures Ranged(q + [v], p.number + 1) && Completed(q + [v]) && Past(flight[p.number := p.bytes], pending, p.number + 1)
  {
    assert forall i :: 0 <= i < |q| ==> (q + [v])[i] == q[i];
  }

  lemma OpenConserved(q: seq<MonitorInterval>, v: MonitorInterval, p: Packet, flight: map<int, nat>, pending: seq<Packet>, next: int)
    requires Ranged(q, next) && Conserved(q, flight, pending) && Past(flight, pending, next) && next <= p.number
    requires v.firstNo == v.lastNo == p.number && v.bytesSent == p.bytes && v.bytesAcked == v.bytesLost == 0
    ensures Conserved(q + [v], flight[p.number := p.bytes], pending)
  {
    var r, f := q + [v], flight[p.number := p.bytes];
    forall i | 0 <= i < |r| && r[i].isUseful ensures Balanced(r[i], f, pending) {
      FlightWith(flight, p.number, p.bytes, r[i].firstNo, r[i].lastNo);
      if i == |q| {
        NoneFlying(flight, p.number);
        ListedStretch(pending, p.number, p.number - 1, p.number);
      }
    }
  }

  lemma NoneFlying(flight: map<int, nat>, n: int)
    requires n !in flight
    ensures FlightIn(flight, n, n) == 0
  {
    assert FlightIn(flight, n, n - 1) == 0;
  }

  lemma OpenShaped(q: seq<MonitorInterval>, u: nat, v: MonitorInterval)
    requires Shaped(q, u)
    requires u > 0 ==> q[|q| - 1].isUseful
    requires u == 0 && q != [] ==> v.isUseful
    ensures Shaped(q + [v], u + if v.isUseful then 1 else 0)
  {
  }

  lemma OpenTimed(q: seq<MonitorInterval>, v: MonitorInterval, now: int, time: int)
    requires Timed(q, now) && now <= time && v.firstTime == v.lastTime == time && Sampled(v) && !v.Available()
    ensures Timed(q + [v], time)
  {
  }

  // ---------- reports keep the properties ----------

  lemma AdvancedSame(v: MonitorInterval, losses: seq<Packet>, pending: seq<Packet>, trusted: seq<bool>)
    requires |trusted| == |pending|
    ensures SameSending(v, Advanced(v, losses, pending, trusted))
    ensures Sampled(v) ==> Sampled(Advanced(v, losses, pending, trusted))
    ensures !v.isUseful ==> Advanced(v, losses, pending, trusted) == v
  {
    LoseAllSums(v, losses);
    AckAllSums(LoseAll(v, losses), pending, trusted);
  }

  /** A report that spoils no interval keeps everything, with the packets it names landed. */
  lemma EventKeeps(q: seq<MonitorInterval>, u: nat, flight: map<int, nat>, pending: seq<Packet>, next: int, now: int,
                   acks: seq<Packet>, losses: seq<Packet>, trusted: seq<bool>)
    requires Sound(q, u, flight, pending, next, now) && |trusted| == |pending|
    requires Reported(losses, flight) && Reported(acks, Landed(flight, losses))
    requires NoneSpoilt(q, AdvancedAll(q, losses, pending, trusted))
    ensures Sound(AdvancedAll(q, losses, pending, trusted), u, Landed(Landed(flight, losses), acks), acks, next, now)
  {
    hide Advanced, Spoilt, NoneSpoilt, Sampled;
    var r := AdvancedAll(q, losses, pending, trusted);
    CountSame(q, losses, pending, trusted);
    forall i | 0 <= i < |q| ensures SameSending(q[i], r[i]) && (Sampled(q[i]) ==> Sampled(r[i])) {
      AdvancedSame(q[i], losses, pending, trusted);
    }
    forall i | 0 <= i < |r| && r[i].isUseful ensures Balanced(r[i], Landed(Landed(flight, losses), acks), acks) {
      AdvanceKeepsBalance(q[i], flight, pending, trusted, losses, acks);
    }
    TimedStays(q, r, now);
    LandedPast(flight, losses, acks, pending, next);
  }

  lemma TimedStays(q: seq<MonitorInterval>, r: seq<MonitorInterval>, now: int)
    requires Timed(q, now) && NoneSpoilt(q, r)
    requires forall i :: 0 <= i < |q| ==> SameSending(q[i], r[i]) && (Sampled(q[i]) ==> Sampled(r[i]))
    ensures Timed(r, now)
  {
    hide Sampled;
  }

  lemma LandedPast(flight: map<int, nat>, losses: seq<Packet>, acks: seq<Packet>, pending: seq<Packet>, next: int)
    requires Past(flight, pending, next) && Reported(acks, Landed(flight, losses))
    ensures Past(Landed(Landed(flight, losses), acks), acks, next)
    ensures Past(Landed(Landed(flight, losses), acks), pending, next)
  {
    forall n ensures n in Landed(Landed(flight, losses), acks) ==> n < next {
      LandedKeys(Landed(flight, losses), acks, n);
      LandedKeys(flight, losses, n);
    }
    forall i | 0 <= i < |acks| ensures acks[i].number < next {
      LandedKeys(flight, losses, acks[i].number);
    }
  }

  /** A report that finds no useful interval is skipped altogether. */
  lemma IdleKeeps(q: seq<MonitorInterval>, flight: map<int, nat>, pending: seq<Packet>, next: int, now: int,
                  acks: seq<Packet>, losses: seq<Packet>)
    requires Sound(q, 0, flight, pending, next, now)
    requires Reported(losses, flight) && Reported(acks, Landed(flight, losses))
    ensures Sound(q, 0, Landed(Landed(flight, losses), acks), pending, next, now)
  {
    NoneUseful(q);
    LandedPast(flight, losses, acks, pending, next);
  }

  /** Removing everything up to the last useful interval leaves the last interval when it is
      useless, and nothing otherwise; either way the queue is sound again. */
  lemma RemoveKeeps(q: seq<MonitorInterval>, u: nat, flight: map<int, nat>, pending: seq<Packet>, next: int, now: int,
                    r: seq<MonitorInterval>, k: nat, flight': map<int, nat>, pending': seq<Packet>)
    requires Sound(q, u, flight, pending, next, now) && u > 0 && Past(flight', pending', next)
    requires SameKinds(q, r)
    requires k <= |r| && UsefulCount(r[k..]) == 0 && (k > 0 ==> r[k - 1].isUseful)
    ensures r[k..] == (if q[|q| - 1].isUseful then [] else [q[|q| - 1]])
    ensures Sound(r[k..], 0, flight', pending', next, now)
  {
    hide Sampled;
    NoneUseful(r[k..]);
    assert forall i :: k <= i < |r| ==> r[i] == r[k..][i - k];
    var last := Lead(q) + u - 1;
    assert q[last].isUseful;
    assert k > last;
    assert k == last + 1;
  }

  /** Every interval but those that can end the queue is complete, and the assertions of
      `OnCongestionEvent` and `CalculateUtility` hold when the utilities are handed over. */
  lemma ReadyIntervals(q: seq<MonitorInterval>, u: nat, flight: map<int, nat>, pending: seq<Packet>, next: int, now: int)
    requires Sound(q, u, flight, pending, next, now) && AllAvailable(q)
    ensures AvailableCount(q) == |Useful(q)| == u
    ensures forall i :: 0 <= i < |q| && q[i].isUseful ==> q[i].firstTime != q[i].lastTime && q[i].hasEnough
  {
    CountsAgree(q);
  }

  /** `CanSend` never blocks. */
  lemma NeverBlocks(q: seq<MonitorInterval>, u: nat)
    requires Shaped(q, u)
    ensures 0 <= |q| - u <= 2
  {
  }

  /** Marking the last interval as extended changes nothing else. */
  lemma ExtendKeeps(q: seq<MonitorInterval>, u: nat, flight: map<int, nat>, pending: seq<Packet>, next: int, now: int)
    requires Sound(q, u, flight, pending, next, now) && q != []
    ensures Sound(q[|q| - 1 := q[|q| - 1].(extended := true)], u, flight, pending, next, now)
  {
    hide Conserved, Timed, Past, UsefulCount;
    var v := q[|q| - 1].(extended := true);
    CountLast(q, v);
    ExtendBalanced(q, flight, pending, now);
  }

  lemma ExtendBalanced(q: seq<MonitorInterval>, flight: map<int, nat>, pending: seq<Packet>, now: int)
    requires Conserved(q, flight, pending) && Timed(q, now) && q != []
    ensures Conserved(q[|q| - 1 := q[|q| - 1].(extended := true)], flight, pending)
    ensures Timed(q[|q| - 1 := q[|q| - 1].(extended := true)], now)
  {
    var r := q[|q| - 1 := q[|q| - 1].(extended := true)];
    forall i | 0 <= i < |r| && r[i].isUseful ensures Balanced(r[i], flight, pending) {
      assert Balanced(q[i], flight, pending);
    }
    assert forall i :: 0 <= i < |q| ==> r[i] == q[i] || (i == |q| - 1 && r[i] == q[i].(extended := true));
  }
}
