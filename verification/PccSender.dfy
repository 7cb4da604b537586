/** The Vivace sender (`PccSender` and `PccVivaceSender`) on top of the interval queue.  Inputs stand
    for what the model does not compute: the utilities, the random choice of a first direction,
    the power that amplifies a change, and whether the round-trip time counts as inflated.  The
    utility tag can change between any two calls. */
module PccSenders {
  import opened MonitorIntervals
  import opened MonitorQueues
  import opened RateVotes
  import opened RateControl

  /** Microseconds. */
  const INITIAL_RTT: real := 100000.0
  const MIN_RELIABILITY_RATIO: real := 0.8

  /** How an event ends: with a valid sender, at the comparison of equal rates in
      `ComputeRateChange`, at the division by a round-trip time of zero, or at the comparison of the
      size of a decided round with the one that the utility tag asks for. */
  datatype Outcome = Done | EqualRates | NoRoundTrip | WrongSize

  /** The names of utility functions. */
  datatype UtilityTag =
    | Allegro | Vivace | Proportional | ScavengerTag | HybridAllegro | HybridVivace | RateLimiter | Hybrid | Test | OtherTag
  {
    predicate TakesParameters() {
      !Allegro? && !Vivace? && !OtherTag?
    }
  }

  /** What a completed round starts from and leaves. */
  datatype Control = Control(mode: Mode, rate: real, direction: Direction, rounds: nat, allowance: nat, latest: UtilityInfo)

  class PccVivaceSender {
    const queue: PccMonitorIntervalQueue
    var tag: UtilityTag
    var parameters: seq<real>
    /** The effective utility tag is the one of a scavenger. */
    var scavenger: bool
    var mode: Mode
    var sendingRate: real
    var hasSeenValidRtt: bool
    var monitorDuration: real
    var direction: Direction
    var rounds: nat
    var latestRtt: real
    var minRtt: real
    var avgRtt: real
    var latestInfo: UtilityInfo
    var allowance: nat
    ghost var centre: real
    ghost var skewed: bool

    ghost function Now(): Control
      reads this
    {
      Control(mode, sendingRate, direction, rounds, allowance, latestInfo)
    }

    /** The round-trip times have been set by the first report. */
    ghost predicate Measured()
      reads this
    {
      && (hasSeenValidRtt ==> avgRtt > 0.0)
      && (!hasSeenValidRtt ==> avgRtt == 0.0 && latestRtt == 0.0 && mode == Starting)
    }

    ghost predicate Controlled()
      reads this
    {
      Bounded(mode, sendingRate, rounds, allowance, latestInfo, skewed) && Measured()
    }

    ghost predicate Valid()
      reads this, queue
    {
      && queue.Valid() && Controlled()
      && Paced(mode, sendingRate, direction, centre, Rates(queue.intervals), TailUseful(queue.intervals))
      && queue.numUseful <= MaxUseful(mode)
      && (!hasSeenValidRtt ==> queue.numUseful == 0)
    }

    /** The round is no longer than the present utility tag allows. */
    ghost predicate WithinLimit()
      reads this, queue
    {
      queue.numUseful <= Limit(mode, scavenger)
    }

    /** An interval that is not useful runs at the centre of its round. */
    ghost predicate AtCentre()
      reads this, queue
    {
      Steady(mode, sendingRate, centre, TailUseful(queue.intervals))
    }

    /** The rate starts above the minimum for an initial window of at least five packets. */
    constructor (packets: nat)
      ensures Valid() <==> packets >= 5
      ensures WithinLimit() && AtCentre()
      ensures fresh(queue) && queue.Valid() && queue.intervals == [] && queue.pending == []
      ensures Now() == Control(Starting, packets as real * 112000.0, Increase, 1, 0, UtilityInfo(0.0, 0.0)) && !hasSeenValidRtt && minRtt == 0.0
      ensures tag == Allegro && parameters == [] && !scavenger
      ensures queue.flight == map[] && queue.nextNo == queue.now == 0
    {
      tag, parameters, scavenger := Allegro, [], false;
      queue := new PccMonitorIntervalQueue();
      mode, direction, rounds, allowance := Starting, Increase, 1, 0;
      sendingRate := (packets * 1400) as real * 80.0;
      hasSeenValidRtt := false;
      monitorDuration, latestRtt, minRtt, avgRtt := 0.0, 0.0, 0.0, 0.0;
      latestInfo := UtilityInfo(0.0, 0.0);
      centre, skewed := 0.0, false;
    }

    lemma UsefulCounted()
      requires Valid()
      ensures queue.numUseful == UsefulCount(queue.intervals) == |Rates(queue.intervals)| <= MaxUseful(mode)
      ensures queue.numUseful == 0 ==> !TailUseful(queue.intervals)
    {
      hide Sound, Bounded, Paced, UsefulCount, Rates;
      QueueFacts(queue.intervals, queue.numUseful, queue.flight, queue.pending, queue.nextNo, queue.now);
    }

    // ---------- the utility tag ----------

    /** `SetUtilityTag`, at any time.  It can make a round too long, never break anything else. */
    method SetUtilityTag(name: UtilityTag)
      requires Valid()
      modifies this`tag, this`scavenger
      ensures Valid() && tag == name && scavenger == name.ScavengerTag?
      ensures WithinLimit() <==> !(name.ScavengerTag? && mode == Probing && queue.numUseful > 4)
    {
      tag := name;
      scavenger := name.ScavengerTag?;
    }

    /** `SetUtilityParameter` */
    method SetUtilityParameter(value: real)
      requires Valid()
      modifies this`parameters
      ensures Valid() && parameters == if tag.TakesParameters() then old(parameters) + [value] else old(parameters)
    {
      if tag.TakesParameters() {
        parameters := parameters + [value];
      }
    }

    /** `GetUtilityParameter(0)`: zero while there is none. */
    function SwitchingRate(): real
      reads this
    {
      if parameters == [] then 0.0 else parameters[0]
    }

    // ---------- sending ----------

    /** A new interval may be opened. */
    ghost predicate MayOpen()
      reads this, queue
    {
      && (queue.numUseful > 0 ==> TailUseful(queue.intervals) && queue.intervals[|queue.intervals| - 1].hasEnough)
      && (queue.intervals != [] ==> latestRtt != 0.0)
    }

    /** The last interval is useful, has enough samples and has lasted long enough at this time. */
    ghost predicate TailDone(time: int)
      reads this, queue
    {
      queue.intervals != [] && LongEnough(queue.intervals[|queue.intervals| - 1], time, monitorDuration)
    }

    /** It is time for another interval. */
    ghost predicate NewIsDue(time: int)
      reads this, queue
    {
      || queue.intervals == []
      || (latestRtt != 0.0
          && (queue.numUseful == 0 || (TailDone(time) && !Extendable(queue.intervals[|queue.intervals| - 1]))))
    }

    /** The last interval is done, but few of its samples are reliable, so it gets more time, once. */
    ghost predicate ExtensionIsDue(time: int)
      reads this, queue
    {
      && latestRtt != 0.0 && queue.numUseful > 0
      && TailDone(time) && Extendable(queue.intervals[|queue.intervals| - 1])
    }

    /** In figures: there is no interval; or there is a round-trip time, and no interval is useful or the
        last one is, has lasted long enough, and has four reliable samples.  More than four fifths of its
        samples are reliable or it had its second chance, or else it is to be given that. */
    ghost predicate DueByTime(time: int, again: bool)
      reads this, queue
    {
      var n := |queue.intervals|;
      if n == 0 || latestRtt == 0.0 || queue.numUseful == 0 then !again && (n == 0 || latestRtt != 0.0)
      else
        var v := queue.intervals[n - 1];
        && v.isUseful && v.reliable >= 4 && (time - v.firstTime) as real >= monitorDuration
        && (again <==> !v.extended && 5 * v.reliable <= 4 * v.samples)
    }

    lemma DueMeans(time: int)
      requires Valid()
      ensures NewIsDue(time) <==> DueByTime(time, false)
      ensures ExtensionIsDue(time) <==> DueByTime(time, true)
    {
      hide Shaped, Ranged, Conserved, Completed, Past, UsefulCount, Paced, Bounded;
      if queue.intervals != [] {
        TailSampled();
      }
    }

    /** `CreateNewInterval`.  The queue is asked for its last interval only when it has one. */
    method CreateNewInterval(time: int) returns (create: bool)
      requires Valid()
      modifies this`monitorDuration, queue`intervals
      ensures queue.Valid()
      ensures create <==> old(NewIsDue(time))
      ensures create ==> MayOpen()
      ensures create <==> old(DueByTime(time, false))
      ensures old(DueByTime(time, true)) ==>
                && queue.intervals != [] && |queue.intervals| == |old(queue.intervals)| && monitorDuration == 2.0 * old(monitorDuration)
                && queue.intervals[|queue.intervals| - 1] == old(queue.intervals[|queue.intervals| - 1]).(extended := true)
      ensures queue.intervals == if old(ExtensionIsDue(time)) then Extended(old(queue.intervals)) else old(queue.intervals)
      ensures monitorDuration == if old(ExtensionIsDue(time)) then 2.0 * old(monitorDuration) else old(monitorDuration)
    {
      hide Sound, Paced, Bounded, Stepped;
      QueueFacts(queue.intervals, queue.numUseful, queue.flight, queue.pending, queue.nextNo, queue.now);
      DueMeans(time);
      if queue.intervals == [] {
        return true;
      }
      if latestRtt == 0.0 {
        return false;
      }
      if queue.numUseful == 0 {
        return true;
      }
      var current := queue.intervals[|queue.intervals| - 1];
      if !current.isUseful {
        return false;
      }
      if !current.hasEnough || (time - current.firstTime) as real < monitorDuration {
        return false;
      }
      TailSampled();
      Ratio(current.reliable, current.samples);
      if current.reliable as real / current.samples as real > MIN_RELIABILITY_RATIO {
        return true;
      } else if current.extended {
        return true;
      } else {
        ExtendKeeps(queue.intervals, queue.numUseful, queue.flight, queue.pending, queue.nextNo, queue.now);
        monitorDuration := monitorDuration * 2.0;
        queue.intervals := Extended(queue.intervals);
        return false;
      }
    }

    lemma TailSampled()
      requires queue.Valid() && queue.intervals != []
      ensures Sampled(queue.intervals[|queue.intervals| - 1])
    {
    }

    ghost predicate UsefulIsNext()
      reads this, queue
    {
      avgRtt != 0.0 && queue.numUseful < Limit(mode, scavenger)
    }

    /** `CreateUsefulInterval` */
    method CreateUsefulInterval() returns (useful: bool)
      requires Measured()
      ensures useful <==> UsefulIsNext()
      ensures useful <==> avgRtt != 0.0 && queue.numUseful < if mode != Probing then 1 else if scavenger then 4 else 6
    {
      if avgRtt == 0.0 {
        assert mode == Starting;
        return false;
      }
      var maxUseful := if mode == Probing then 2 * Groups(scavenger) else 1;
      return queue.numUseful < maxUseful;
    }

    /** `PacingRate`: the rate of the last interval. */
    method PacingRate() returns (rate: real)
      requires Valid()
      ensures rate == if queue.intervals == [] then sendingRate else queue.intervals[|queue.intervals| - 1].rate
      ensures mode == Probing && TailUseful(queue.intervals) ==> rate == sendingRate
    {
      LastRate(queue.intervals);
      rate := if queue.intervals == [] then sendingRate else queue.intervals[|queue.intervals| - 1].rate;
    }

    /** `RestoreCentralSendingRate`, in PROBING: leaves the step of the last interval. */
    method RestoreCentralSendingRate()
      requires mode == Probing && queue.intervals != []
      requires Stepped(mode, sendingRate, direction, centre, TailUseful(queue.intervals))
      modifies this`sendingRate
      ensures sendingRate == Home(old(sendingRate), centre, TailUseful(queue.intervals))
    {
      TiltUndone(centre);
      if queue.intervals[|queue.intervals| - 1].isUseful {
        if direction == Increase {
          sendingRate := sendingRate * (1.0 / (1.0 + PROBING_STEP));
        } else {
          sendingRate := sendingRate * (1.0 / (1.0 - PROBING_STEP));
        }
      }
    }

    /** `MaybeSetSendingRate`; `coin` is the random bit that picks the first direction of a group. */
    method MaybeSetSendingRate(coin: bool)
      requires queue.numUseful == |Rates(queue.intervals)|
      requires queue.numUseful > 0 ==> TailUseful(queue.intervals)
      requires Paced(mode, sendingRate, direction, centre, Rates(queue.intervals), TailUseful(queue.intervals))
      modifies this`sendingRate, this`direction
      ensures NextRate(old(Now()), Now(), centre, queue.numUseful, Limit(mode, scavenger), coin)
    {
      hide Alternates, Rates;
      if mode != Probing || (queue.numUseful == 2 * Groups(scavenger) && !queue.intervals[|queue.intervals| - 1].isUseful) {
        return;
      }
      if queue.numUseful != 0 {
        RestoreCentralSendingRate();
        if queue.numUseful == 2 * Groups(scavenger) {
          return;
        }
      }
      if queue.numUseful % 2 == 0 {
        direction := if coin then Increase else Decrease;
      } else {
        direction := if direction == Increase then Decrease else Increase;
      }
      if direction == Increase {
        sendingRate := sendingRate * (1.0 + PROBING_STEP);
      } else {
        sendingRate := sendingRate * (1.0 - PROBING_STEP);
      }
    }

    /** Opens an interval when it is time for one; useful or not, it runs at the sending rate
        (`PccVivaceSender::GetSendingRateForNonUsefulInterval`). */
    method OpenInterval(time: int, number: int, bytes: nat, coin: bool)
      requires Valid() && MayOpen() && queue.now <= time && queue.nextNo <= number && bytes > 0
      modifies this`sendingRate, this`direction, this`monitorDuration, queue
      ensures Valid() && queue.pending == old(queue.pending)
      ensures queue.intervals ==
              Sending(old(queue.intervals) + [Fresh(sendingRate, old(UsefulIsNext()))], time, Packet(number, bytes))
      ensures queue.flight == old(queue.flight)[number := bytes] && queue.nextNo == number + 1 && queue.now == time
      ensures NextRate(old(Now()), Now(), centre, old(queue.numUseful), Limit(mode, scavenger), coin) && monitorDuration == minRtt
      ensures old(WithinLimit()) ==> WithinLimit() && (old(AtCentre()) ==> AtCentre())
    {
      hide Sound, Paced, Bounded, Rates, UsefulCount, NextRate, Sending, MaxUseful, Steady;
      ghost var q, u := queue.intervals, queue.numUseful;
      QueueFacts(q, u, queue.flight, queue.pending, queue.nextNo, queue.now);
      MaybeSetSendingRate(coin);
      monitorDuration := minRtt;
      var isUseful := CreateUsefulInterval();
      NextRateFacts(old(Now()), Now(), centre, u, Limit(mode, scavenger), coin);
      Opens(old(Now()), Now(), centre, skewed, q, u, scavenger, isUseful, coin, time, Packet(number, bytes));
      OpenKeeps(q, u, sendingRate, isUseful, time, Packet(number, bytes), queue.flight, queue.pending, queue.nextNo, queue.now);
      queue.EnqueueNewMonitorInterval(sendingRate, isUseful);
      queue.OnPacketSent(time, number, bytes);
    }

    /** `OnPacketSent` */
    method OnPacketSent(time: int, number: int, bytes: nat, coin: bool)
      requires Valid() && queue.now <= time && queue.nextNo <= number && bytes > 0
      modifies this`sendingRate, this`direction, this`monitorDuration, queue
      ensures Valid() && queue.pending == old(queue.pending)
      ensures old(NewIsDue(time)) ==>
                queue.intervals ==
                Sending(old(queue.intervals) + [Fresh(sendingRate, old(UsefulIsNext()))], time, Packet(number, bytes))
      ensures !old(NewIsDue(time)) ==>
                old(queue.intervals) != []
                && queue.intervals ==
                   Sending(if old(ExtensionIsDue(time)) then Extended(old(queue.intervals)) else old(queue.intervals),
                           time, Packet(number, bytes))
      ensures queue.flight == old(queue.flight)[number := bytes] && queue.nextNo == number + 1 && queue.now == time
      ensures if old(NewIsDue(time)) then
                NextRate(old(Now()), Now(), centre, old(queue.numUseful), Limit(mode, scavenger), coin) && monitorDuration == minRtt
              else
                Now() == old(Now()) && monitorDuration == if old(ExtensionIsDue(time)) then 2.0 * old(monitorDuration) else old(monitorDuration)
      ensures old(WithinLimit()) ==> WithinLimit() && (old(AtCentre()) ==> AtCentre())
    {
      hide Sound, Paced, Bounded, Rates, UsefulCount;
      ghost var q := queue.intervals;
      QueueFacts(q, queue.numUseful, queue.flight, queue.pending, queue.nextNo, queue.now);
      var create := CreateNewInterval(time);
      if create {
        OpenInterval(time, number, bytes, coin);
      } else {
        ghost var r := queue.intervals;
        RatesExtended(q, r);
        SentRates(r, time, Packet(number, bytes));
        SentKeeps(r, queue.numUseful, time, Packet(number, bytes), queue.flight, queue.pending, queue.nextNo, queue.now);
        queue.OnPacketSent(time, number, bytes);
      }
    }

    /** `CanSend` */
    method CanSend() returns (can: bool)
      requires Valid()
      ensures can
    {
      NeverBlocks(queue.intervals, queue.numUseful);
      return !(|queue.intervals| - queue.numUseful > 4);
    }

    // ---------- decisions ----------

    /** What a decision starts from: the rates of the round agree with the queue. */
    ghost predicate Deciding(infos: seq<UtilityInfo>)
      reads this, queue
    {
      && Controlled() && hasSeenValidRtt && 0 < |infos| <= MaxUseful(mode) && queue.intervals != []
      && Paced(mode, sendingRate, direction, centre, InfoRates(infos), TailUseful(queue.intervals))
    }

    /** What it leaves: the queue is about to lose all useful intervals. */
    ghost predicate Settled()
      reads this
    {
      Controlled() && (mode == Probing ==> centre > 0.0 && sendingRate == centre)
    }

    /** The effective utility of a hybrid sender at a rate. */
    ghost function Retagged(rate: real, was: bool): bool
      reads this
    {
      if tag.Hybrid? then rate * (1.0 + PROBING_STEP) / MEGABIT > SwitchingRate() else was
    }

    /** A hybrid sender is a scavenger exactly above its switching rate. */
    lemma RetaggedMeans(rate: real, was: bool)
      ensures tag.Hybrid? ==> (Retagged(rate, was) <==> 21.0 * rate > 20.0 * MEGABIT * if |parameters| == 0 then 0.0 else parameters[0])
      ensures !tag.Hybrid? ==> Retagged(rate, was) == was
    {
      var r := rate * (1.0 + PROBING_STEP);
      assert r / MEGABIT > SwitchingRate() <==> r > SwitchingRate() * MEGABIT;
    }

    /** The effective utility of a hybrid sender follows its rate when PROBING begins. */
    method Retag()
      modifies this`scavenger
      ensures scavenger == Retagged(sendingRate, old(scavenger))
    {
      if tag.Hybrid? {
        scavenger := sendingRate * (1.0 + PROBING_STEP) / MEGABIT > SwitchingRate();
      }
    }

    /** `PccSender::EnterProbing`, from STARTING or in PROBING without a decision. */
    method EnterProbingPlain()
      requires mode != DecisionMade && Controlled() && hasSeenValidRtt
      requires mode == Probing ==> queue.intervals != []
      requires Stepped(mode, sendingRate, direction, centre, TailUseful(queue.intervals))
      modifies this`mode, this`sendingRate, this`rounds, this`scavenger, this`centre
      ensures Settled() && mode == Probing
      ensures old(mode) == Probing ==>
                && sendingRate == Home(old(sendingRate), old(centre), TailUseful(queue.intervals))
                && rounds == old(rounds) + 1 && scavenger == old(scavenger)
      ensures old(mode) == Starting ==>
                sendingRate == old(sendingRate) * 0.5 && rounds == 1 && scavenger == Retagged(sendingRate, old(scavenger))
    {
      if mode == Starting {
        sendingRate := sendingRate * 0.5;
      } else {
        RestoreCentralSendingRate();
      }
      centre := sendingRate;
      if mode == Probing {
        rounds := rounds + 1;
        return;
      }
      mode := Probing;
      rounds := 1;
      Retag();
    }

    /** `ComputeRateChange`.  It fails when the two rates it compares are equal. */
    method ComputeRateChange(infos: seq<UtilityInfo>, amplifier: real) returns (ok: bool, change: real)
      requires mode != Starting && infos != [] && (mode == Probing ==> |infos| >= 2 * Groups(scavenger))
      modifies this`allowance
      ensures ok <==> if mode == Probing then infos[0].rate != infos[1].rate else infos[0].rate != latestInfo.rate
      ensures ok ==>
                var raw := AskedChange(mode, infos, Groups(scavenger), direction, latestInfo, amplifier);
                var from := if mode == Probing then 0 else old(allowance);
                change == Capped(raw, sendingRate, from) && allowance == NextAllowance(raw, sendingRate, from)
      ensures ok ==>
                var raw := AskedChange(mode, infos, Groups(scavenger), direction, latestInfo, amplifier);
                var most := MaxChange(sendingRate, if mode == Probing then 0 else old(allowance));
                && (MIN_CHANGE <= raw <= most ==> change == raw) && (raw > most >= MIN_CHANGE ==> change == most)
                && (raw <= MIN_CHANGE || most <= MIN_CHANGE ==> change == MIN_CHANGE)
    {
      hide RawChange, Capped, NextAllowance, Support;
      var deltaRate, deltaUtility;
      if mode == Probing {
        deltaRate := Gap(infos[0].rate, infos[1].rate);
        deltaUtility := SumSupport(infos, Groups(scavenger), direction);
        deltaUtility := deltaUtility / Groups(scavenger) as real;
      } else {
        deltaRate := Gap(infos[0].rate, latestInfo.rate);
        deltaUtility := Gap(infos[0].utility, latestInfo.utility);
      }
      if deltaRate == 0.0 {
        return false, 0.0;
      }
      ok := true;
      change := Amplify(deltaUtility, deltaRate, amplifier);
      CappedMeans(change, sendingRate, allowance);
      change := Cap(change);
    }

    /** The gradient of the utility as a rate, amplified in DECISION_MADE; PROBING resets the allowance. */
    method Amplify(deltaUtility: real, deltaRate: real, amplifier: real) returns (change: real)
      requires deltaRate != 0.0
      modifies this`allowance
      ensures change == RawChange(deltaUtility, deltaRate, if mode == DecisionMade then amplifier else 1.0)
      ensures allowance == if mode == DecisionMade then old(allowance) else 0
    {
      var gradient := MEGABIT * deltaUtility / deltaRate;
      change := gradient * MEGABIT;
      if mode == DecisionMade {
        change := change * amplifier;
      } else {
        allowance := 0;
      }
    }

    /** Holds a change to the allowed share of the rate, and adapts the allowance. */
    method Cap(raw: real) returns (change: real)
      modifies this`allowance
      ensures change == Capped(raw, sendingRate, old(allowance)) && allowance == NextAllowance(raw, sendingRate, old(allowance))
    {
      change := raw;
      var maxChange := sendingRate * (MAX_STEP + STEP_INCREMENT * allowance as real);
      if change > maxChange {
        change := maxChange;
        allowance := allowance + 1;
      } else if allowance > 0 {
        allowance := allowance - 1;
      }
      change := Larger(change, MIN_CHANGE);
    }

    /** `PccVivaceSender::EnterDecisionMade` */
    method EnterDecisionMade(infos: seq<UtilityInfo>, amplifier: real) returns (ok: bool)
      requires mode != Starting && infos != [] && (mode == Probing ==> |infos| >= 2 * Groups(scavenger))
      modifies this`mode, this`sendingRate, this`rounds, this`allowance, this`centre
      ensures ok <==> if old(mode) == Probing then infos[0].rate != infos[1].rate else infos[0].rate != latestInfo.rate
      ensures ok ==>
                var from := if old(mode) == Probing then Tilt(old(sendingRate), direction) else old(sendingRate);
                var a := if old(mode) == Probing then 0 else old(allowance);
                var raw := AskedChange(old(mode), infos, Groups(scavenger), direction, latestInfo, amplifier);
                var to := Moved(from, direction, Capped(raw, from, a));
                if to < MIN_RATE then
                  mode == Probing && sendingRate == MIN_RATE == centre && rounds == 1 && allowance == 0
                else
                  && mode == DecisionMade && sendingRate == to && allowance == NextAllowance(raw, from, a)
                  && rounds == (if old(mode) == Probing then 1 else old(rounds) + 1) && centre == old(centre)
      ensures !ok && old(mode) == DecisionMade ==> mode == old(mode) && sendingRate == old(sendingRate)
    {
      if mode == Probing {
        sendingRate := if direction == Increase then sendingRate * (1.0 + PROBING_STEP) else sendingRate * (1.0 - PROBING_STEP);
      }
      rounds := if mode == Probing then 1 else rounds + 1;
      var change;
      ok, change := ComputeRateChange(infos, amplifier);
      if !ok {
        return;
      }
      if direction == Increase {
        sendingRate := sendingRate + change;
      } else {
        sendingRate := Minus(sendingRate, change);
      }
      if sendingRate < MIN_RATE {
        sendingRate := MIN_RATE;
        mode := Probing;
        rounds := 1;
        allowance := 0;
        centre := sendingRate;
      } else {
        mode := DecisionMade;
      }
    }

    /** `PccVivaceSender::EnterProbing`: takes the last change back. */
    method EnterProbing(infos: seq<UtilityInfo>, amplifier: real) returns (ok: bool)
      requires mode == DecisionMade && Controlled() && infos != []
      modifies this`mode, this`sendingRate, this`rounds, this`allowance, this`scavenger, this`centre
      ensures ok <==> infos[0].rate != latestInfo.rate
      ensures ok ==> Settled() && mode == Probing && rounds == 1 && sendingRate >= MIN_RATE
      ensures ok ==>
                var raw := AskedChange(DecisionMade, infos, Groups(old(scavenger)), direction, latestInfo, amplifier);
                var to := Moved(old(sendingRate), Opposite(direction), Capped(raw, old(sendingRate), old(allowance)));
                sendingRate == Larger(to, MIN_RATE)
                && allowance == if to < MIN_RATE then 0 else NextAllowance(raw, old(sendingRate), old(allowance))
      ensures !ok ==> mode == old(mode) && sendingRate == old(sendingRate)
      ensures scavenger == if ok then Retagged(sendingRate, old(scavenger)) else old(scavenger)
    {
      rounds := 1;
      var change;
      ok, change := ComputeRateChange(infos, amplifier);
      if !ok {
        return;
      }
      if direction == Increase {
        sendingRate := Minus(sendingRate, change);
      } else {
        sendingRate := sendingRate + change;
      }
      if sendingRate < MIN_RATE {
        sendingRate := MIN_RATE;
        allowance := 0;
      }
      mode := Probing;
      centre := sendingRate;
      Retag();
    }

    /** STARTING: double the rate while the utility rises. */
    method DecideStarting(info: UtilityInfo)
      requires mode == Starting && Controlled() && hasSeenValidRtt
      modifies this`mode, this`sendingRate, this`rounds, this`latestInfo, this`scavenger, this`centre
      ensures Settled() && Started(old(Now()), Now(), info)
      ensures scavenger == if mode == Probing then Retagged(sendingRate, old(scavenger)) else old(scavenger)
    {
      if info.utility > latestInfo.utility {
        sendingRate := sendingRate * 2.0;
        latestInfo := info;
        rounds := rounds + 1;
      } else {
        EnterProbingPlain();
      }
    }

    /** PROBING with a decision: move from the rate of the better direction. */
    method Decide(infos: seq<UtilityInfo>, amplifier: real)
      requires mode == Probing && Deciding(infos) && Decided(infos, Groups(scavenger), scavenger)
      modifies this`mode, this`sendingRate, this`direction, this`rounds, this`allowance, this`latestInfo, this`centre, this`skewed
      ensures Settled() && mode != Starting && Turned(old(Now()), Now(), infos, Groups(scavenger), amplifier)
      ensures skewed == (old(sendingRate) != old(centre)) && latestInfo.rate == Tilt(old(centre), direction)
    {
      hide Bounded, Decided, Winner, AskedChange, Capped, NextAllowance, Alternates;
      var g := Groups(scavenger);
      ghost var c, r0 := centre, sendingRate;
      RoundFacts(infos, g, scavenger, c);
      direction, latestInfo := ChooseDirection(infos, g, latestInfo);
      StoredSide(infos, g, direction, latestInfo, c);
      skewed := sendingRate != centre;
      var ok := EnterDecisionMade(infos, amplifier);
      DecisionBounds(r0, c, direction, AskedChange(Probing, infos, g, direction, latestInfo, amplifier),
                     mode, sendingRate, rounds, allowance, latestInfo, skewed);
    }

    /** The PROBING case of `OnUtilityAvailable`.  It fails exactly when a decision can be made and the
        round is longer than the present utility tag allows. */
    method DecideProbing(infos: seq<UtilityInfo>, amplifier: real) returns (ok: bool)
      requires mode == Probing && Deciding(infos)
      modifies this`mode, this`sendingRate, this`direction, this`rounds, this`allowance, this`latestInfo, this`scavenger, this`centre, this`skewed
      ensures scavenger == old(scavenger) && (ok <==> !TooLong(old(mode), infos, scavenger))
      ensures !ok ==> Now() == old(Now())
      ensures ok ==>
                && Settled()
                && Probed(old(Now()), old(Home(sendingRate, centre, TailUseful(queue.intervals))), Now(), infos, Groups(scavenger), scavenger, amplifier)
      ensures ok && mode == DecisionMade ==> skewed == (old(sendingRate) != old(centre)) && latestInfo.rate == Tilt(old(centre), direction)
    {
      hide Bounded, Decided, Paced, Turned, Home;
      PacedStep(mode, sendingRate, direction, centre, InfoRates(infos), TailUseful(queue.intervals));
      RoundsPositive();
      var can := CanMakeDecision(infos, Groups(scavenger), scavenger);
      if can {
        if |infos| != 2 * Groups(scavenger) {
          return false;
        }
        Decide(infos, amplifier);
      } else {
        EnterProbingPlain();
      }
      ghost var mid := Now();
      assert Decided(infos, Groups(scavenger), scavenger) ==> Turned(old(Now()), mid, infos, Groups(scavenger), amplifier);
      if (rounds > 1 || mode == DecisionMade) && sendingRate <= MIN_RATE {
        sendingRate := MIN_RATE;
        allowance := 0;
        rounds := 1;
        mode := Starting;
        StartBounded(latestInfo, skewed);
      }
      ok := true;
    }

    lemma RoundsPositive()
      requires Controlled()
      ensures rounds >= 1
    {
    }

    /** The DECISION_MADE case: go on in the same direction while that pays, else go back.  It fails
        exactly when the interval ran at the stored rate. */
    method DecideFurther(infos: seq<UtilityInfo>, amplifier: real) returns (ok: bool)
      requires mode == DecisionMade && Deciding(infos)
      modifies this`mode, this`sendingRate, this`rounds, this`allowance, this`latestInfo, this`scavenger, this`centre, this`skewed
      ensures ok <==> old(sendingRate) != old(latestInfo).rate
      ensures !ok ==> Clashed(old(Now())) && Clashed(Now()) && old(skewed) && skewed
      ensures ok ==> Settled() && Followed(old(Now()), Now(), infos, Groups(old(scavenger)), amplifier)
      ensures scavenger == if ok && mode == Probing && !GoesOn(old(Now()), infos[0]) then Retagged(sendingRate, old(scavenger)) else old(scavenger)
    {
      hide AskedChange, Capped, NextAllowance, Alternates;
      assert InfoRates(infos)[0] == infos[0].rate == sendingRate;
      ghost var r0, a0, n0, l0 := sendingRate, allowance, rounds, latestInfo;
      var better, higher := infos[0].utility > latestInfo.utility, infos[0].rate > latestInfo.rate;
      var worse, lower := infos[0].utility < latestInfo.utility, infos[0].rate < latestInfo.rate;
      if (direction == Increase && better && higher) || (direction == Increase && worse && lower)
        || (direction == Decrease && better && lower) || (direction == Decrease && worse && higher)
      {
        ok := EnterDecisionMade(infos, amplifier);
        if !ok {
          return;
        }
        latestInfo := infos[0];
        FurtherBounds(r0, direction, AskedChange(DecisionMade, infos, Groups(scavenger), direction, l0, amplifier), a0, n0,
                      mode, sendingRate, rounds, allowance, latestInfo, skewed);
      } else {
        ok := EnterProbing(infos, amplifier);
      }
    }

    /** `OnUtilityAvailable` */
    method OnUtilityAvailable(infos: seq<UtilityInfo>, amplifier: real) returns (outcome: Outcome)
      requires Deciding(infos)
      modifies this`mode, this`sendingRate, this`direction, this`rounds, this`allowance, this`latestInfo, this`scavenger, this`centre, this`skewed
      ensures outcome == Verdicted(old(Now()), infos, old(scavenger))
      ensures outcome == Done ==>
                && Settled()
                && Decision(old(Now()), old(Home(sendingRate, centre, TailUseful(queue.intervals))), Now(), infos, Groups(old(scavenger)), old(scavenger), amplifier)
                && scavenger == if Reenters(old(Now()), Now(), infos) then Retagged(sendingRate, old(scavenger)) else old(scavenger)
      ensures outcome == EqualRates ==> Clashed(Now()) && old(skewed) && skewed
      ensures outcome == WrongSize ==> Now() == old(Now())
      ensures outcome != Done ==> scavenger == old(scavenger)
      ensures outcome == Done && old(mode) == Probing && mode == DecisionMade ==>
                skewed == (old(sendingRate) != old(centre)) && latestInfo.rate == Tilt(old(centre), direction)
    {
      hide Bounded, Paced, Decided, Probed, Followed, Started, Home, GoesOn, PccVivaceSender.Retagged;
      var ok := true;
      match mode {
        case Starting =>
          assert |infos| == 1;
          DecideStarting(infos[0]);
          StartedRetags(old(Now()), Now(), infos);
          outcome := Done;
        case Probing =>
          ok := DecideProbing(infos, amplifier);
          outcome := if ok then Done else WrongSize;
        case DecisionMade =>
          assert |infos| == 1;
          ok := DecideFurther(infos, amplifier);
          outcome := if ok then Done else EqualRates;
      }
    }

    // ---------- reports ----------

    /** `UpdateRtt`, as far as it matters here. */
    method UpdateRtt(rtt: real)
      requires rtt >= 0.0 && avgRtt >= 0.0
      modifies this`latestRtt, this`avgRtt, this`minRtt
      ensures latestRtt == rtt && (avgRtt > 0.0 <==> rtt > 0.0 || old(avgRtt) > 0.0)
      ensures minRtt == if old(minRtt) == 0.0 then rtt else if rtt < old(minRtt) then rtt else old(minRtt)
      ensures if old(avgRtt) <= rtt then old(avgRtt) <= avgRtt <= rtt else rtt <= avgRtt <= old(avgRtt)
      ensures if old(avgRtt) == 0.0 then avgRtt == rtt else 8.0 * avgRtt == 7.0 * old(avgRtt) + rtt
    {
      latestRtt := rtt;
      avgRtt := if avgRtt == 0.0 then rtt else avgRtt * 0.875 + rtt * 0.125;
      if minRtt == 0.0 || rtt < minRtt {
        minRtt := rtt;
      }
    }

    /** The head of `OnCongestionEvent`: the first round-trip time may raise the initial rate.  It
        fails, where the source divides by zero, exactly when the first event brings none. */
    method Measure(rttUpdated: bool, rtt: real) returns (ok: bool)
      requires Valid() && (rttUpdated ==> rtt >= 0.0)
      modifies this`latestRtt, this`avgRtt, this`minRtt, this`hasSeenValidRtt, this`sendingRate
      ensures ok <==> old(hasSeenValidRtt) || (rttUpdated && rtt > 0.0)
      ensures ok ==> Valid() && hasSeenValidRtt && (rttUpdated ==> latestRtt == rtt) && sendingRate >= old(sendingRate)
      ensures ok ==> Now() == old(Now()).(rate := MeasuredRate(old(hasSeenValidRtt), old(sendingRate), rtt))
      ensures if old(hasSeenValidRtt) then Now() == old(Now()) else old(mode) == Starting && queue.numUseful == 0
      ensures ok && !rttUpdated ==> latestRtt == old(latestRtt) && minRtt == old(minRtt)
      ensures ok && rttUpdated ==>
                minRtt == if old(minRtt) == 0.0 then rtt else if rtt < old(minRtt) then rtt else old(minRtt)
    {
      hide ScaledUp, Sound, Rates;
      if rttUpdated {
        UpdateRtt(rtt);
      }
      if !hasSeenValidRtt {
        hasSeenValidRtt := true;
        if latestRtt == 0.0 {
          return false;
        }
        if latestRtt < INITIAL_RTT {
          Scaled(sendingRate, latestRtt);
          sendingRate := ScaledUp(sendingRate, latestRtt);
        }
      }
      ok := true;
    }

    /** The loops that collect the useful intervals and their utilities.  `CalculateUtility` asserts
        that an interval has two different sending times. */
    method Gather(utilities: seq<real>) returns (infos: seq<UtilityInfo>)
      requires |utilities| >= UsefulCount(queue.intervals)
      requires forall i :: 0 <= i < |queue.intervals| && queue.intervals[i].isUseful ==>
                 queue.intervals[i].firstTime != queue.intervals[i].lastTime
      ensures infos == Told(queue.intervals, utilities) && InfoRates(infos) == Rates(queue.intervals)
    {
      hide Rates, UsefulCount, InfoRates;
      infos := [];
      GatherNone(queue.intervals);
      for i := 0 to |queue.intervals|
        invariant |infos| == UsefulCount(queue.intervals[..i]) <= |utilities|
        invariant InfoRates(infos) == Rates(queue.intervals[..i])
        invariant forall k :: 0 <= k < |infos| ==> infos[k].utility == utilities[k]
      {
        var interval := queue.intervals[i];
        assert queue.intervals[..i + 1] == queue.intervals[..i] + [interval];
        RatesAppend(queue.intervals[..i], interval);
        CountAppend(queue.intervals[..i], interval);
        CountPrefix(queue.intervals, i + 1);
        if interval.isUseful {
          assert interval.firstTime != interval.lastTime;
          InfoAppend(infos, UtilityInfo(interval.rate, utilities[|infos|]));
          infos := infos + [UtilityInfo(interval.rate, utilities[|infos|])];
        }
      }
      assert queue.intervals[..|queue.intervals|] == queue.intervals;
    }

    /** Early end of STARTING: the queue is cleared and probing begins, whatever the event reports. */
    method LeaveStartingEarly(ghost acks: seq<Packet>, ghost losses: seq<Packet>)
      requires Valid() && mode == Starting && hasSeenValidRtt
      requires Reported(losses, queue.flight) && Reported(acks, Landed(queue.flight, losses))
      modifies this`mode, this`sendingRate, this`rounds, this`scavenger, this`centre
      modifies queue`intervals, queue`numUseful, queue`numAvailable, queue`flight
      ensures Valid() && WithinLimit() && AtCentre() && mode == Probing && queue.intervals == []
      ensures Now() == old(Now()).(mode := Probing, rate := old(sendingRate) * 0.5, rounds := 1)
      ensures scavenger == Retagged(sendingRate, old(scavenger))
      ensures queue.flight == Landed(Landed(old(queue.flight), losses), acks)
    {
      hide Bounded, Timed, Past, Landed, Reported, PccVivaceSender.Retagged;
      Lands(queue.intervals, queue.flight, queue.pending, queue.nextNo, queue.now, queue.numUseful, losses, acks);
      ClearKeeps(queue.intervals, queue.numUseful, queue.flight, queue.pending, queue.nextNo, queue.now);
      queue.OnRttInflationInStarting();
      EnterProbingPlain();
      ghost var landed := Landed(Landed(queue.flight, losses), acks);
      EmptySound(queue.numUseful, queue.flight, landed, queue.pending, queue.nextNo, queue.now);
      queue.flight := landed;
    }

    /** The utilities of all useful intervals are ready. */
    method UseUtilities(utilities: seq<real>, amplifier: real) returns (outcome: Outcome)
      requires Valid() && hasSeenValidRtt && queue.numUseful > 0 && |utilities| >= queue.numUseful && AllAvailable(queue.intervals)
      modifies this`mode, this`sendingRate, this`direction, this`rounds, this`allowance, this`latestInfo, this`scavenger, this`centre, this`skewed
      ensures outcome == Verdicted(old(Now()), Told(queue.intervals, utilities), old(scavenger))
      ensures outcome == Done ==>
                && Settled()
                && Decision(old(Now()), old(Home(sendingRate, centre, TailUseful(queue.intervals))), Now(), Told(queue.intervals, utilities),
                            Groups(old(scavenger)), old(scavenger), amplifier)
                && scavenger == if Reenters(old(Now()), Now(), Told(queue.intervals, utilities)) then Retagged(sendingRate, old(scavenger)) else old(scavenger)
      ensures outcome == EqualRates ==> Clashed(Now()) && old(skewed) && skewed
      ensures outcome == WrongSize ==> Now() == old(Now())
      ensures outcome != Done ==> scavenger == old(scavenger)
      ensures outcome == Done && old(mode) == Probing && mode == DecisionMade ==>
                skewed == (old(sendingRate) != old(centre)) && latestInfo.rate == Tilt(old(centre), direction)
    {
      hide Sound, Bounded, Paced, Rates, AllAvailable, UsefulCount, Decided, Decision, Home, Told, Verdicted, Reenters, PccVivaceSender.Retagged;
      QueueFacts(queue.intervals, queue.numUseful, queue.flight, queue.pending, queue.nextNo, queue.now);
      ReadyIntervals(queue.intervals, queue.numUseful, queue.flight, queue.pending, queue.nextNo, queue.now);
      var infos := Gather(utilities);
      outcome := OnUtilityAvailable(infos, amplifier);
    }

    /** Removing the useful intervals after a decision or a discard. */
    method FinishRound(ghost q: seq<MonitorInterval>, ghost u: nat, ghost flight: map<int, nat>, ghost pending: seq<Packet>)
      requires Sound(q, u, flight, pending, queue.nextNo, queue.now) && u > 0 && queue.numUseful == UsefulCount(queue.intervals)
      requires SameKinds(q, queue.intervals) && Past(queue.flight, queue.pending, queue.nextNo)
      requires Controlled() && hasSeenValidRtt
      requires mode == Probing ==> centre > 0.0 && sendingRate == centre
      modifies queue`intervals, queue`numUseful, queue`numAvailable
      ensures Valid() && WithinLimit() && AtCentre()
      ensures queue.intervals == if TailUseful(q) then [] else [q[|q| - 1]]
    {
      hide Sound, Bounded, Past, UsefulCount, Rates;
      ghost var r := queue.intervals;
      queue.RemoveUseful();
      ghost var k :| 0 <= k <= |r| && queue.intervals == r[k..] && (k > 0 ==> r[k - 1].isUseful);
      RemoveKeeps(q, u, flight, pending, queue.nextNo, queue.now, r, k, queue.flight, queue.pending);
      NotEmpty(q, u, flight, pending, queue.nextNo, queue.now);
      QueueFacts(queue.intervals, 0, queue.flight, queue.pending, queue.nextNo, queue.now);
      NothingPaced(mode, sendingRate, direction, centre);
    }

    /** The rest of `OnCongestionEvent`: the interval queue counts the reports, and its verdict is acted
        upon.  The ghost centre moves when an invalid interval cuts a round short in mid-step. */
    method HandleReports(acks: seq<Packet>, losses: seq<Packet>, trusted: seq<bool>, utilities: seq<real>, amplifier: real)
      returns (outcome: Outcome, verdict: Verdict)
      requires Valid() && hasSeenValidRtt && |trusted| == |queue.pending| && |utilities| >= queue.numUseful
      requires Reported(losses, queue.flight) && Reported(acks, Landed(queue.flight, losses))
      modifies this`mode, this`sendingRate, this`direction, this`rounds, this`allowance, this`latestInfo, this`scavenger, this`centre, this`skewed, queue
      ensures verdict == Judged(old(queue.intervals), losses, old(queue.pending), trusted)
      ensures outcome == if verdict == Ready then Verdicted(old(Now()), Told(old(queue.intervals), utilities), old(scavenger)) else Done
      ensures outcome == Done ==> Valid()
      ensures outcome == Done && (verdict != Waiting || old(WithinLimit())) ==> WithinLimit()
      ensures outcome == Done && (verdict != Waiting || old(AtCentre())) ==> AtCentre()
      ensures outcome == EqualRates ==> Clashed(Now()) && old(skewed) && skewed
      ensures outcome == WrongSize || verdict != Ready ==> Now() == old(Now())
      ensures queue.flight == Landed(Landed(old(queue.flight), losses), acks)
      ensures queue.nextNo == old(queue.nextNo) && queue.now == old(queue.now)
      ensures queue.pending == if old(queue.numUseful) > 0 then acks else old(queue.pending)
      ensures verdict == Waiting ==> centre == old(centre)
      ensures verdict == Waiting || outcome != Done ==>
                queue.intervals == if old(queue.numUseful) > 0
                                   then AdvancedAll(old(queue.intervals), losses, old(queue.pending), trusted)
                                   else old(queue.intervals)
      ensures verdict != Waiting && outcome == Done ==>
                && old(queue.intervals) != []
                && queue.intervals == (if TailUseful(old(queue.intervals)) then [] else [old(queue.intervals)[|old(queue.intervals)| - 1]])
                && (mode == Probing ==> sendingRate == centre)
      ensures verdict == Ready && outcome == Done ==>
                Decision(old(Now()), old(Home(sendingRate, centre, TailUseful(queue.intervals))), Now(), Told(old(queue.intervals), utilities),
                         Groups(old(scavenger)), old(scavenger), amplifier)
      ensures outcome == Done && old(mode) == Probing && mode == DecisionMade ==>
                skewed == (old(sendingRate) != old(centre)) && latestInfo.rate == Tilt(old(centre), direction)
      ensures scavenger ==
              if outcome == Done && verdict == Ready && Reenters(old(Now()), Now(), Told(old(queue.intervals), utilities))
              then Retagged(sendingRate, old(scavenger)) else old(scavenger)
    {
      hide Sound, Bounded, Paced, Past, UsefulCount, Rates, Landed, Reported, AllAvailable, Decided, TailUseful, SameKinds, Alternates, Decision, Judged,
           Told, Verdicted, Reenters, Home, Steady, PccVivaceSender.Retagged;
      ghost var q, u, flight, pending := queue.intervals, queue.numUseful, queue.flight, queue.pending;
      outcome := Done;
      verdict := queue.OnCongestionEvent(acks, losses, trusted);
      KindsRates(q, queue.intervals);
      KindsLength(q, queue.intervals);
      KindsTold(q, queue.intervals, utilities);
      if verdict == Waiting {
        return;
      }
      NotEmpty(q, u, flight, pending, queue.nextNo, queue.now);
      if verdict == Ready {
        outcome := UseUtilities(utilities, amplifier);
        if outcome != Done {
          return;
        }
      } else {
        Recentre(q);
      }
      FinishRound(q, u, flight, pending);
    }

    /** A round that is discarded in mid-step goes on around the rate it has reached. */
    ghost method Recentre(q: seq<MonitorInterval>)
      requires Controlled() && Paced(mode, sendingRate, direction, centre, Rates(q), TailUseful(q))
      modifies this`centre
      ensures Controlled() && (mode == Probing ==> centre > 0.0 && sendingRate == centre)
    {
      hide Rates, TailUseful, Alternates;
      PacedStep(mode, sendingRate, direction, centre, Rates(q), TailUseful(q));
      if mode == Probing {
        StepPositive(sendingRate, direction, centre);
        centre := sendingRate;
      }
    }

    /** The report ends STARTING before its round is complete. */
    ghost predicate LeavesStarting(inflated: bool)
      reads this, queue
    {
      mode == Starting && queue.intervals != [] && inflated
    }

    /** `OnCongestionEvent`: reports of acknowledged and lost packets.  It stops short of a new valid
        state in three cases.  The first event brings no round-trip time to divide by; a round of
        DECISION_MADE ran at the very rate it is compared with, which takes a decision that was made
        away from the centre; or a round of PROBING can be decided but is longer than the utility tag
        allows, which takes a change of the tag in the round. */
    method OnCongestionEvent(rttUpdated: bool, rtt: real, inflated: bool, acks: seq<Packet>, losses: seq<Packet>,
                             trusted: seq<bool>, utilities: seq<real>, amplifier: real)
      returns (outcome: Outcome, verdict: Verdict)
      requires Valid() && |trusted| == |queue.pending| && |utilities| >= queue.numUseful
      requires rttUpdated ==> rtt >= 0.0
      requires Reported(losses, queue.flight) && Reported(acks, Landed(queue.flight, losses))
      modifies this`latestRtt, this`avgRtt, this`minRtt, this`hasSeenValidRtt
      modifies this`mode, this`sendingRate, this`direction, this`rounds, this`allowance, this`latestInfo, this`scavenger, this`centre, this`skewed, queue
      ensures outcome == NoRoundTrip <==> !old(hasSeenValidRtt) && !(rttUpdated && rtt > 0.0)
      ensures outcome != NoRoundTrip ==>
                && verdict == (if old(LeavesStarting(inflated)) then Waiting else Judged(old(queue.intervals), losses, old(queue.pending), trusted))
                && outcome == (if verdict == Ready then Verdicted(old(Now()), Told(old(queue.intervals), utilities), old(scavenger)) else Done)
      ensures outcome == EqualRates ==> old(hasSeenValidRtt && skewed) && Clashed(Now()) && skewed
      ensures outcome == WrongSize ==> !old(WithinLimit()) && Now() == old(Now())
      ensures outcome == Done ==> Valid() && hasSeenValidRtt
      ensures outcome == Done && (verdict != Waiting || old(WithinLimit())) ==> WithinLimit()
      ensures outcome == Done && (verdict != Waiting || old(AtCentre())) ==> AtCentre()
      ensures outcome != NoRoundTrip ==>
                && queue.flight == Landed(Landed(old(queue.flight), losses), acks)
                && queue.nextNo == old(queue.nextNo) && queue.now == old(queue.now)
      ensures outcome != NoRoundTrip && !old(LeavesStarting(inflated)) ==>
                queue.pending == if old(queue.numUseful) > 0 then acks else old(queue.pending)
      ensures outcome != NoRoundTrip && old(LeavesStarting(inflated)) ==>
                && queue.intervals == []
                && Now() == old(Now()).(mode := Probing, rate := MeasuredRate(old(hasSeenValidRtt), old(sendingRate), rtt) * 0.5, rounds := 1)
      ensures outcome == Done && verdict == Waiting && !old(LeavesStarting(inflated)) ==>
                Now() == old(Now()).(rate := MeasuredRate(old(hasSeenValidRtt), old(sendingRate), rtt)) && centre == old(centre)
      ensures outcome != NoRoundTrip && (verdict == Waiting || outcome != Done) && !old(LeavesStarting(inflated)) ==>
                queue.intervals == if old(queue.numUseful) > 0
                                   then AdvancedAll(old(queue.intervals), losses, old(queue.pending), trusted)
                                   else old(queue.intervals)
      ensures outcome == Done && verdict != Waiting ==>
                && old(queue.intervals) != []
                && queue.intervals == (if TailUseful(old(queue.intervals)) then [] else [old(queue.intervals)[|old(queue.intervals)| - 1]])
                && (mode == Probing ==> sendingRate == centre)
      ensures outcome == Done && verdict == Ready ==>
                Decision(old(Now()), old(Home(sendingRate, centre, TailUseful(queue.intervals))), Now(), Told(old(queue.intervals), utilities),
                         Groups(old(scavenger)), old(scavenger), amplifier)
      ensures outcome == Done && verdict == Discard ==> Now() == old(Now())
      ensures outcome == Done && old(mode) == Probing && mode == DecisionMade ==>
                skewed == (old(sendingRate) != old(centre)) && latestInfo.rate == Tilt(old(centre), direction)
      ensures outcome == Done ==>
                && latestRtt == (if rttUpdated then rtt else old(latestRtt))
                && minRtt == (if rttUpdated && (old(minRtt) == 0.0 || rtt < old(minRtt)) then rtt else old(minRtt))
      ensures outcome == Done ==>
                scavenger ==
                if old(LeavesStarting(inflated)) || (verdict == Ready && Reenters(old(Now()), Now(), Told(old(queue.intervals), utilities)))
                then Retagged(sendingRate, old(scavenger)) else old(scavenger)
    {
      hide Sound, Bounded, Paced, Past, UsefulCount, Rates, Landed, Reported, Decided, TailUseful, Alternates, Decision, Judged, MeasuredRate, Told, Reenters, Home,
           Verdicted, AdvancedAll, Limit, PccVivaceSender.Retagged, PccVivaceSender.Valid;
      verdict := Waiting;
      UsefulCounted();
      NothingToJudge(queue.intervals, losses, queue.pending, trusted);
      WrongSizeNeeds(Now(), queue.intervals, utilities, scavenger);
      var measured := Measure(rttUpdated, rtt);
      if !measured {
        return NoRoundTrip, Waiting;
      }
      if mode == Starting && queue.intervals != [] && inflated {
        LeaveStartingEarly(acks, losses);
        return Done, Waiting;
      }
      outcome, verdict := HandleReports(acks, losses, trusted, utilities, amplifier);
    }
  }

  // ---------- what a round decides ----------

  /** The rate of the next interval.  PROBING tilts the centre, the other way for the second of a pair,
      until the round is full; otherwise the rate stays as it is. */
  ghost predicate NextRate(was: Control, now: Control, centre: real, useful: nat, limit: nat, coin: bool) {
    if was.mode != Probing then now == was
    else if useful == limit then now == was.(rate := centre)
    else
      var d := if useful % 2 == 1 then Opposite(was.direction) else if coin then Increase else Decrease;
      now == was.(direction := d, rate := Tilt(centre, d))
  }

  /** A round can be decided, but has more intervals than the utility tag asks for. */
  ghost predicate TooLong(mode: Mode, infos: seq<UtilityInfo>, scavenger: bool) {
    mode == Probing && Decided(infos, Groups(scavenger), scavenger) && |infos| != 2 * Groups(scavenger)
  }

  /** How a complete round ends. */
  ghost function Verdicted(was: Control, infos: seq<UtilityInfo>, scavenger: bool): Outcome {
    if Clashed(was) then EqualRates else if TooLong(was.mode, infos, scavenger) then WrongSize else Done
  }

  /** The useful intervals with their utilities, in order. */
  ghost function Told(q: seq<MonitorInterval>, utilities: seq<real>): (infos: seq<UtilityInfo>)
    ensures |infos| == |Rates(q)| && InfoRates(infos) == Rates(q)
  {
    seq(|Rates(q)|, k requires 0 <= k < |Rates(q)| => UtilityInfo(Rates(q)[k], if k < |utilities| then utilities[k] else 0.0))
  }

  /** PROBING begins again by way of `EnterProbing`, which looks at the utility tag. */
  ghost predicate Reenters(was: Control, now: Control, infos: seq<UtilityInfo>) {
    && was.mode != Probing && now.mode == Probing && infos != []
    && (was.mode == DecisionMade ==> !GoesOn(was, infos[0]))
  }

  lemma KindsTold(q: seq<MonitorInterval>, r: seq<MonitorInterval>, utilities: seq<real>)
    requires SameKinds(q, r)
    ensures Told(r, utilities) == Told(q, utilities)
  {
    KindsRates(q, r);
  }

  /** What a complete round needs for either failure. */
  lemma WrongSizeNeeds(was: Control, q: seq<MonitorInterval>, utilities: seq<real>, scavenger: bool)
    ensures Verdicted(was, Told(q, utilities), scavenger) == EqualRates <==> Clashed(was)
    ensures Verdicted(was, Told(q, utilities), scavenger) == WrongSize ==> UsefulCount(q) > Limit(was.mode, scavenger)
    ensures Verdicted(was, Told(q, utilities), scavenger) != NoRoundTrip
  {
    if Decided(Told(q, utilities), Groups(scavenger), scavenger) {
      DecidedSize(Told(q, utilities), Groups(scavenger), scavenger);
    }
  }

  lemma StartedRetags(was: Control, now: Control, infos: seq<UtilityInfo>)
    requires was.mode == Starting && infos != [] && Started(was, now, infos[0])
    ensures Reenters(was, now, infos) <==> now.mode == Probing
  {
  }

  /** The interval ran at the rate that it is going to be compared with. */
  predicate Clashed(was: Control) {
    was.mode == DecisionMade && was.rate == was.latest.rate
  }

  /** The first round-trip time below the initial guess raises the rate. */
  function MeasuredRate(seen: bool, rate: real, rtt: real): real {
    if seen || rtt >= INITIAL_RTT || rtt <= 0.0 then rate else ScaledUp(rate, rtt)
  }

  /** A round of STARTING: the rate doubles while the utility rises, and else is halved for PROBING. */
  ghost predicate Started(was: Control, now: Control, info: UtilityInfo) {
    if info.utility > was.latest.utility then
      now == was.(rate := was.rate * 2.0, latest := info, rounds := was.rounds + 1)
    else
      now == was.(mode := Probing, rate := was.rate * 0.5, rounds := 1)
  }

  /** A decision of PROBING: the rate turns to the winner's side and moves on from there. */
  ghost predicate Turned(was: Control, now: Control, infos: seq<UtilityInfo>, groups: nat, amplifier: real) {
    && |infos| >= 2 * groups > 0 && now.direction == Winner(infos, groups)
    && (exists i: nat :: LastVote(infos, groups, i, now.direction) && now.latest == Better(infos, i))
    && var from := Tilt(was.rate, now.direction);
       var raw := AskedChange(Probing, infos, groups, now.direction, now.latest, amplifier);
       var to := Moved(from, now.direction, Capped(raw, from, 0));
       if to < MIN_RATE then
         now.mode == Probing && now.rate == MIN_RATE && now.rounds == 1 && now.allowance == 0
       else
         now.mode == DecisionMade && now.rate == to && now.rounds == 1 && now.allowance == NextAllowance(raw, from, 0)
  }

  /** A round of PROBING: back to the centre without a decision, to STARTING at the minimum. */
  ghost predicate Probed(was: Control, centre: real, now: Control, infos: seq<UtilityInfo>, groups: nat, scavenger: bool, amplifier: real) {
    if Decided(infos, groups, scavenger) then
      exists mid :: Turned(was, mid, infos, groups, amplifier) && now == Restarted(mid)
    else
      now == Restarted(was.(rate := centre, rounds := was.rounds + 1))
  }

  /** A rate at the minimum after a round or a decision sends the sender back to STARTING. */
  function Restarted(now: Control): Control {
    if (now.rounds > 1 || now.mode == DecisionMade) && now.rate <= MIN_RATE then
      now.(mode := Starting, rate := MIN_RATE, rounds := 1, allowance := 0)
    else now
  }

  /** Going on pays: the utility moved with the rate while it was raised, against it while it was lowered. */
  predicate GoesOn(was: Control, info: UtilityInfo) {
    if was.direction == Increase then
      || (info.utility > was.latest.utility && info.rate > was.latest.rate)
      || (info.utility < was.latest.utility && info.rate < was.latest.rate)
    else
      || (info.utility > was.latest.utility && info.rate < was.latest.rate)
      || (info.utility < was.latest.utility && info.rate > was.latest.rate)
  }

  /** A round of DECISION_MADE: one more change in the same direction, or the last one undone. */
  ghost predicate Followed(was: Control, now: Control, infos: seq<UtilityInfo>, groups: nat, amplifier: real) {
    && infos != [] && groups > 0
    && var raw := AskedChange(DecisionMade, infos, groups, was.direction, was.latest, amplifier);
       var change := Capped(raw, was.rate, was.allowance);
       var next := NextAllowance(raw, was.rate, was.allowance);
       if GoesOn(was, infos[0]) then
         var to := Moved(was.rate, was.direction, change);
         if to < MIN_RATE then now == was.(mode := Probing, rate := MIN_RATE, rounds := 1, allowance := 0, latest := infos[0])
         else now == was.(rate := to, rounds := was.rounds + 1, allowance := next, latest := infos[0])
       else
         var to := Moved(was.rate, Opposite(was.direction), change);
         now == was.(mode := Probing, rate := Larger(to, MIN_RATE), rounds := 1, allowance := if to < MIN_RATE then 0 else next)
  }

  /** What `OnUtilityAvailable` does to the sender. */
  ghost predicate Decision(was: Control, centre: real, now: Control, infos: seq<UtilityInfo>, groups: nat, scavenger: bool, amplifier: real) {
    infos != [] &&
    match was.mode
    case Starting => Started(was, now, infos[0])
    case Probing => Probed(was, centre, now, infos, groups, scavenger, amplifier)
    case DecisionMade => Followed(was, now, infos, groups, amplifier)
  }

  function InfoRates(infos: seq<UtilityInfo>): (r: seq<real>)
    ensures |r| == |infos| && forall k :: 0 <= k < |infos| ==> r[k] == infos[k].rate
  {
    seq(|infos|, k requires 0 <= k < |infos| => infos[k].rate)
  }

  /** The change the utilities ask for, by mode; zero where it is undefined. */
  function AskedChange(mode: Mode, infos: seq<UtilityInfo>, groups: nat, d: Direction, latest: UtilityInfo, amplifier: real): real
    requires groups > 0 && infos != [] && (mode == Probing ==> |infos| >= 2 * groups)
  {
    if mode == Probing then
      if infos[0].rate == infos[1].rate then 0.0
      else RawChange(Support(infos, groups, d) / groups as real, Gap(infos[0].rate, infos[1].rate), 1.0)
    else
      if infos[0].rate == latest.rate then 0.0
      else RawChange(Gap(infos[0].utility, latest.utility), Gap(infos[0].rate, latest.rate), amplifier)
  }

  /** In PROBING the change is to the probing difference of the rates as the mean support is to one; in
      DECISION_MADE it compares the interval with the stored one and is amplified. */
  lemma AskedMeans(mode: Mode, infos: seq<UtilityInfo>, groups: nat, d: Direction, latest: UtilityInfo, amplifier: real)
    requires groups > 0 && infos != [] && (mode == Probing ==> |infos| >= 2 * groups)
    ensures var raw := AskedChange(mode, infos, groups, d, latest, amplifier);
            && (mode == Probing && infos[0].rate != infos[1].rate ==>
                  raw * Gap(infos[0].rate, infos[1].rate) * groups as real == MEGABIT * MEGABIT * Support(infos, groups, d))
            && (mode != Probing && infos[0].rate != latest.rate ==>
                  raw * Gap(infos[0].rate, latest.rate) == MEGABIT * MEGABIT * Gap(infos[0].utility, latest.utility) * amplifier)
  {
    hide Support, RawChange, Gap;
    if mode == Probing && infos[0].rate != infos[1].rate {
      var s, n := Support(infos, groups, d), groups as real;
      RawChangeMeans(s / n, Gap(infos[0].rate, infos[1].rate), 1.0);
      assert s / n * n == s;
      MulThrough(MEGABIT * MEGABIT, s / n, n);
    }
    if mode != Probing && infos[0].rate != latest.rate {
      RawChangeMeans(Gap(infos[0].utility, latest.utility), Gap(infos[0].rate, latest.rate), amplifier);
    }
  }

  /** A rise of the utility in STARTING followed by a fall leaves the rate from which the rise began. */
  lemma StartingUndone(was: Control, mid: Control, now: Control, rise: UtilityInfo, fall: UtilityInfo)
    requires was.mode == Starting && was.rate > 0.0 && Started(was, mid, rise) && rise.utility > was.latest.utility
    requires Started(mid, now, fall) && fall.utility <= rise.utility
    ensures mid.mode == Starting && mid.rate > was.rate && mid.rounds == was.rounds + 1 && mid.latest == rise
    ensures now.mode == Probing && now.rate == was.rate && now.rounds == 1
  {
  }

  /** The first round-trip time keeps the window: the rate times the time is what it was with the guess. */
  lemma MeasuredMeans(rate: real, rtt: real)
    requires 0.0 < rtt < INITIAL_RTT
    ensures MeasuredRate(false, rate, rtt) * rtt == rate * INITIAL_RTT
  {
    assert INITIAL_RTT / rtt * rtt == INITIAL_RTT;
    MulThrough(rate, INITIAL_RTT / rtt, rtt);
    MulThrough(rate, rtt, INITIAL_RTT / rtt);
    assert rate * (INITIAL_RTT / rtt * rtt) == rate * INITIAL_RTT;
  }

  /** A decision of PROBING moves the rate to the side that it names, by more than the probing step. */
  lemma TurnedSide(was: Control, now: Control, infos: seq<UtilityInfo>, groups: nat, amplifier: real)
    requires was.rate > 0.0 && Turned(was, now, infos, groups, amplifier) && now.mode == DecisionMade
    ensures now.direction == Increase ==> now.rate >= 1.05 * was.rate + MIN_CHANGE
    ensures now.direction == Decrease ==> now.rate <= 0.95 * was.rate - MIN_CHANGE
  {
    hide AskedChange, Winner, Better;
  }

  /** Going on pays exactly when the step from the stored interval to this one was in the direction of
      better utility, seen from the direction of the run. */
  lemma GoesOnMeans(was: Control, info: UtilityInfo)
    ensures var slope := (info.utility - was.latest.utility) * (info.rate - was.latest.rate);
            GoesOn(was, info) <==> if was.direction == Increase then slope > 0.0 else slope < 0.0
  {
    SameSigns(info.utility - was.latest.utility, info.rate - was.latest.rate);
    SameSigns(was.latest.utility - info.utility, info.rate - was.latest.rate);
    assert (was.latest.utility - info.utility) * (info.rate - was.latest.rate) ==
           -((info.utility - was.latest.utility) * (info.rate - was.latest.rate));
  }

  /** A round of DECISION_MADE goes on in its direction by at least the least change, or goes back by at
      least that and leaves DECISION_MADE; only the minimum rate stops it. */
  lemma FollowedSide(was: Control, now: Control, infos: seq<UtilityInfo>, groups: nat, amplifier: real)
    requires was.mode == DecisionMade && was.rate >= MIN_RATE && Followed(was, now, infos, groups, amplifier)
    ensures GoesOn(was, infos[0]) && now.mode == DecisionMade ==>
              && now.latest == infos[0] && now.rounds == was.rounds + 1
              && if was.direction == Increase then now.rate >= was.rate + MIN_CHANGE else now.rate <= was.rate - MIN_CHANGE
    ensures !GoesOn(was, infos[0]) ==>
              && now.mode == Probing && now.latest == was.latest
              && if was.direction == Increase then now.rate <= was.rate - MIN_CHANGE || now.rate == MIN_RATE else now.rate >= was.rate + MIN_CHANGE
    ensures GoesOn(was, infos[0]) && now.mode == Probing ==> was.direction == Decrease && now.rate == MIN_RATE
  {
    hide AskedChange, GoesOn;
  }

  /** A round of PROBING without a decision goes on from the rate it is back at, and one that is back at the
      minimum ends in STARTING. */
  lemma UndecidedRound(was: Control, home: real, now: Control, infos: seq<UtilityInfo>, groups: nat, scavenger: bool, amplifier: real)
    requires Probed(was, home, now, infos, groups, scavenger, amplifier) && !Decided(infos, groups, scavenger) && was.rounds >= 1
    ensures now.rate == Larger(home, MIN_RATE) && now.direction == was.direction && now.latest == was.latest
    ensures if home <= MIN_RATE then now.mode == Starting && now.rounds == 1 && now.allowance == 0
            else now.mode == was.mode && now.rounds == was.rounds + 1 && now.allowance == was.allowance
  {
  }

  /** A round with a decision leaves PROBING for a rate above the minimum, in the direction of the winner,
      or is held at the minimum. */
  lemma DecidedRound(was: Control, home: real, now: Control, infos: seq<UtilityInfo>, groups: nat, scavenger: bool, amplifier: real)
    requires Probed(was, home, now, infos, groups, scavenger, amplifier) && Decided(infos, groups, scavenger) && was.rate > 0.0
    ensures now.direction == Winner(infos, groups) && now.rate >= MIN_RATE && now.rounds == 1
    ensures now.mode == DecisionMade <==> now.rate > MIN_RATE
    ensures now.mode != DecisionMade ==> now.allowance == 0
    ensures now.mode == DecisionMade ==>
              if now.direction == Increase then now.rate >= 1.05 * was.rate + MIN_CHANGE else now.rate <= 0.95 * was.rate - MIN_CHANGE
  {
    hide Decided, AskedChange, Winner, Better, Turned;
    var mid :| Turned(was, mid, infos, groups, amplifier) && now == Restarted(mid);
    TurnedFacts(was, mid, infos, groups, amplifier);
    if mid.mode == DecisionMade {
      TurnedSide(was, mid, infos, groups, amplifier);
    }
  }

  lemma TurnedFacts(was: Control, mid: Control, infos: seq<UtilityInfo>, groups: nat, amplifier: real)
    requires Turned(was, mid, infos, groups, amplifier)
    ensures mid.direction == Winner(infos, groups) && mid.rounds == 1 && mid.rate >= MIN_RATE
    ensures mid.mode == DecisionMade || (mid.mode == Probing && mid.rate == MIN_RATE && mid.allowance == 0)
  {
    hide AskedChange, Winner, Better;
  }

  lemma PacedStep(mode: Mode, rate: real, d: Direction, centre: real, rates: seq<real>, tailUseful: bool)
    requires Paced(mode, rate, d, centre, rates, tailUseful)
    ensures Stepped(mode, rate, d, centre, tailUseful)
  {
  }

  lemma NextRateFacts(was: Control, now: Control, centre: real, useful: nat, limit: nat, coin: bool)
    requires NextRate(was, now, centre, useful, limit, coin)
    ensures now == was.(rate := now.rate, direction := now.direction)
    ensures was.mode != Probing ==> now == was
    ensures was.mode == Probing && useful == limit ==> now.rate == centre
    ensures was.mode == Probing && useful != limit ==>
              now.rate == Tilt(centre, now.direction) && (useful % 2 == 1 ==> now.direction == Opposite(was.direction))
  {
  }

  lemma PacedCentre(mode: Mode, rate: real, d: Direction, centre: real, rates: seq<real>, tailUseful: bool)
    requires Paced(mode, rate, d, centre, rates, tailUseful)
    ensures mode == Probing ==> centre > 0.0
  {
  }

  lemma DecidedSize(infos: seq<UtilityInfo>, groups: nat, scavenger: bool)
    requires Decided(infos, groups, scavenger)
    ensures |infos| >= 2 * groups
  {
  }

  lemma StartBounded(latest: UtilityInfo, skewed: bool)
    ensures Bounded(Starting, MIN_RATE, 1, 0, latest, skewed)
  {
  }

  /** What a full round of PROBING gives a decision: groups with two different rates, and a strict
      majority for the direction that wins. */
  lemma RoundFacts(infos: seq<UtilityInfo>, groups: nat, scavenger: bool, centre: real)
    requires groups > 0 && centre > 0.0 && Decided(infos, groups, scavenger) && Alternates(InfoRates(infos), centre)
    ensures |infos| >= 2 * groups && infos[0].rate != infos[1].rate
    ensures VotesFor(infos, groups, Winner(infos, groups)) > 0
    ensures forall i: nat :: i < groups ==> infos[2 * i].rate != infos[2 * i + 1].rate
  {
    hide Decided, Alternates, VotesFor, Winner, InfoRates;
    DecidedSize(infos, groups, scavenger);
    DecisionIsMajority(infos, groups, scavenger);
    forall i: nat | i < groups ensures infos[2 * i].rate != infos[2 * i + 1].rate {
      PairDiffers(infos, i, centre);
    }
    PairDiffers(infos, 0, centre);
  }

  /** The two intervals of a group run at different rates. */
  lemma PairDiffers(infos: seq<UtilityInfo>, i: nat, centre: real)
    requires 2 * i + 1 < |infos| && Alternates(InfoRates(infos), centre)
    ensures infos[2 * i].rate != infos[2 * i + 1].rate
  {
    hide Tilt;
    var k := 2 * i + 1;
    assert InfoRates(infos)[k] != InfoRates(infos)[k - 1];
  }

  /** The stored rate is the centre tilted the way of the decision. */
  lemma StoredSide(infos: seq<UtilityInfo>, groups: nat, d: Direction, latest: UtilityInfo, centre: real)
    requires |infos| >= 2 * groups && centre > 0.0 && Alternates(InfoRates(infos), centre)
    requires forall i: nat :: i < groups ==> infos[2 * i].rate != infos[2 * i + 1].rate
    requires exists i: nat :: LastVote(infos, groups, i, d) && latest == Better(infos, i)
    ensures latest.rate == Tilt(centre, d)
  {
    var i: nat :| LastVote(infos, groups, i, d) && latest == Better(infos, i);
    BetterSide(infos, i, d);
    TiltUndone(centre);
    assert InfoRates(infos)[2 * i] == infos[2 * i].rate && InfoRates(infos)[2 * i + 1] == infos[2 * i + 1].rate;
  }

  lemma DecisionBounds(r0: real, centre: real, d: Direction, raw: real,
                       mode: Mode, rate: real, rounds: nat, allowance: nat, latest: UtilityInfo, skewed: bool)
    requires centre > 0.0 && latest.rate == Tilt(centre, d) && skewed == (r0 != centre)
    requires var to := Moved(Tilt(r0, d), d, Capped(raw, Tilt(r0, d), 0));
             if to < MIN_RATE then mode == Probing && rate == MIN_RATE && rounds == 1 && allowance == 0
             else mode == DecisionMade && rate == to && allowance == NextAllowance(raw, Tilt(r0, d), 0) && rounds == 1
    ensures Bounded(mode, rate, rounds, allowance, latest, skewed)
  {
    if !skewed && mode == DecisionMade {
      CentredDecision(centre, d, Capped(raw, Tilt(centre, d), 0));
    }
  }

  lemma FurtherBounds(r0: real, d: Direction, raw: real, a0: nat, n0: nat,
                      mode: Mode, rate: real, rounds: nat, allowance: nat, latest: UtilityInfo, skewed: bool)
    requires r0 >= MIN_RATE && a0 <= n0 && latest.rate == r0
    requires var to := Moved(r0, d, Capped(raw, r0, a0));
             if to < MIN_RATE then mode == Probing && rate == MIN_RATE && rounds == 1 && allowance == 0
             else mode == DecisionMade && rate == to && allowance == NextAllowance(raw, r0, a0) && rounds == n0 + 1
    ensures Bounded(mode, rate, rounds, allowance, latest, skewed)
  {
  }

  function ScaledUp(rate: real, rtt: real): real
    requires rtt > 0.0
  {
    rate * (INITIAL_RTT / rtt)
  }

  lemma Scaled(rate: real, rtt: real)
    requires rate > 0.0 && 0.0 < rtt < INITIAL_RTT
    ensures ScaledUp(rate, rtt) >= rate
  {
    var f := INITIAL_RTT / rtt;
    Quotient(INITIAL_RTT - rtt, rtt);
    assert f - 1.0 == (INITIAL_RTT - rtt) / rtt;
    assert rate * f - rate == rate * (f - 1.0);
  }

  lemma Quotient(a: real, b: real)
    requires a > 0.0 && b > 0.0
    ensures a / b > 0.0
  {
  }

  lemma {:induction false} CountPrefix(q: seq<MonitorInterval>, n: nat)
    requires n <= |q|
    ensures UsefulCount(q[..n]) <= UsefulCount(q)
    decreases |q|
  {
    if n < |q| {
      CountPrefix(q[..|q| - 1], n);
      assert q[..|q| - 1][..n] == q[..n];
    } else {
      assert q[..n] == q;
    }
  }

  lemma ClearKeeps(q: seq<MonitorInterval>, u: nat, flight: map<int, nat>, pending: seq<Packet>, next: int, now: int)
    requires Sound(q, u, flight, pending, next, now)
    ensures Sound([], 0, flight, pending, next, now)
  {
  }

  lemma KindsRates(q: seq<MonitorInterval>, r: seq<MonitorInterval>)
    requires SameKinds(q, r)
    ensures Rates(r) == Rates(q) && TailUseful(r) == TailUseful(q)
  {
    RatesSame(q, r);
  }

  lemma KindsLength(q: seq<MonitorInterval>, r: seq<MonitorInterval>)
    requires SameKinds(q, r)
    ensures |r| == |q|
  {
  }

  lemma StepPositive(rate: real, d: Direction, centre: real)
    requires centre > 0.0 && (rate == centre || rate == Tilt(centre, d))
    ensures rate > 0.0
  {
    TiltUndone(centre);
  }

  lemma Lands(q: seq<MonitorInterval>, flight: map<int, nat>, pending: seq<Packet>, next: int, now: int, u: nat,
              losses: seq<Packet>, acks: seq<Packet>)
    requires Sound(q, u, flight, pending, next, now) && Reported(losses, flight) && Reported(acks, Landed(flight, losses))
    ensures Past(Landed(Landed(flight, losses), acks), pending, next)
  {
    LandedPast(flight, losses, acks, pending, next);
  }

  lemma EmptySound(u: nat, flight: map<int, nat>, landed: map<int, nat>, pending: seq<Packet>, next: int, now: int)
    requires Sound([], u, flight, pending, next, now) && Past(landed, pending, next)
    ensures Sound([], u, landed, pending, next, now)
  {
  }

  lemma NotEmpty(q: seq<MonitorInterval>, u: nat, flight: map<int, nat>, pending: seq<Packet>, next: int, now: int)
    requires Sound(q, u, flight, pending, next, now) && u > 0
    ensures q != []
  {
  }

  lemma NothingPaced(mode: Mode, rate: real, d: Direction, centre: real)
    requires mode == Probing ==> centre > 0.0 && rate == centre
    ensures Paced(mode, rate, d, centre, [], false)
  {
  }

  lemma GatherNone(q: seq<MonitorInterval>)
    ensures InfoRates([]) == Rates(q[..0]) == [] && UsefulCount(q[..0]) == 0
  {
  }

  lemma InfoAppend(infos: seq<UtilityInfo>, info: UtilityInfo)
    ensures InfoRates(infos + [info]) == InfoRates(infos) + [info.rate]
  {
  }

  ghost predicate LongEnough(v: MonitorInterval, time: int, duration: real) {
    v.isUseful && v.hasEnough && (time - v.firstTime) as real >= duration
  }

  /** At most four fifths of its samples are reliable, and it was not given more time before. */
  ghost predicate Extendable(v: MonitorInterval) {
    !v.extended && v.reliable as real <= MIN_RELIABILITY_RATIO * v.samples as real
  }

  lemma Ratio(a: nat, b: nat)
    requires b > 0
    ensures a as real / b as real > MIN_RELIABILITY_RATIO <==> a as real > MIN_RELIABILITY_RATIO * b as real
  {
    var r := a as real / b as real;
    assert r * b as real == a as real;
    if r > MIN_RELIABILITY_RATIO {
      assert (r - MIN_RELIABILITY_RATIO) * b as real > 0.0;
    } else {
      assert (MIN_RELIABILITY_RATIO - r) * b as real >= 0.0;
    }
  }

  /** The last useful interval in the queue runs at the last listed rate. */
  lemma LastRate(q: seq<MonitorInterval>)
    ensures TailUseful(q) ==> Rates(q) != [] && Rates(q)[|Rates(q)| - 1] == q[|q| - 1].rate
  {
  }

  function Extended(q: seq<MonitorInterval>): seq<MonitorInterval>
    requires q != []
  {
    q[|q| - 1 := q[|q| - 1].(extended := true)]
  }

  lemma QueueFacts(q: seq<MonitorInterval>, u: nat, flight: map<int, nat>, pending: seq<Packet>, next: int, now: int)
    requires Sound(q, u, flight, pending, next, now)
    ensures u == UsefulCount(q) == |Rates(q)| && (q == [] ==> u == 0) && (u == 0 ==> !TailUseful(q))
    ensures forall n :: n in flight ==> n < next
  {
    if u == 0 {
      NoneUseful(q);
    }
  }

  lemma RatesExtended(q: seq<MonitorInterval>, r: seq<MonitorInterval>)
    requires r == q || (q != [] && r == Extended(q))
    ensures Rates(r) == Rates(q) && TailUseful(r) == TailUseful(q)
  {
    RatesSame(q, r);
  }

  lemma SentRates(q: seq<MonitorInterval>, time: int, p: Packet)
    requires q != []
    ensures Rates(Sending(q, time, p)) == Rates(q) && TailUseful(Sending(q, time, p)) == TailUseful(q)
  {
    RatesSame(q, Sending(q, time, p));
  }

  /** Opening an interval keeps the pace. */
  lemma OpenPaced(mode: Mode, r0: real, d0: Direction, centre: real, q: seq<MonitorInterval>, u: nat,
                  rate: real, d: Direction, scavenger: bool, isUseful: bool, time: int, p: Packet)
    requires u == |Rates(q)| <= MaxUseful(mode) && (u > 0 ==> TailUseful(q))
    requires Paced(mode, r0, d0, centre, Rates(q), TailUseful(q))
    requires mode != Probing ==> rate == r0 && d == d0
    requires mode == Probing && u == Limit(mode, scavenger) ==> rate == centre
    requires mode == Probing && u != Limit(mode, scavenger) ==>
               rate == Tilt(centre, d) && (u % 2 == 1 ==> d == Opposite(d0))
    requires mode == Probing || isUseful ==> (isUseful <==> u < Limit(mode, scavenger))
    ensures var r := Sending(q + [Fresh(rate, isUseful)], time, p);
            && Paced(mode, rate, d, centre, Rates(r), TailUseful(r))
            && |Rates(r)| == u + (if isUseful then 1 else 0) <= MaxUseful(mode)
            && (u <= Limit(mode, scavenger) ==> |Rates(r)| <= Limit(mode, scavenger) && Steady(mode, rate, centre, TailUseful(r)))
  {
    hide Rates, Sending;
    var v := WithPacket(Fresh(rate, isUseful), time, p);
    AppendSent(q, Fresh(rate, isUseful), time, p);
    RatesAppend(q, v);
    if mode == Probing && isUseful {
      ProbeNext(Rates(q), centre, d0, d);
    }
  }

  lemma AppendSent(q: seq<MonitorInterval>, v: MonitorInterval, time: int, p: Packet)
    ensures Sending(q + [v], time, p) == q + [WithPacket(v, time, p)]
  {
  }

  lemma OpenBounded(mode: Mode, r0: real, rate: real, rounds: nat, allowance: nat, latest: UtilityInfo, skewed: bool,
                    centre: real, d: Direction)
    requires Bounded(mode, r0, rounds, allowance, latest, skewed)
    requires mode != Probing ==> rate == r0
    requires mode == Probing ==> centre > 0.0 && (rate == centre || rate == Tilt(centre, d))
    ensures Bounded(mode, rate, rounds, allowance, latest, skewed)
  {
  }

  /** The sender after an interval has been opened. */
  lemma Opens(was: Control, now: Control, centre: real, skewed: bool, q: seq<MonitorInterval>, u: nat, scavenger: bool,
              isUseful: bool, coin: bool, time: int, p: Packet)
    requires Bounded(was.mode, was.rate, was.rounds, was.allowance, was.latest, skewed)
    requires Paced(was.mode, was.rate, was.direction, centre, Rates(q), TailUseful(q))
    requires u == |Rates(q)| <= MaxUseful(was.mode) && (u > 0 ==> TailUseful(q))
    requires NextRate(was, now, centre, u, Limit(was.mode, scavenger), coin)
    requires was.mode == Probing || isUseful ==> (isUseful <==> u < Limit(was.mode, scavenger))
    ensures Bounded(now.mode, now.rate, now.rounds, now.allowance, now.latest, skewed)
    ensures var r := Sending(q + [Fresh(now.rate, isUseful)], time, p); var n := u + if isUseful then 1 else 0;
            && Paced(now.mode, now.rate, now.direction, centre, Rates(r), TailUseful(r)) && n <= MaxUseful(now.mode)
            && (u <= Limit(was.mode, scavenger) ==> n <= Limit(now.mode, scavenger) && Steady(now.mode, now.rate, centre, TailUseful(r)))
  {
    hide Bounded, Paced, Rates, NextRate, Tilt, TailUseful, Sending, Steady, Limit, MaxUseful;
    var limit := Limit(was.mode, scavenger);
    PacedCentre(was.mode, was.rate, was.direction, centre, Rates(q), TailUseful(q));
    NextRateFacts(was, now, centre, u, limit, coin);
    OpenBounded(was.mode, was.rate, now.rate, was.rounds, was.allowance, was.latest, skewed, centre, now.direction);
    OpenPaced(was.mode, was.rate, was.direction, centre, q, u, now.rate, now.direction, scavenger, isUseful, time, p);
  }
}
