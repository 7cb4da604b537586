/** The rates of the Vivace sender over exact reals: what a PROBING round keeps, how a rate change
    is bounded, and when the assertion in `ComputeRateChange` can fail. */
module RateControl {
  import opened MonitorIntervals
  import opened MonitorQueues
  import opened RateVotes

  datatype Mode = Starting | Probing | DecisionMade

  const MIN_RATE: real := 500000.0
  const MIN_CHANGE: real := 500000.0
  const MEGABIT: real := 1048576.0
  const PROBING_STEP: real := 0.05
  const MAX_STEP: real := 0.05
  const STEP_INCREMENT: real := 0.05

  function Groups(scavenger: bool): nat {
    if scavenger then 2 else 3
  }

  /** How many useful intervals a mode allows in the queue. */
  function Limit(mode: Mode, scavenger: bool): nat {
    if mode == Probing then 2 * Groups(scavenger) else 1
  }

  /** How many a mode allows under any utility tag. */
  function MaxUseful(mode: Mode): nat {
    Limit(mode, false)
  }

  function Tilt(rate: real, d: Direction): real {
    if d == Increase then rate * (1.0 + PROBING_STEP) else rate * (1.0 - PROBING_STEP)
  }

  function Opposite(d: Direction): Direction {
    if d == Increase then Decrease else Increase
  }

  /** Bandwidths are never negative. */
  function Minus(a: real, b: real): real {
    if a >= b then a - b else 0.0
  }

  function Moved(rate: real, d: Direction, change: real): real {
    if d == Increase then rate + change else Minus(rate, change)
  }

  function Larger(a: real, b: real): real {
    if a >= b then a else b
  }

  // ---------- rates of the useful intervals ----------

  function Rates(q: seq<MonitorInterval>): (r: seq<real>)
    ensures |r| == UsefulCount(q)
  {
    if q == [] then [] else Rates(q[..|q| - 1]) + if q[|q| - 1].isUseful then [q[|q| - 1].rate] else []
  }

  lemma RatesAppend(q: seq<MonitorInterval>, v: MonitorInterval)
    ensures Rates(q + [v]) == Rates(q) + if v.isUseful then [v.rate] else []
  {
    assert (q + [v])[..|q|] == q;
  }

  lemma {:induction false} RatesSame(q: seq<MonitorInterval>, r: seq<MonitorInterval>)
    requires |r| == |q| && forall i :: 0 <= i < |q| ==> r[i].isUseful == q[i].isUseful && r[i].rate == q[i].rate
    ensures Rates(r) == Rates(q)
  {
    if q != [] {
      RatesSame(q[..|q| - 1], r[..|r| - 1]);
    }
  }

  ghost predicate TailUseful(q: seq<MonitorInterval>) {
    q != [] && q[|q| - 1].isUseful
  }

  /** Every rate is the centre raised or lowered by one step, and the two of a group differ. */
  ghost predicate Alternates(rates: seq<real>, centre: real) {
    && (forall k :: 0 <= k < |rates| ==> rates[k] == Tilt(centre, Increase) || rates[k] == Tilt(centre, Decrease))
    && (forall k :: 0 <= k < |rates| && k % 2 == 1 ==> rates[k] != rates[k - 1])
  }

  /** In PROBING the sending rate is the centre or the centre tilted by the current direction, and
      tilted while the last interval is useful. */
  ghost predicate Stepped(mode: Mode, rate: real, d: Direction, centre: real, tailUseful: bool) {
    mode == Probing ==>
      && centre > 0.0 && (rate == centre || rate == Tilt(centre, d))
      && (tailUseful ==> rate == Tilt(centre, d))
  }

  /** The rate is back at the centre once an interval that is not useful ends the round. */
  ghost predicate Steady(mode: Mode, rate: real, centre: real, tailUseful: bool) {
    mode == Probing && !tailUseful ==> rate == centre
  }

  /** Where `RestoreCentralSendingRate` takes the rate. */
  ghost function Home(rate: real, centre: real, tailUseful: bool): real {
    if tailUseful then centre else rate
  }

  /** How the rates of the useful intervals relate to the sending rate. */
  ghost predicate Paced(mode: Mode, rate: real, d: Direction, centre: real, rates: seq<real>, tailUseful: bool) {
    && Stepped(mode, rate, d, centre, tailUseful)
    && (mode == Probing ==> Alternates(rates, centre) && (rates == [] ==> rate == centre))
    && (mode == Probing && tailUseful ==> rates != [] && rates[|rates| - 1] == rate)
    && (mode == DecisionMade ==> forall k :: 0 <= k < |rates| ==> rates[k] == rate)
  }

  /** Bounds that hold between calls. */
  ghost predicate Bounded(mode: Mode, rate: real, rounds: nat, allowance: nat, latest: UtilityInfo, skewed: bool) {
    && rate > 0.0 && rounds >= 1
    && (mode != Probing ==> rate >= MIN_RATE)
    && (mode == DecisionMade ==> allowance <= rounds && (rate == latest.rate ==> skewed))
  }

  /** A new interval of a PROBING round: the other direction within a group, either one at the
      start of a group. */
  lemma ProbeNext(rates: seq<real>, centre: real, was: Direction, d: Direction)
    requires centre > 0.0 && Alternates(rates, centre)
    requires rates != [] ==> rates[|rates| - 1] == Tilt(centre, was)
    requires |rates| % 2 == 1 ==> d == Opposite(was)
    ensures Alternates(rates + [Tilt(centre, d)], centre)
  {
  }

  /** Leaving a step takes the rate back to the centre exactly. */
  lemma TiltUndone(centre: real)
    ensures Tilt(centre, Increase) * (1.0 / (1.0 + PROBING_STEP)) == centre
    ensures Tilt(centre, Decrease) * (1.0 / (1.0 - PROBING_STEP)) == centre
    ensures centre > 0.0 ==> Tilt(centre, Increase) > Tilt(centre, Decrease) > 0.0
  {
  }

  // ---------- rate changes ----------

  /** The change that the utilities ask for; `amplifier` is the power of the round number. */
  function RawChange(deltaUtility: real, deltaRate: real, amplifier: real): real
    requires deltaRate != 0.0
  {
    MEGABIT * deltaUtility / deltaRate * MEGABIT * amplifier
  }

  /** The change is to the rate difference as the utility difference asks for: a gradient per megabit. */
  lemma RawChangeMeans(deltaUtility: real, deltaRate: real, amplifier: real)
    requires deltaRate != 0.0
    ensures RawChange(deltaUtility, deltaRate, amplifier) * deltaRate == MEGABIT * MEGABIT * deltaUtility * amplifier
  {
    var q := MEGABIT * deltaUtility / deltaRate;
    assert q * deltaRate == MEGABIT * deltaUtility;
    MulThrough(q, MEGABIT * amplifier, deltaRate);
    assert RawChange(deltaUtility, deltaRate, amplifier) == q * (MEGABIT * amplifier);
    assert MEGABIT * deltaUtility * (MEGABIT * amplifier) == MEGABIT * MEGABIT * deltaUtility * amplifier;
  }

  lemma MulThrough(q: real, f: real, d: real)
    ensures q * f * d == q * d * f
  {
  }

  function MaxChange(rate: real, allowance: nat): real {
    rate * (MAX_STEP + STEP_INCREMENT * allowance as real)
  }

  /** The allowed share of the rate is a twentieth, and one more for each step of the allowance. */
  lemma MaxChangeMeans(rate: real, allowance: nat)
    ensures 20.0 * MaxChange(rate, allowance) == rate * (allowance + 1) as real
  {
    assert MaxChange(rate, allowance) == rate * (0.05 * (allowance + 1) as real);
  }

  /** The change that is made. */
  function Capped(raw: real, rate: real, allowance: nat): (c: real)
    ensures c >= MIN_CHANGE
    ensures c <= Larger(MaxChange(rate, allowance), MIN_CHANGE)
  {
    Larger(if raw > MaxChange(rate, allowance) then MaxChange(rate, allowance) else raw, MIN_CHANGE)
  }

  function NextAllowance(raw: real, rate: real, allowance: nat): (n: nat)
    ensures n <= allowance + 1
  {
    if raw > MaxChange(rate, allowance) then allowance + 1 else if allowance > 0 then allowance - 1 else 0
  }

  /** The change is the one that is asked for if that is within bounds, and else the bound; the allowance
      grows exactly when the change is held back, and else shrinks. */
  lemma CappedMeans(raw: real, rate: real, allowance: nat)
    ensures var most, change := MaxChange(rate, allowance), Capped(raw, rate, allowance);
            && (MIN_CHANGE <= raw <= most ==> change == raw)
            && (raw > most >= MIN_CHANGE ==> change == most)
            && (raw <= MIN_CHANGE || most <= MIN_CHANGE ==> change == MIN_CHANGE)
    ensures NextAllowance(raw, rate, allowance) == allowance + 1 <==> raw > MaxChange(rate, allowance)
    ensures raw <= MaxChange(rate, allowance) ==>
              if allowance == 0 then NextAllowance(raw, rate, allowance) == 0 else NextAllowance(raw, rate, allowance) == allowance - 1
  {
  }

  /** A decision made while the last interval is useless starts from the centre, so the new rate
      differs from the stored one. */
  lemma CentredDecision(centre: real, d: Direction, change: real)
    requires centre > 0.0 && change >= MIN_CHANGE && Moved(Tilt(centre, d), d, change) >= MIN_RATE
    ensures Moved(Tilt(centre, d), d, change) != Tilt(centre, d)
  {
  }

  /** A decision made away from the centre, as while the last interval is still useful, starts from a
      rate tilted to the side s.  The new rate then meets the stored one exactly when the vote went
      against the tilt and the change is one probing step of the stored rate. */
  lemma SkewedDecision(centre: real, s: Direction, d: Direction, raw: real)
    requires centre > 0.0
    requires Moved(Tilt(Tilt(centre, s), d), d, Capped(raw, Tilt(Tilt(centre, s), d), 0)) >= MIN_RATE
    ensures Moved(Tilt(Tilt(centre, s), d), d, Capped(raw, Tilt(Tilt(centre, s), d), 0)) == Tilt(centre, d)
       <==> s != d && Capped(raw, Tilt(Tilt(centre, s), d), 0) == PROBING_STEP * Tilt(centre, d)
  {
    var change := Capped(raw, Tilt(Tilt(centre, s), d), 0);
    assert change >= MIN_CHANGE > 0.0;
  }

  /** It can happen: at this centre a raised decision after a lowered interval ends at the stored
      rate whatever the utilities are. */
  lemma SkewedClash(raw: real)
    ensures var centre := 200000000.0 / 21.0; var from := Tilt(Tilt(centre, Decrease), Increase);
            Moved(from, Increase, Capped(raw, from, 0)) == Tilt(centre, Increase)
  {
    var centre := 200000000.0 / 21.0;
    var from := Tilt(Tilt(centre, Decrease), Increase);
    assert MaxChange(from, 0) < MIN_CHANGE;
  }
}
