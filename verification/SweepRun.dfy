/** The loss sweep of the sender within the protocol: what it does in one go is a row of timeouts. */
module SweepRuns {
  import opened Records
  import opened SeqNo
  import opened SenderModel
  import opened Sender
  import opened Protocol
  import opened ProtocolRuns

  function Timeouts(order: seq<int>): (steps: seq<Step>)
    ensures |steps| == |order| && forall k :: 0 <= k < |order| ==> steps[k] == Timeout(order[k])
  {
    seq(|order|, k requires 0 <= k < |order| => Timeout(order[k]))
  }

  function Reported(sys: System, order: seq<int>): System {
    sys.(snd := LostAll(sys.snd, order))
  }

  /** The states after each of the reports. */
  function Reports(sys: System, order: seq<int>): (states: seq<System>)
    ensures |states| == |order| && forall k :: 0 <= k < |order| ==> states[k] == Reported(sys, order[..k + 1])
  {
    seq(|order|, k requires 0 <= k < |order| => Reported(sys, order[..k + 1]))
  }

  /** Reports leave the records of all other packets as they are. */
  lemma {:induction false} OthersKept(st: SenderState, order: seq<int>)
    ensures LostAll(st, order).records.Keys == st.records.Keys
    ensures forall s :: s in st.records && s !in order ==> LostAll(st, order).records[s] == st.records[s]
  {
    if order != [] {
      OthersKept(st, order[..|order| - 1]);
    }
  }

  /** Packet k of the order is in flight and has not been reported before. */
  ghost predicate Reportable(sys: System, order: seq<int>, k: nat)
    requires k < |order|
  {
    && order[k] in sys.snd.records && order[k] !in order[..k]
    && sys.snd.records[order[k]].state.SENT? && sys.snd.records[order[k]].messages != []
  }

  lemma NextReport(sys: System, order: seq<int>, k: nat)
    requires k < |order| && Reportable(sys, order, k)
    ensures Enabled(Reported(sys, order[..k]), Timeout(order[k]))
    ensures Follows(Reported(sys, order[..k]), Timeout(order[k]), Reported(sys, order[..k + 1]))
  {
    hide LostAll, MarkedLost;
    OthersKept(sys.snd, order[..k]);
    LoseOneMore(sys.snd, order[..k], order[k]);
    assert order[..k + 1] == order[..k] + [order[k]];
  }

  /** After any run, a sweep of the sender's records goes on with a timeout for every expired packet, oldest
      first.  That is a run again, and it ends in the state that the sweep leaves. */
  lemma SweepIsRun(isn: SeqNum, ringSize: nat, steps: seq<Step>, states: seq<System>, order: seq<int>, cur: nat, thresholdUs: nat)
    returns (states': seq<System>)
    requires IsRun(isn, ringSize, steps, states)
    requires var snd := states[|steps|].snd; IsSweep(snd.records, LostAll(snd, order).records, order, cur, thresholdUs)
    ensures IsRun(isn, ringSize, steps + Timeouts(order), states')
    ensures |states'| == |states| + |order| && states'[..|states|] == states
    ensures states'[|states'| - 1] == states[|steps|].(snd := LostAll(states[|steps|].snd, order))
  {
    hide Protocol.Inv, LostAll, IsRun, IsSweep, Chain, Reports, Timeouts, Reported;
    LastOf(isn, ringSize, steps, states);
    RunKeepsInv(isn, ringSize, steps, states, |steps|);
    var sys := states[|steps|];
    SweptInFlight(sys, order, cur, thresholdUs);
    ReportsChain(sys, order);
    RunsOn(isn, ringSize, steps, states, Timeouts(order), Reports(sys, order));
    states' := states + Reports(sys, order);
    LastReport(sys, order);
  }

  lemma LastReport(sys: System, order: seq<int>)
    ensures (if order == [] then sys else Reports(sys, order)[|order| - 1]) == sys.(snd := LostAll(sys.snd, order))
  {
    hide LostAll;
    NothingReported(sys);
    assert order[..|order|] == order;
  }

  lemma LastOf(isn: SeqNum, ringSize: nat, steps: seq<Step>, states: seq<System>)
    requires IsRun(isn, ringSize, steps, states)
    ensures |states| == |steps| + 1
  {
  }

  /** More steps, with the states that they lead to. */
  ghost predicate Chain(sys: System, steps: seq<Step>, states: seq<System>) {
    |states| == |steps| && forall k :: 0 <= k < |steps| ==> Enabled(Before(sys, states, k), steps[k]) && Follows(Before(sys, states, k), steps[k], states[k])
  }

  function Before(sys: System, states: seq<System>, k: int): System
    requires 0 <= k <= |states|
  {
    if k == 0 then sys else states[k - 1]
  }

  lemma RunsOn(isn: SeqNum, ringSize: nat, steps: seq<Step>, states: seq<System>, steps': seq<Step>, states': seq<System>)
    requires IsRun(isn, ringSize, steps, states) && Chain(states[|steps|], steps', states')
    ensures IsRun(isn, ringSize, steps + steps', states + states')
  {
    hide Enabled, Follows, Initial;
    var ts, ss, n := steps + steps', states + states', |steps|;
    forall i | 0 <= i < |ts| ensures Enabled(ss[i], ts[i]) && Follows(ss[i], ts[i], ss[i + 1]) {
      if i < n {
        assert Enabled(states[i], steps[i]) && Follows(states[i], steps[i], states[i + 1]);
        assert ss[i] == states[i] && ss[i + 1] == states[i + 1] && ts[i] == steps[i];
      } else {
        var k := i - n;
        assert Enabled(Before(states[n], states', k), steps'[k]) && Follows(Before(states[n], states', k), steps'[k], states'[k]);
        assert ss[i] == Before(states[n], states', k) && ss[i + 1] == states'[k] && ts[i] == steps'[k];
      }
    }
  }

  lemma ReportsChain(sys: System, order: seq<int>)
    requires forall k :: 0 <= k < |order| ==> Reportable(sys, order, k)
    ensures Chain(sys, Timeouts(order), Reports(sys, order))
  {
    hide Enabled, Follows, Reportable, Reported;
    NothingReported(sys);
    assert order[..0] == [];
    forall k | 0 <= k < |order|
      ensures Enabled(Before(sys, Reports(sys, order), k), Timeouts(order)[k])
      ensures Follows(Before(sys, Reports(sys, order), k), Timeouts(order)[k], Reports(sys, order)[k])
    {
      NextReport(sys, order, k);
      assert Before(sys, Reports(sys, order), k) == Reported(sys, order[..k]);
    }
  }

  lemma NothingReported(sys: System)
    ensures Reported(sys, []) == sys
  {
  }

  /** Every packet that a sweep reports was in flight, and is reported once. */
  lemma SweptInFlight(sys: System, order: seq<int>, cur: nat, thresholdUs: nat)
    requires Protocol.Inv(sys) && IsSweep(sys.snd.records, LostAll(sys.snd, order).records, order, cur, thresholdUs)
    ensures forall k :: 0 <= k < |order| ==> Reportable(sys, order, k)
  {
    hide Protocol.Inv, LostAll, IsSweep, AgeUs;
    forall k | 0 <= k < |order| ensures Reportable(sys, order, k) {
      SweptMember(sys.snd.records, LostAll(sys.snd, order).records, order, cur, thresholdUs, k);
    }
  }

  lemma SweptMember(rs0: Recorded, rs: Recorded, order: seq<int>, cur: nat, thresholdUs: nat, k: nat)
    requires IsSweep(rs0, rs, order, cur, thresholdUs) && k < |order|
    ensures order[k] in rs0 && Expired(rs0[order[k]], cur, thresholdUs) && order[k] !in order[..k]
  {
    var s := order[k];
    assert s in order <==> s in rs0 && Expired(rs0[s], cur, thresholdUs);
  }
}
