/** How Vivace reads the utilities of a PROBING round: every group of two intervals votes for a
    direction (pcc_vivace_sender.cpp).  The number of groups is left open. */
module RateVotes {

  datatype Direction = Increase | Decrease

  /** The rate of an interval and its utility, which is arbitrary here. */
  datatype UtilityInfo = UtilityInfo(rate: real, utility: real)

  /** Group i votes for the rate with the better utility. */
  predicate VotesIncrease(infos: seq<UtilityInfo>, i: nat)
    requires 2 * i + 1 < |infos|
  {
    if infos[2 * i].utility > infos[2 * i + 1].utility then infos[2 * i].rate > infos[2 * i + 1].rate
    else infos[2 * i].rate < infos[2 * i + 1].rate
  }

  /** The votes for increasing among the first n groups. */
  function Increases(infos: seq<UtilityInfo>, n: nat): (c: nat)
    requires 2 * n <= |infos|
    ensures c <= n
  {
    if n == 0 then 0 else Increases(infos, n - 1) + if VotesIncrease(infos, n - 1) then 1 else 0
  }

  /** `CanMakeDecision`: how clear the votes must be depends on the kind of sender. */
  predicate Decided(infos: seq<UtilityInfo>, groups: nat, scavenger: bool) {
    |infos| >= 2 * groups &&
    var up := Increases(infos, groups);
    var down := groups - up;
    if scavenger then down > groups / 2 || up == groups else up > groups / 2 || down == groups
  }

  function Winner(infos: seq<UtilityInfo>, groups: nat): Direction
    requires |infos| >= 2 * groups
  {
    if Increases(infos, groups) > groups - Increases(infos, groups) then Increase else Decrease
  }

  predicate VotedFor(infos: seq<UtilityInfo>, i: nat, d: Direction)
    requires 2 * i + 1 < |infos|
  {
    VotesIncrease(infos, i) == (d == Increase)
  }

  function Better(infos: seq<UtilityInfo>, i: nat): UtilityInfo
    requires 2 * i + 1 < |infos|
  {
    if infos[2 * i].utility > infos[2 * i + 1].utility then infos[2 * i] else infos[2 * i + 1]
  }

  /** The votes a direction has. */
  function VotesFor(infos: seq<UtilityInfo>, groups: nat, d: Direction): nat
    requires |infos| >= 2 * groups
  {
    if d == Increase then Increases(infos, groups) else groups - Increases(infos, groups)
  }

  /** What a vote says: of two different utilities the better one lies on that side, and of two equal
      ones the second counts as better. */
  lemma VoteMeans(infos: seq<UtilityInfo>, i: nat)
    requires 2 * i + 1 < |infos|
    ensures var a, b := infos[2 * i], infos[2 * i + 1];
            && (a.utility != b.utility ==> (VotesIncrease(infos, i) <==> (a.rate - b.rate) * (a.utility - b.utility) > 0.0))
            && (a.utility == b.utility ==> (VotesIncrease(infos, i) <==> a.rate < b.rate))
  {
    var a, b := infos[2 * i], infos[2 * i + 1];
    SameSigns(a.rate - b.rate, a.utility - b.utility);
  }

  lemma SameSigns(x: real, y: real)
    ensures x * y > 0.0 <==> (x > 0.0 && y > 0.0) || (x < 0.0 && y < 0.0)
  {
    if x > 0.0 && y < 0.0 {
      assert x * (-y) > 0.0;
    } else if x < 0.0 && y > 0.0 {
      assert (-x) * y > 0.0;
    } else if x < 0.0 && y < 0.0 {
      assert (-x) * (-y) > 0.0;
    }
  }

  /** The groups that vote for a direction. */
  ghost function Voters(infos: seq<UtilityInfo>, groups: nat, d: Direction): set<int>
    requires |infos| >= 2 * groups
  {
    set i | 0 <= i < groups && VotedFor(infos, i, d)
  }

  lemma {:induction false} VotersCount(infos: seq<UtilityInfo>, groups: nat)
    requires |infos| >= 2 * groups
    ensures |Voters(infos, groups, Increase)| == Increases(infos, groups)
    ensures |Voters(infos, groups, Decrease)| == groups - Increases(infos, groups)
  {
    hide VotesIncrease;
    if groups == 0 {
      assert Voters(infos, 0, Increase) == {} && Voters(infos, 0, Decrease) == {};
    } else {
      VotersCount(infos, groups - 1);
      VotersNext(infos, groups - 1, Increase);
      VotersNext(infos, groups - 1, Decrease);
    }
  }

  lemma VotersNext(infos: seq<UtilityInfo>, n: nat, d: Direction)
    requires |infos| >= 2 * (n + 1)
    ensures Voters(infos, n + 1, d) == Voters(infos, n, d) + if VotedFor(infos, n, d) then {n} else {}
    ensures |Voters(infos, n + 1, d)| == |Voters(infos, n, d)| + if VotedFor(infos, n, d) then 1 else 0
  {
    hide VotedFor;
    var next := if VotedFor(infos, n, d) then {n} else {};
    forall i ensures i in Voters(infos, n + 1, d) <==> i in Voters(infos, n, d) + next {
    }
    assert Voters(infos, n + 1, d) == Voters(infos, n, d) + next;
    assert n !in Voters(infos, n, d);
  }

  /** A primary sender goes up on a majority and down on unanimity, a scavenger the other way round;
      nothing else is a decision, and an incomplete round never is one. */
  lemma DecidedMeans(infos: seq<UtilityInfo>, groups: nat, scavenger: bool)
    requires groups > 0
    ensures |infos| < 2 * groups ==> !Decided(infos, groups, scavenger)
    ensures |infos| >= 2 * groups ==>
              var easy := if scavenger then Decrease else Increase;
              var hard := if scavenger then Increase else Decrease;
              && (Decided(infos, groups, scavenger) && Winner(infos, groups) == easy <==> 2 * |Voters(infos, groups, easy)| > groups)
              && (Decided(infos, groups, scavenger) && Winner(infos, groups) == hard <==> |Voters(infos, groups, hard)| == groups)
  {
    if |infos| >= 2 * groups {
      VotersCount(infos, groups);
    }
  }

  /** When a decision can be made, the direction taken has a strict majority. */
  lemma DecisionIsMajority(infos: seq<UtilityInfo>, groups: nat, scavenger: bool)
    requires groups > 0 && Decided(infos, groups, scavenger)
    ensures 2 * VotesFor(infos, groups, Winner(infos, groups)) > groups
  {
  }

  lemma {:induction false} SomeVote(infos: seq<UtilityInfo>, n: nat, d: Direction)
    requires |infos| >= 2 * n && VotesFor(infos, n, d) > 0
    ensures exists i: nat :: i < n && VotedFor(infos, i, d)
  {
    if VotedFor(infos, n - 1, d) {
    } else {
      SomeVote(infos, n - 1, d);
    }
  }

  /** The better interval of a group that voted for d has its rate on that side of its partner. */
  lemma BetterSide(infos: seq<UtilityInfo>, i: nat, d: Direction)
    requires 2 * i + 1 < |infos| && VotedFor(infos, i, d) && infos[2 * i].rate != infos[2 * i + 1].rate
    ensures d == Increase ==> Better(infos, i).rate >= infos[2 * i].rate && Better(infos, i).rate >= infos[2 * i + 1].rate
    ensures d == Decrease ==> Better(infos, i).rate <= infos[2 * i].rate && Better(infos, i).rate <= infos[2 * i + 1].rate
    ensures Better(infos, i).utility >= infos[2 * i].utility && Better(infos, i).utility >= infos[2 * i + 1].utility
  {
  }

  /** The counting loop shared by `CanMakeDecision` and `SetRateChangeDirection`. */
  method CountVotes(infos: seq<UtilityInfo>, groups: nat) returns (up: nat, down: nat)
    requires |infos| >= 2 * groups
    ensures up == Increases(infos, groups) && down == groups - up
  {
    up, down := 0, 0;
    for i := 0 to groups
      invariant up == Increases(infos, i) && down == i - up
    {
      var increase := if infos[2 * i].utility > infos[2 * i + 1].utility
        then infos[2 * i].rate > infos[2 * i + 1].rate
        else infos[2 * i].rate < infos[2 * i + 1].rate;
      if increase {
        up := up + 1;
      } else {
        down := down + 1;
      }
    }
  }

  method CanMakeDecision(infos: seq<UtilityInfo>, groups: nat, scavenger: bool) returns (can: bool)
    ensures can <==> Decided(infos, groups, scavenger)
  {
    if |infos| < 2 * groups {
      return false;
    }
    var up, down := CountVotes(infos, groups);
    return if !scavenger then up > groups / 2 || down == groups else down > groups / 2 || up == groups;
  }

  /** Group i is the last of the groups that has voted for d. */
  ghost predicate LastVote(infos: seq<UtilityInfo>, groups: nat, i: nat, d: Direction)
    requires |infos| >= 2 * groups
  {
    i < groups && VotedFor(infos, i, d) && forall j: nat :: i < j < groups ==> !VotedFor(infos, j, d)
  }

  lemma {:induction false} NoVote(infos: seq<UtilityInfo>, n: nat, d: Direction, i: nat)
    requires |infos| >= 2 * n && i < n && VotedFor(infos, i, d)
    ensures VotesFor(infos, n, d) > 0
  {
    if i < n - 1 {
      NoVote(infos, n - 1, d, i);
    }
  }

  /** `SetRateChangeDirection`: the direction with more votes, and the better interval of the last
      group that voted for it. */
  method ChooseDirection(infos: seq<UtilityInfo>, groups: nat, was: UtilityInfo) returns (d: Direction, latest: UtilityInfo)
    requires |infos| >= 2 * groups
    ensures d == Winner(infos, groups)
    ensures VotesFor(infos, groups, d) == 0 ==> latest == was
    ensures VotesFor(infos, groups, d) > 0 ==> exists i: nat :: LastVote(infos, groups, i, d) && latest == Better(infos, i)
  {
    var up, down := CountVotes(infos, groups);
    d := if up > down then Increase else Decrease;
    latest := was;
    ghost var at: int := -1;
    for i := 0 to groups
      invariant -1 <= at < i && (at == -1 ==> latest == was)
      invariant at == -1 ==> forall j: nat :: j < i ==> !VotedFor(infos, j, d)
      invariant at >= 0 ==> LastVote(infos, i, at, d) && latest == Better(infos, at)
    {
      var increase := if infos[2 * i].utility > infos[2 * i + 1].utility
        then infos[2 * i].rate > infos[2 * i + 1].rate
        else infos[2 * i].rate < infos[2 * i + 1].rate;
      if (increase && d == Increase) || (!increase && d == Decrease) {
        latest := if infos[2 * i].utility > infos[2 * i + 1].utility then infos[2 * i] else infos[2 * i + 1];
        at := i;
      }
    }
    if VotesFor(infos, groups, d) > 0 {
      SomeVote(infos, groups, d);
    } else if at >= 0 {
      NoVote(infos, groups, d, at);
    }
  }

  function Gap(a: real, b: real): (g: real)
    ensures g >= 0.0 && (g == 0.0 <==> a == b)
  {
    if a >= b then a - b else b - a
  }

  /** The utility differences of the groups that voted for d. */
  function Support(infos: seq<UtilityInfo>, n: nat, d: Direction): (s: real)
    requires |infos| >= 2 * n
    ensures s >= 0.0
  {
    if n == 0 then 0.0
    else if VotedFor(infos, n - 1, d) then Support(infos, n - 1, d) + Gap(infos[2 * n - 2].utility, infos[2 * n - 1].utility)
    else Support(infos, n - 1, d)
  }

  /** All utility differences. */
  ghost function Differences(infos: seq<UtilityInfo>, n: nat): real
    requires |infos| >= 2 * n
  {
    if n == 0 then 0.0 else Differences(infos, n - 1) + Gap(infos[2 * n - 2].utility, infos[2 * n - 1].utility)
  }

  /** Every difference counts for exactly one direction: the one its group has voted for. */
  lemma {:induction false} SupportSplits(infos: seq<UtilityInfo>, n: nat)
    requires |infos| >= 2 * n
    ensures Support(infos, n, Increase) + Support(infos, n, Decrease) == Differences(infos, n)
  {
    if n > 0 {
      SupportSplits(infos, n - 1);
    }
  }

  lemma {:induction false} SupportMeans(infos: seq<UtilityInfo>, n: nat, d: Direction)
    requires |infos| >= 2 * n
    ensures |Voters(infos, n, d)| == 0 ==> Support(infos, n, d) == 0.0
    ensures |Voters(infos, n, d)| == n ==> Support(infos, n, d) == Differences(infos, n)
    ensures Support(infos, n, d) <= Differences(infos, n)
  {
    hide VotedFor, Voters, Gap;
    if n > 0 {
      SupportMeans(infos, n - 1, d);
      VotersNext(infos, n - 1, d);
      VotersAtMost(infos, n - 1, d);
    }
  }

  lemma VotersAtMost(infos: seq<UtilityInfo>, n: nat, d: Direction)
    requires |infos| >= 2 * n
    ensures |Voters(infos, n, d)| <= n
  {
    VotersCount(infos, n);
  }

  method SumSupport(infos: seq<UtilityInfo>, groups: nat, d: Direction) returns (sum: real)
    requires |infos| >= 2 * groups
    ensures sum == Support(infos, groups, d)
  {
    sum := 0.0;
    for i := 0 to groups
      invariant sum == Support(infos, i, d)
    {
      var increase := if infos[2 * i].utility > infos[2 * i + 1].utility
        then infos[2 * i].rate > infos[2 * i + 1].rate
        else infos[2 * i].rate < infos[2 * i + 1].rate;
      if !((increase && d == Decrease) || (!increase && d == Increase)) {
        sum := sum + Gap(infos[2 * i].utility, infos[2 * i + 1].utility);
      }
    }
  }
}
