/** The receiver's timer list (`CRcvUList` in queue.cpp): sockets linked both ways in the order of
    their last activity, and the sweep that handles those that have been silent for too long. */
module RcvULists {

  class RNode {
    var prev: RNode?
    var next: RNode?
    var timestamp: int
    var onList: bool
  }

  ghost predicate Distinct(ns: seq<RNode>) {
    forall i, j :: 0 <= i < j < |ns| ==> ns[i] != ns[j]
  }

  function After(ns: seq<RNode>, i: int): RNode?
    requires 0 <= i < |ns|
  {
    if i + 1 < |ns| then ns[i + 1] else null
  }

  function Before(ns: seq<RNode>, i: int): RNode?
    requires 0 <= i < |ns|
  {
    if i > 0 then ns[i - 1] else null
  }

  /** Both chains thread the nodes. */
  ghost predicate Chained(ns: seq<RNode>)
    reads ns`next, ns`prev
  {
    forall i :: 0 <= i < |ns| ==> ns[i].next == After(ns, i) && ns[i].prev == Before(ns, i)
  }

  /** The links lead around node k. */
  ghost predicate Bypassed(ns: seq<RNode>, k: int)
    reads ns`next, ns`prev
    requires 0 <= k < |ns|
  {
    forall i :: 0 <= i < |ns| && i != k ==>
      && ns[i].next == (if i == k - 1 then After(ns, k) else After(ns, i))
      && ns[i].prev == (if i == k + 1 then Before(ns, k) else Before(ns, i))
  }

  lemma BypassChained(ns: seq<RNode>, k: int)
    requires 0 <= k < |ns| && Bypassed(ns, k)
    ensures Chained(Without(ns, k))
  {
    var r := Without(ns, k);
    forall i | 0 <= i < |r| ensures r[i].next == After(r, i) && r[i].prev == Before(r, i) {
      assert r[i] == ns[if i < k then i else i + 1];
    }
  }

  /** Oldest activity first. */
  ghost predicate Sorted(ns: seq<RNode>)
    reads ns`timestamp
  {
    forall i, j :: 0 <= i < j < |ns| ==> ns[i].timestamp <= ns[j].timestamp
  }

  /** No node has been active after this time. */
  ghost predicate NotAfter(ns: seq<RNode>, now: int)
    reads ns`timestamp
  {
    forall i :: 0 <= i < |ns| ==> ns[i].timestamp <= now
  }

  /** The list as the two ends see it. */
  ghost predicate Ends(ns: seq<RNode>, first: RNode?, last: RNode?) {
    if ns == [] then first == null && last == null else first == ns[0] && last == ns[|ns| - 1]
  }

  function Without<T>(s: seq<T>, k: int): (r: seq<T>)
    requires 0 <= k < |s|
    ensures |r| == |s| - 1 && forall i :: 0 <= i < |r| ==> r[i] == if i < k then s[i] else s[i + 1]
  {
    s[..k] + s[k + 1..]
  }

  class RcvUList {
    var first: RNode?
    var last: RNode?
    ghost var nodes: seq<RNode>

    ghost predicate Valid()
      reads this, nodes
    {
      Distinct(nodes) && Chained(nodes) && Sorted(nodes) && Ends(nodes, first, last)
    }

    constructor ()
      ensures Valid() && nodes == []
    {
      first, last, nodes := null, null, [];
    }

    /** Links a node in at the end. */
    method Append(n: RNode)
      requires Distinct(nodes) && Chained(nodes) && nodes != [] && n !in nodes && last == nodes[|nodes| - 1]
      modifies this`last, this`nodes, n`prev, n`next, nodes`next
      ensures nodes == old(nodes) + [n] && last == n && Distinct(nodes) && Chained(nodes)
    {
      assert forall i :: 0 <= i < |nodes| ==> nodes[i] != n;
      n.prev := last;
      n.next := null;
      last.next := n;
      last := n;
      nodes := nodes + [n];
    }

    /** `insert`: a new socket is the most recent one. */
    method Insert(n: RNode, now: int)
      requires Valid() && n !in nodes && NotAfter(nodes, now)
      modifies this, n`timestamp, n`prev, n`next, nodes`next
      ensures Valid() && nodes == old(nodes) + [n] && n.timestamp == now && NotAfter(nodes, now)
    {
      hide Sorted, NotAfter, Chained, Distinct;
      ghost var was := nodes;
      Stamp(n, now, was);
      if first == null {
        InsertOnly(n);
      } else {
        EndsThere(nodes, first, last);
        Append(n);
      }
      assert nodes == was + [n];
    }

    /** The first node of an empty list. */
    method InsertOnly(n: RNode)
      requires nodes == []
      modifies this, n`prev, n`next
      ensures nodes == [n] && first == n && last == n && Distinct(nodes) && Chained(nodes)
    {
      n.prev, n.next := null, null;
      last, first := n, n;
      nodes := [n];
    }

    /** Leads both chains around node k. */
    method Bypass(n: RNode, ghost k: int)
      requires Distinct(nodes) && Chained(nodes) && 0 <= k < |nodes| && nodes[k] == n
      requires first == nodes[0] && last == nodes[|nodes| - 1]
      modifies this`first, this`last, nodes`prev, nodes`next
      ensures Bypassed(nodes, k)
      ensures first == (if k == 0 then After(nodes, k) else nodes[0])
      ensures last == (if k == |nodes| - 1 then Before(nodes, k) else nodes[|nodes| - 1])
    {
      hide Distinct, Chained, Bypassed;
      ChainAt(nodes, k);
      if n.prev == null {
        BypassHead(n);
      } else {
        BypassBehind(n, k);
      }
    }

    method BypassHead(n: RNode)
      requires Distinct(nodes) && Chained(nodes) && nodes != [] && nodes[0] == n
      requires last == nodes[|nodes| - 1]
      modifies this`first, this`last, nodes`prev
      ensures Bypassed(nodes, 0) && first == After(nodes, 0)
      ensures last == if |nodes| == 1 then Before(nodes, 0) else nodes[|nodes| - 1]
    {
      ghost var ns := nodes;
      assert ns[0].next == After(ns, 0);
      first := n.next;
      if first == null {
        last := null;
      } else {
        first.prev := null;
      }
    }

    method BypassBehind(n: RNode, ghost k: int)
      requires Distinct(nodes) && Chained(nodes) && 0 < k < |nodes| && nodes[k] == n
      requires last == nodes[|nodes| - 1]
      modifies this`last, nodes`prev, nodes`next
      ensures Bypassed(nodes, k)
      ensures last == if k == |nodes| - 1 then Before(nodes, k) else nodes[|nodes| - 1]
    {
      hide Distinct, Bypassed, Chained;
      ChainAt(nodes, k);
      if n.next == null {
        BypassLast(n);
      } else {
        BypassBoth(n, k);
      }
    }

    method BypassLast(n: RNode)
      requires Distinct(nodes) && Chained(nodes) && |nodes| > 1 && nodes[|nodes| - 1] == n
      modifies this`last, nodes`next
      ensures Bypassed(nodes, |nodes| - 1) && last == Before(nodes, |nodes| - 1)
    {
      ghost var ns, k := nodes, |nodes| - 1;
      assert ns[k].prev == Before(ns, k) && ns[k].next == After(ns, k);
      n.prev.next := n.next;
      last := n.prev;
    }

    method BypassBoth(n: RNode, ghost k: int)
      requires Distinct(nodes) && Chained(nodes) && 0 < k < |nodes| - 1 && nodes[k] == n
      modifies nodes`prev, nodes`next
      ensures Bypassed(nodes, k)
    {
      ghost var ns := nodes;
      assert ns[k].prev == Before(ns, k) && ns[k].next == After(ns, k);
      n.prev.next := n.next;
      n.next.prev := n.prev;
    }

    /** Takes node k out; the list may become empty. */
    method Unlink(n: RNode, ghost k: int)
      requires Distinct(nodes) && Chained(nodes) && 0 <= k < |nodes| && nodes[k] == n
      requires first == nodes[0] && last == nodes[|nodes| - 1]
      modifies this`first, this`last, this`nodes, nodes`prev, nodes`next
      ensures nodes == Without(old(nodes), k) && Distinct(nodes) && Chained(nodes)
      ensures Ends(nodes, first, last)
    {
      hide Distinct, Chained, Bypassed;
      Bypass(n, k);
      UnlinkedDistinct(nodes, k);
      BypassChained(nodes, k);
      nodes := Without(nodes, k);
    }

    /** `remove` */
    method Remove(n: RNode)
      requires Valid() && (n.onList <==> n in nodes)
      modifies this, nodes`prev, nodes`next, n`prev, n`next
      ensures Valid() && n !in nodes
      ensures !n.onList ==> nodes == old(nodes)
      ensures n.onList ==> exists k :: 0 <= k < |old(nodes)| && old(nodes)[k] == n && nodes == Without(old(nodes), k)
      ensures n.onList ==> n.next == null && n.prev == null
    {
      hide Chained, Distinct, Sorted, Ends, Without;
      if !n.onList {
        return;
      }
      ghost var k :| 0 <= k < |nodes| && nodes[k] == n;
      UnlinkedSorted(nodes, k);
      UnlinkedDistinct(nodes, k);
      EndsThere(nodes, first, last);
      Unlink(n, k);
      ClearLinks(n);
    }

    method ClearLinks(n: RNode)
      requires Chained(nodes) && n !in nodes
      modifies n`prev, n`next
      ensures Chained(nodes) && n.next == null && n.prev == null
    {
      n.next := null;
      n.prev := null;
    }

    /** `update`: a socket that has been active becomes the most recent one. */
    method Update(n: RNode, now: int)
      requires Valid() && (n.onList <==> n in nodes) && NotAfter(nodes, now)
      modifies this, nodes`prev, nodes`next, n`timestamp
      ensures Valid() && NotAfter(nodes, now)
      ensures !n.onList ==> nodes == old(nodes) && n.timestamp == old(n.timestamp)
      ensures n.onList ==> n.timestamp == now && exists k :: 0 <= k < |old(nodes)| && old(nodes)[k] == n && nodes == Without(old(nodes), k) + [n]
    {
      hide Chained, Distinct, Sorted, Ends, Without, NotAfter;
      if !n.onList {
        return;
      }
      ghost var ns := nodes;
      ghost var k :| 0 <= k < |nodes| && nodes[k] == n;
      UnlinkedSorted(ns, k);
      UnlinkedDistinct(ns, k);
      UnlinkedEarlier(ns, k, now);
      LastOrNot(ns, k);
      EndsThere(ns, first, last);
      Stamp(n, now, Without(ns, k));
      if n.next == null {
        return;
      }
      MoveToEnd(n, k);
    }

    /** The new time goes with the last place. */
    method Stamp(n: RNode, now: int, ghost rest: seq<RNode>)
      requires Sorted(rest) && n !in rest && NotAfter(rest, now)
      modifies n`timestamp
      ensures n.timestamp == now && Sorted(rest + [n]) && NotAfter(rest + [n], now)
    {
      assert forall i :: 0 <= i < |rest| ==> rest[i] != n;
      n.timestamp := now;
    }

    /** The relinking of `update` for a node that is not the last. */
    method MoveToEnd(n: RNode, ghost k: int)
      requires Distinct(nodes) && Chained(nodes) && 0 <= k < |nodes| - 1 && nodes[k] == n
      requires first == nodes[0] && last == nodes[|nodes| - 1]
      modifies this`first, this`last, this`nodes, nodes`prev, nodes`next
      ensures nodes == Without(old(nodes), k) + [n] && Distinct(nodes) && Chained(nodes)
      ensures Ends(nodes, first, last)
    {
      hide Distinct, Chained, Bypassed;
      BypassInner(n, k);
      UnlinkedDistinct(nodes, k);
      BypassChained(nodes, k);
      nodes := Without(nodes, k);
      Append(n);
    }

    method BypassInner(n: RNode, ghost k: int)
      requires Distinct(nodes) && Chained(nodes) && 0 <= k < |nodes| - 1 && nodes[k] == n && first == nodes[0]
      requires last == nodes[|nodes| - 1]
      modifies this`first, this`last, nodes`prev, nodes`next
      ensures Bypassed(nodes, k) && first == (if k == 0 then nodes[1] else nodes[0]) && last == old(last)
    {
      hide Distinct, Bypassed, Chained;
      ChainAt(nodes, k);
      if n.prev == null {
        BypassHead(n);
      } else {
        BypassBoth(n, k);
      }
    }

    // ---------- the sweep ----------

    /** The body of the sweep: a socket that is alive is checked and moves to the end, another one
        leaves the list. */
    method Handle(n: RNode, alive: bool, now: int)
      requires Valid() && AllOn(nodes) && nodes != [] && first == n && NotAfter(nodes, now)
      modifies this, nodes`prev, nodes`next, n`timestamp, n`onList
      ensures Valid() && AllOn(nodes) && NotAfter(nodes, now)
      ensures nodes == old(nodes)[1..] + if alive then [n] else []
      ensures n.timestamp == if alive then now else old(n.timestamp)
      ensures !alive ==> !n.onList
    {
      hide Chained, Distinct, Sorted, Ends, NotAfter, Without, AllOn;
      EndsThere(nodes, first, last);
      FirstOnly(nodes);
      FirstOn(nodes);
      AllOnMoves(nodes);
      if alive {
        Update(n, now);
      } else {
        UnlinkedEarlier(nodes, 0, now);
        Remove(n);
        TurnOff(n);
      }
    }

    method TurnOff(n: RNode)
      requires n !in nodes && AllOn(nodes)
      modifies n`onList
      ensures AllOn(nodes) && !n.onList
    {
      n.onList := false;
    }

    /** One step of the sweep: node k of the original list is handled. */
    method Step(n: RNode, alive: bool, now: int, cutoff: int, ghost all: seq<RNode>, ghost visited: seq<RNode>, ghost living: set<RNode>,
                ghost was: seq<int>)
      requires Valid() && AllOn(nodes) && first == n && n.timestamp < cutoff <= now && NotAfter(nodes, now)
      requires Pending(all, |visited|, Kept(visited, living), was, nodes, cutoff) && (alive <==> n in living)
      modifies this, nodes`prev, nodes`next, n`timestamp, n`onList
      ensures Valid() && AllOn(nodes) && NotAfter(nodes, now)
      ensures |visited| < |all| == |was| && all[|visited|] == n && was[|visited|] < cutoff
      ensures Pending(all, |visited + [n]|, Kept(visited + [n], living), was, nodes, cutoff)
      ensures n.timestamp == (if alive then now else was[|visited|]) && (!alive ==> !n.onList)
    {
      hide AllOn, NotAfter, Chained, Distinct, Sorted, Ends, Kept;
      ghost var k, kept := |visited|, Kept(visited, living);
      KeptNext(visited, n, living);
      EndsSome(nodes, first, last);
      StepLists(all, k, kept, nodes, if alive then [n] else [], cutoff);
      assert forall i :: 0 <= i < |kept| ==> kept[i] != n;
      Handle(n, alive, now);
    }

    lemma NodesDistinct()
      requires Valid()
      ensures Distinct(nodes)
    {
    }

    lemma FirstDue(all: seq<RNode>, k: int, kept: seq<RNode>, was: seq<int>, cutoff: int)
      requires Valid() && Pending(all, k, kept, was, nodes, cutoff) && first != null && first.timestamp < cutoff
      ensures k < |all| && nodes != [] && first == nodes[0] && (forall i :: 0 <= i < |nodes| ==> nodes[i] in all) && first in all
    {
      PendingIn(all, k, kept, was, nodes, cutoff, first, last);
    }

    lemma NoneDue(cutoff: int)
      requires Valid() && (first != null ==> first.timestamp >= cutoff)
      ensures forall i :: 0 <= i < |nodes| ==> nodes[i].timestamp >= cutoff
    {
      SweptAll(nodes, first, last, cutoff);
    }

    /** The sweep over the sockets whose last activity lies before the cutoff.  Which sockets are alive
        and what the clock says at each step are inputs; the clock does not go back. */
    method Sweep(cutoff: int, alive: set<RNode>, times: seq<int>) returns (visited: seq<RNode>)
      requires Valid() && AllOn(nodes) && |times| >= |nodes|
      requires forall i :: 0 <= i < |times| ==> cutoff <= times[i] && NotAfter(nodes, times[i])
      requires forall i, j :: 0 <= i < j < |times| ==> times[i] <= times[j]
      modifies this, nodes`prev, nodes`next, nodes`timestamp, nodes`onList
      ensures Valid() && AllOn(nodes)
      ensures |visited| <= |old(nodes)| && visited == old(nodes)[..|visited|] && nodes == old(nodes)[|visited|..] + Kept(visited, alive)
      ensures forall i :: 0 <= i < |old(nodes)| ==> (i < |visited| <==> old(nodes[i].timestamp) < cutoff)
      ensures forall i :: 0 <= i < |nodes| ==> nodes[i].timestamp >= cutoff
      ensures forall i :: 0 <= i < |visited| ==>
                if visited[i] in alive then visited[i].timestamp == times[i]
                else !visited[i].onList && visited[i].timestamp == old(nodes[i].timestamp)
    {
      hide Valid, AllOn, Kept, NotAfter, Pending, Handled, Distinct;
      visited := [];
      ghost var all, was := nodes, Stamps(nodes);
      NodesDistinct();
      HandledNone(alive, times, was);
      KeptNone(alive);
      StartPending(all, was, cutoff);
      while first != null && first.timestamp < cutoff
        invariant Valid() && AllOn(nodes) && |visited| <= |all| == |was| && visited == all[..|visited|]
        invariant Pending(all, |visited|, Kept(visited, alive), was, nodes, cutoff)
        invariant Distinct(all) && Handled(visited, alive, times, was)
        invariant forall i :: 0 <= i < |visited| ==> was[i] < cutoff
        invariant forall i :: |visited| <= i < |times| ==> NotAfter(nodes, times[i])
        decreases |all| - |visited|
      {
        var n := first;
        ghost var k, kept := |visited|, Kept(visited, alive);
        FirstDue(all, k, kept, was, cutoff);
        Step(n, n in alive, times[|visited|], cutoff, all, visited, alive, was);
        NotVisited(all, k);
        HandledNext(visited, n, alive, times, was);
        visited := visited + [n];
        NotAfterAll(nodes, times, k);
      }
      NoneDue(cutoff);
      HandledAll(visited, alive, times, was);
      PendingEnds(all, |visited|, Kept(visited, alive), was, nodes, cutoff);
    }
  }

  lemma UnlinkedDistinct(ns: seq<RNode>, k: int)
    requires Distinct(ns) && 0 <= k < |ns|
    ensures Distinct(Without(ns, k)) && ns[k] !in Without(ns, k)
    ensures forall i :: 0 <= i < |ns| - 1 ==> Without(ns, k)[i] in ns
  {
  }

  ghost predicate AllOn(ns: seq<RNode>)
    reads ns`onList
  {
    forall i :: 0 <= i < |ns| ==> ns[i].onList
  }

  /** The sockets that stay. */
  function Kept(ns: seq<RNode>, alive: set<RNode>): (r: seq<RNode>)
    ensures forall n :: n in r ==> n in ns && n in alive
  {
    if ns == [] then [] else Kept(ns[..|ns| - 1], alive) + if ns[|ns| - 1] in alive then [ns[|ns| - 1]] else []
  }

  ghost predicate FreshAt(ns: seq<RNode>, cutoff: int)
    reads ns`timestamp
  {
    forall i :: 0 <= i < |ns| ==> ns[i].timestamp >= cutoff
  }

  /** In the middle of the sweep: the first k nodes have been handled, and those of them that stayed
      are at the end; the others are as they were. */
  ghost predicate Pending(all: seq<RNode>, k: int, kept: seq<RNode>, was: seq<int>, ns: seq<RNode>, cutoff: int)
    reads all`timestamp, kept`timestamp
  {
    && 0 <= k <= |all| == |was| && ns == all[k..] + kept && FreshAt(kept, cutoff)
    && (forall i :: k <= i < |all| ==> all[i].timestamp == was[i])
    && (forall i :: 0 <= i < |kept| ==> kept[i] in all)
  }

  /** What the sweep leaves of the sockets it has visited. */
  ghost predicate Handled(visited: seq<RNode>, alive: set<RNode>, times: seq<int>, was: seq<int>)
    reads visited`timestamp, visited`onList
  {
    && |visited| <= |times| && |visited| <= |was|
    && forall i :: 0 <= i < |visited| ==>
         if visited[i] in alive then visited[i].timestamp == times[i] else !visited[i].onList && visited[i].timestamp == was[i]
  }

  lemma NotVisited(all: seq<RNode>, k: nat)
    requires Distinct(all) && k < |all|
    ensures all[k] !in all[..k] && all[..k] + [all[k]] == all[..k + 1]
  {
  }

  lemma HandledNone(alive: set<RNode>, times: seq<int>, was: seq<int>)
    ensures Handled([], alive, times, was)
  {
  }

  lemma HandledNext(visited: seq<RNode>, n: RNode, alive: set<RNode>, times: seq<int>, was: seq<int>)
    requires Handled(visited, alive, times, was) && |visited| < |times| && |visited| < |was|
    requires if n in alive then n.timestamp == times[|visited|] else !n.onList && n.timestamp == was[|visited|]
    ensures Handled(visited + [n], alive, times, was)
  {
  }

  lemma HandledAll(visited: seq<RNode>, alive: set<RNode>, times: seq<int>, was: seq<int>)
    requires Handled(visited, alive, times, was)
    ensures |visited| <= |times| && |visited| <= |was|
    ensures forall i :: 0 <= i < |visited| ==>
              if visited[i] in alive then visited[i].timestamp == times[i] else !visited[i].onList && visited[i].timestamp == was[i]
  {
  }

  ghost function Stamps(ns: seq<RNode>): (r: seq<int>)
    reads ns`timestamp
    ensures |r| == |ns| && forall i :: 0 <= i < |ns| ==> r[i] == ns[i].timestamp
  {
    if ns == [] then [] else Stamps(ns[..|ns| - 1]) + [ns[|ns| - 1].timestamp]
  }

  lemma StartPending(all: seq<RNode>, was: seq<int>, cutoff: int)
    requires |was| == |all| && forall i :: 0 <= i < |all| ==> was[i] == all[i].timestamp
    ensures Pending(all, 0, [], was, all, cutoff)
  {
    assert all[0..] + [] == all;
  }

  lemma PendingIn(all: seq<RNode>, k: int, kept: seq<RNode>, was: seq<int>, ns: seq<RNode>, cutoff: int, first: RNode?, last: RNode?)
    requires Pending(all, k, kept, was, ns, cutoff) && Ends(ns, first, last) && first != null && first.timestamp < cutoff
    ensures k < |all| && ns != [] && first == ns[0] && (forall i :: 0 <= i < |ns| ==> ns[i] in all) && first in all
  {
  }

  lemma PendingEnds(all: seq<RNode>, k: int, kept: seq<RNode>, was: seq<int>, ns: seq<RNode>, cutoff: int)
    requires Pending(all, k, kept, was, ns, cutoff) && forall i :: 0 <= i < |ns| ==> ns[i].timestamp >= cutoff
    ensures ns == all[k..] + kept && forall i :: k <= i < |all| ==> was[i] >= cutoff
  {
    forall i | k <= i < |all| ensures was[i] >= cutoff {
      assert ns[i - k] == all[i];
    }
  }

  lemma KeptNone(alive: set<RNode>)
    ensures Kept([], alive) == []
  {
  }

  lemma KeptNext(ns: seq<RNode>, n: RNode, alive: set<RNode>)
    ensures Kept(ns + [n], alive) == Kept(ns, alive) + if n in alive then [n] else []
  {
    assert (ns + [n])[..|ns|] == ns;
  }

  lemma EndsSome(ns: seq<RNode>, first: RNode?, last: RNode?)
    requires Ends(ns, first, last)
    ensures first != null ==> ns != [] && first == ns[0]
  {
  }

  /** One step of the sweep on the lists: the first node is due, so it is one that has not been
      handled yet, and it is nowhere else. */
  lemma StepLists(all: seq<RNode>, k: int, kept: seq<RNode>, ns: seq<RNode>, stays: seq<RNode>, cutoff: int)
    requires Distinct(ns) && 0 <= k <= |all| && ns == all[k..] + kept && ns != []
    requires FreshAt(kept, cutoff) && ns[0].timestamp < cutoff
    ensures k < |all| && ns[0] == all[k] && all[k] !in kept && forall i :: k < i < |all| ==> all[i] != all[k]
    ensures ns[1..] + stays == all[k + 1..] + (kept + stays) && all[..k] + [all[k]] == all[..k + 1]
  {
    SomeLeft(all, k, kept, ns, cutoff);
    RestOf(all[k..], kept, stays);
    assert all[k..][1..] == all[k + 1..];
    forall i | k < i < |all| ensures all[i] != all[k] {
      assert ns[i - k] == all[i];
    }
  }

  lemma SomeLeft(all: seq<RNode>, k: int, kept: seq<RNode>, ns: seq<RNode>, cutoff: int)
    requires Distinct(ns) && 0 <= k <= |all| && ns == all[k..] + kept && ns != []
    requires FreshAt(kept, cutoff) && ns[0].timestamp < cutoff
    ensures k < |all| && ns[0] == all[k] && all[k] !in kept
  {
    forall i | 0 <= i < |kept| ensures k == |all| || kept[i] != all[k] {
      assert ns[|all| - k + i] == kept[i];
    }
  }

  lemma RestOf<T>(a: seq<T>, b: seq<T>, c: seq<T>)
    requires a != []
    ensures (a + b)[1..] + c == a[1..] + (b + c)
  {
  }

  lemma NotAfterAll(ns: seq<RNode>, times: seq<int>, k: int)
    requires 0 <= k < |times| && NotAfter(ns, times[k]) && forall i, j :: 0 <= i < j < |times| ==> times[i] <= times[j]
    ensures forall i :: k < i < |times| ==> NotAfter(ns, times[i])
  {
  }

  lemma SweptAll(ns: seq<RNode>, first: RNode?, last: RNode?, cutoff: int)
    requires Sorted(ns) && Ends(ns, first, last) && (first != null ==> first.timestamp >= cutoff)
    ensures forall i :: 0 <= i < |ns| ==> ns[i].timestamp >= cutoff
  {
  }

  lemma ChainAt(ns: seq<RNode>, k: int)
    requires Chained(ns) && 0 <= k < |ns|
    ensures ns[k].next == After(ns, k) && ns[k].prev == Before(ns, k)
  {
  }

  lemma FirstOn(ns: seq<RNode>)
    requires AllOn(ns) && ns != []
    ensures ns[0].onList && ns[0] in ns
  {
  }

  lemma AllOnMoves(ns: seq<RNode>)
    requires AllOn(ns) && ns != []
    ensures AllOn(ns[1..]) && AllOn(ns[1..] + [ns[0]])
  {
  }

  lemma FirstOnly(ns: seq<RNode>)
    requires Distinct(ns) && ns != []
    ensures Without(ns, 0) == ns[1..] && forall k :: 0 <= k < |ns| && ns[k] == ns[0] ==> k == 0
  {
  }

  lemma EndsThere(ns: seq<RNode>, first: RNode?, last: RNode?)
    requires Ends(ns, first, last) && ns != []
    ensures first == ns[0] && last == ns[|ns| - 1]
  {
  }

  /** Only the last node has nothing behind it. */
  lemma LastOrNot(ns: seq<RNode>, k: int)
    requires Chained(ns) && 0 <= k < |ns|
    ensures ns[k].next == null <==> k == |ns| - 1
    ensures k == |ns| - 1 ==> Without(ns, k) + [ns[k]] == ns
  {
    assert ns[k].next == After(ns, k);
  }

  lemma UnlinkedEarlier(ns: seq<RNode>, k: int, now: int)
    requires NotAfter(ns, now) && 0 <= k < |ns|
    ensures NotAfter(Without(ns, k), now)
  {
  }

  lemma UnlinkedSorted(ns: seq<RNode>, k: int)
    requires Sorted(ns) && 0 <= k < |ns|
    ensures Sorted(Without(ns, k))
  {
  }
}
