/** The send scheduler (`CSndUList` in queue.cpp): a binary heap of sockets by the time of their
    next packet, in which every node knows its slot. */
module SndULists {

  class Node {
    var timestamp: int
    var heapLoc: int

    constructor ()
      ensures heapLoc == -1
    {
      timestamp, heapLoc := 0, -1;
    }
  }

  function Parent(i: int): int
    requires i > 0
  {
    (i - 1) / 2
  }

  /** Every node is in the slot it names. */
  ghost predicate Placed(h: seq<Node>)
    reads h`heapLoc
  {
    forall i :: 0 <= i < |h| ==> h[i].heapLoc == i
  }

  /** No node has an earlier time than the one above it. */
  ghost predicate Ordered(h: seq<Node>)
    reads h`timestamp
  {
    forall i :: 0 < i < |h| ==> h[Parent(i)].timestamp <= h[i].timestamp
  }

  /** A node of this time may stay where it is put, behind all others. */
  ghost predicate Last(h: seq<Node>, ts: int)
    reads h`timestamp
  {
    h != [] ==> h[Parent(|h|)].timestamp <= ts
  }

  /** The same, except that slot q may be earlier than the one above it; the slots below q are
      later than the one above q. */
  ghost predicate OrderedAbove(h: seq<Node>, q: int)
    reads h`timestamp
  {
    && (forall i :: 0 < i < |h| && i != q ==> h[Parent(i)].timestamp <= h[i].timestamp)
    && (forall i :: 0 < i < |h| && Parent(i) == q && q > 0 ==> h[Parent(q)].timestamp <= h[i].timestamp)
  }

  /** The same, except that slot q may be later than the ones below it. */
  ghost predicate OrderedBelow(h: seq<Node>, q: int)
    reads h`timestamp
  {
    && (forall i :: 0 < i < |h| && Parent(i) != q ==> h[Parent(i)].timestamp <= h[i].timestamp)
    && (forall i :: 0 < i < |h| && Parent(i) == q && q > 0 ==> h[Parent(q)].timestamp <= h[i].timestamp)
  }

  function Swapped(h: seq<Node>, p: int, q: int): (r: seq<Node>)
    requires 0 <= p < |h| && 0 <= q < |h|
    ensures |r| == |h| && multiset(r) == multiset(h)
    ensures forall i :: 0 <= i < |h| ==> r[i] == if i == p then h[q] else if i == q then h[p] else h[i]
  {
    h[p := h[q]][q := h[p]]
  }

  /** The root of an ordered heap has the earliest time. */
  lemma {:induction false} RootIsEarliest(h: seq<Node>, i: nat)
    requires Ordered(h) && i < |h|
    ensures h[0].timestamp <= h[i].timestamp
  {
    if i > 0 {
      RootIsEarliest(h, Parent(i));
    }
  }

  /** Moving an early node up one level. */
  lemma UpStep(h: seq<Node>, q: int)
    requires 0 < q < |h| && OrderedAbove(h, q) && h[Parent(q)].timestamp > h[q].timestamp
    ensures OrderedAbove(Swapped(h, Parent(q), q), Parent(q))
  {
  }

  /** Moving a late node down to the earlier of its children. */
  lemma DownStep(h: seq<Node>, q: int, p: int)
    requires 0 <= q < p < |h| && Parent(p) == q && OrderedBelow(h, q) && h[q].timestamp > h[p].timestamp
    requires forall i :: 0 < i < |h| && Parent(i) == q ==> h[p].timestamp <= h[i].timestamp
    ensures OrderedBelow(Swapped(h, p, q), p)
  {
  }

  class SndUList {
    var heap: array<Node?>
    var lastEntry: int
    ghost var h: seq<Node>

    /** The used part of the array is h, and the nodes know their slots. */
    ghost predicate Valid()
      reads this, heap, h
    {
      Stored() && Placed(h)
    }

    ghost predicate Stored()
      reads this, heap
    {
      && -1 <= lastEntry == |h| - 1 && |h| <= heap.Length && heap.Length > 0
      && forall i :: 0 <= i < |h| ==> heap[i] == h[i]
    }

    /** What a node outside or inside says about itself is true. */
    ghost predicate Honest(n: Node)
      reads this, n
    {
      (n in h ==> 0 <= n.heapLoc < |h| && h[n.heapLoc] == n) && (n !in h ==> n.heapLoc == -1)
    }

    constructor ()
      ensures Valid() && h == [] && fresh(heap) && heap.Length == 4096
    {
      heap := new Node?[4096](_ => null);
      lastEntry := -1;
      h := [];
    }

    // ---------- inserting ----------

    /** Every node but the one in slot q knows its slot, and that one is nowhere else. */
    ghost predicate PlacedBut(q: int)
      reads this, h`heapLoc
    {
      && 0 <= q < |h|
      && forall i :: 0 <= i < |h| && i != q ==> h[i].heapLoc == i && h[i] != h[q]
    }

    /** One step of the first loop: the node in slot q changes places with the one above it. */
    method StepUp(p: int, q: int)
      requires Stored() && PlacedBut(q) && 0 <= p < q
      modifies heap, this`h, h`heapLoc
      ensures Stored() && h == Swapped(old(h), p, q) && PlacedBut(p)
    {
      var t := heap[p];
      heap[p] := heap[q];
      heap[q] := t;
      h := Swapped(h, p, q);
      t.heapLoc := q;
    }

    /** The body of that loop: r is where the node ends up. */
    method TryUp(q: int, ghost ordered: bool) returns (r: int)
      requires Stored() && PlacedBut(q) && q > 0 && (ordered ==> OrderedAbove(h, q))
      modifies heap, this`h, h`heapLoc
      ensures Stored() && 0 <= r <= q && PlacedBut(r) && h[r] == old(h)[q] && multiset(h) == multiset(old(h))
      ensures forall i :: 0 <= i < |h| ==> h[i] in old(h)
      ensures ordered ==> if r == q then Ordered(h) else OrderedAbove(h, r)
      ensures old(h[Parent(q)].timestamp <= h[q].timestamp) ==> r == q && h == old(h)
    {
      hide OrderedAbove, Ordered, Swapped;
      var p := (q - 1) / 2;
      if heap[p].timestamp > heap[q].timestamp {
        SwappedFacts(h, p, q);
        if ordered {
          UpStep(h, q);
        }
        StepUp(p, q);
        return p;
      }
      if ordered {
        UpDone(h, q);
      }
      return q;
    }

    /** The loop of `insert_`. */
    method SiftUp(ghost ordered: bool) returns (q: int)
      requires Stored() && h != [] && PlacedBut(lastEntry) && (ordered ==> OrderedAbove(h, lastEntry))
      modifies heap, this`h, h`heapLoc
      ensures Stored() && PlacedBut(q) && h[q] == old(h)[lastEntry] && multiset(h) == multiset(old(h))
      ensures forall i :: 0 <= i < |h| ==> h[i] in old(h)
      ensures ordered ==> Ordered(h)
      ensures old(lastEntry == 0 || h[Parent(lastEntry)].timestamp <= h[lastEntry].timestamp) ==> h == old(h)
    {
      hide OrderedAbove, Ordered;
      q := lastEntry;
      while q != 0
        invariant Stored() && PlacedBut(q) && h[q] == old(h)[lastEntry] && multiset(h) == multiset(old(h))
        invariant ordered ==> OrderedAbove(h, q)
        invariant forall i :: 0 <= i < |h| ==> h[i] in old(h)
        invariant old(lastEntry == 0 || h[Parent(lastEntry)].timestamp <= h[lastEntry].timestamp) ==> q == lastEntry && h == old(h)
        decreases q
      {
        var r := TryUp(q, ordered);
        if r == q {
          return;
        }
        q := r;
      }
      if ordered {
        UpDone(h, q);
      }
    }

    /** `insert_`.  It does not fit, and the source writes past the end of the array, exactly when a new
        node meets a full array. */
    method InsertNode(ts: int, n: Node) returns (fits: bool)
      requires Valid() && Honest(n)
      modifies this`lastEntry, this`h, heap, h`heapLoc, n
      ensures Valid() && Honest(n) && (fits <==> n in old(h) || |old(h)| < heap.Length)
      ensures n in old(h) || !fits ==> h == old(h) && n.timestamp == old(n.timestamp)
      ensures n !in old(h) && fits ==> n in h && |h| == |old(h)| + 1 && multiset(h) == multiset(old(h)) + multiset{n} && n.timestamp == ts
      ensures n !in old(h) && fits && old(Last(h, ts)) ==> h == old(h) + [n]
      ensures old(Ordered(h)) ==> n in old(h) || Ordered(h)
    {
      hide Ordered, OrderedAbove;
      if n.heapLoc >= 0 {
        return true;
      }
      if lastEntry + 1 == heap.Length {
        return false;
      }
      fits := true;
      ghost var ordered, was := Ordered(h), h;
      PutLast(ts, n, ordered);
      Rise(n, ordered);
      Inserted(was, h, n);
    }

    /** The new node rises to its slot. */
    method Rise(n: Node, ghost ordered: bool)
      requires Stored() && h != [] && h[lastEntry] == n && PlacedBut(lastEntry) && (ordered ==> OrderedAbove(h, lastEntry))
      modifies heap, this`h, h`heapLoc
      ensures Valid() && Honest(n) && n in h && multiset(h) == multiset(old(h)) && (ordered ==> Ordered(h))
      ensures old(lastEntry == 0 || h[Parent(lastEntry)].timestamp <= h[lastEntry].timestamp) ==> h == old(h)
    {
      hide Ordered, OrderedAbove;
      n.heapLoc := SiftUp(ordered);
    }

    /** The new node goes into the first free slot. */
    method PutLast(ts: int, n: Node, ghost ordered: bool)
      requires Valid() && n !in h && |h| < heap.Length && (ordered ==> Ordered(h))
      modifies this`lastEntry, this`h, heap, n`timestamp
      ensures Stored() && PlacedBut(lastEntry) && h == old(h) + [n] && n.timestamp == ts && (ordered ==> OrderedAbove(h, lastEntry))
      ensures forall i :: 0 <= i < |old(h)| ==> old(h)[i].timestamp == old(h[i].timestamp)
    {
      lastEntry := lastEntry + 1;
      heap[lastEntry] := n;
      h := h + [n];
      n.timestamp := ts;
      if ordered {
        NewAbove(h, lastEntry);
      }
    }

    // ---------- removing ----------

    /** The body of the loop of `remove_`: the node in slot q against the earlier of its children. */
    method TryDown(q: int, child: int, ghost ordered: bool) returns (r: int)
      requires Valid() && 0 <= q && child == q * 2 + 1 <= lastEntry && (ordered ==> OrderedBelow(h, q))
      modifies heap, this`h, h`heapLoc
      ensures Valid() && q <= r < |h| == |old(h)| && multiset(h) == multiset(old(h)) && (r == q ==> h == old(h))
      ensures forall i :: 0 <= i < |h| ==> h[i] in old(h)
      ensures ordered ==> if r == q then Ordered(h) else OrderedBelow(h, r)
      ensures old(Settled(h, q)) ==> r == q
    {
      hide OrderedBelow, Ordered, Swapped, Settled;
      var p := child;
      if p + 1 <= lastEntry && heap[p].timestamp > heap[p + 1].timestamp {
        p := p + 1;
      }
      EarlierChild(h, q, p);
      if heap[q].timestamp > heap[p].timestamp {
        SwappedFacts(h, p, q);
        if ordered {
          DownStep(h, q, p);
        }
        StepDown(p, q);
        return p;
      }
      if ordered {
        DownDone(h, q, p);
      }
      return q;
    }

    method StepDown(p: int, q: int)
      requires Valid() && 0 <= q < p < |h|
      modifies heap, this`h, h`heapLoc
      ensures Valid() && h == Swapped(old(h), p, q)
    {
      var t := heap[p];
      heap[p] := heap[q];
      heap[p].heapLoc := p;
      heap[q] := t;
      heap[q].heapLoc := q;
      h := Swapped(h, p, q);
    }

    /** The loop of `remove_`, from slot k down. */
    method SiftDown(k: int, ghost ordered: bool)
      requires Valid() && 0 <= k && (ordered ==> OrderedBelow(h, k))
      modifies heap, this`h, h`heapLoc
      ensures Valid() && multiset(h) == multiset(old(h)) && |h| == |old(h)|
      ensures forall i :: 0 <= i < |h| ==> h[i] in old(h)
      ensures ordered ==> Ordered(h)
      ensures old(Settled(h, k)) ==> h == old(h)
    {
      hide OrderedBelow, Ordered, Settled, Placed;
      var q := k;
      var p := q * 2 + 1;
      while p <= lastEntry
        invariant Valid() && 0 <= k <= q && p == q * 2 + 1 && multiset(h) == multiset(old(h)) && |h| == |old(h)|
        invariant ordered ==> OrderedBelow(h, q)
        invariant forall i :: 0 <= i < |h| ==> h[i] in old(h)
        invariant old(Settled(h, k)) ==> q == k && h == old(h)
        decreases |h| - q
      {
        var r := TryDown(q, p, ordered);
        if r == q {
          return;
        }
        q := r;
        p := q * 2 + 1;
      }
      if ordered {
        NoChildren(h, q);
      }
    }

    /** The first lines of `remove_`: the last node moves into the slot of n. */
    method TakeOut(n: Node)
      requires Valid() && Honest(n) && n.heapLoc >= 0
      modifies this`lastEntry, this`h, heap, h`heapLoc
      ensures Valid() && h == Removed(old(h), old(n.heapLoc)) && n !in h
      ensures forall i :: 0 <= i < |h| ==> h[i] in old(h)
    {
      ghost var k := n.heapLoc;
      assert forall i :: 0 <= i < |h| && i != k ==> h[i] != n;
      heap[n.heapLoc] := heap[lastEntry];
      lastEntry := lastEntry - 1;
      heap[n.heapLoc].heapLoc := n.heapLoc;
      h := Removed(h, k);
    }

    /** `remove_` for a node in the heap. */
    method TakeOutAndSift(n: Node)
      requires Valid() && Honest(n) && n.heapLoc >= 0
      modifies this`lastEntry, this`h, heap, h`heapLoc
      ensures Valid() && n !in h && multiset(old(h)) == multiset(h) + multiset{n} && |h| == |old(h)| - 1
      ensures forall i :: 0 <= i < |h| ==> h[i] in old(h)
      ensures old(Ordered(h)) && old(Fills(h, n.heapLoc)) ==> Ordered(h)
      ensures old(Ordered(h)) && !old(Fills(h, n.heapLoc)) ==> Broken(h, old(n.heapLoc), old(h)[|old(h)| - 1])
    {
      hide Ordered, OrderedBelow, Broken, Fills, Settled, Removed, Placed;
      var k := n.heapLoc;
      ghost var was := h;
      ghost var ordered, fills := Ordered(h), Fills(h, k);
      RemovedFacts(was, k);
      TakeOut(n);
      if ordered {
        AfterRemoval(was, k);
      }
      SiftDown(k, ordered && fills);
    }

    /** `remove_`: the last node fills the slot and moves down only.  An ordered heap stays ordered
        exactly when that node is not earlier than the one above the slot; when it is, that is the
        only place out of order. */
    method RemoveNode(n: Node)
      requires Valid() && Honest(n)
      modifies this`lastEntry, this`h, heap, h`heapLoc, n`heapLoc
      ensures Valid() && n.heapLoc == -1
      ensures n !in old(h) ==> h == old(h)
      ensures n in old(h) ==> multiset(old(h)) == multiset(h) + multiset{n} && |h| == |old(h)| - 1 && n !in h
      ensures forall i :: 0 <= i < |h| ==> h[i] in old(h)
      ensures n in old(h) && old(Ordered(h)) ==> (Ordered(h) <==> old(Fills(h, n.heapLoc)))
      ensures n in old(h) && old(Ordered(h)) && !Ordered(h) ==> Broken(h, old(n.heapLoc), old(h)[|old(h)| - 1])
    {
      hide Ordered, Broken, Fills;
      if n.heapLoc >= 0 {
        TakeOutAndSift(n);
        BrokenNotOrdered(h);
        n.heapLoc := -1;
      }
    }

    // ---------- the operations ----------

    /** `insert`: makes room by doubling the array. */
    method Insert(ts: int, n: Node)
      requires Valid() && Honest(n)
      modifies this`heap, this`lastEntry, this`h, heap, h`heapLoc, n
      ensures Valid() && Honest(n) && n in h
      ensures heap.Length == if |old(h)| == old(heap.Length) then 2 * old(heap.Length) else old(heap.Length)
      ensures heap == old(heap) || fresh(heap)
      ensures n in old(h) ==> h == old(h) && n.timestamp == old(n.timestamp)
      ensures n !in old(h) ==> |h| == |old(h)| + 1 && multiset(h) == multiset(old(h)) + multiset{n} && n.timestamp == ts
      ensures n !in old(h) && old(Last(h, ts)) ==> h == old(h) + [n]
      ensures old(Ordered(h)) ==> Ordered(h)
    {
      hide Ordered, Placed, Last;
      if lastEntry == heap.Length - 1 {
        Grow();
      }
      var fits := InsertNode(ts, n);
    }

    method Grow()
      requires Valid()
      modifies this`heap
      ensures Valid() && heap.Length == 2 * old(heap.Length) && fresh(heap)
    {
      hide Placed;
      var old' := heap;
      var wider := new Node?[old'.Length * 2](i requires 0 <= i reads old' => if i < old'.Length then old'[i] else null);
      heap := wider;
    }

    /** `update`: puts a socket in at the front of the time line; when it is there already, only on
        request.  Nothing makes room here, so a new socket does not fit a full array. */
    method Update(n: Node, reschedule: bool) returns (fits: bool)
      requires Valid() && Honest(n)
      modifies this`lastEntry, this`h, heap, h`heapLoc, n
      ensures Valid() && (fits <==> old(n in h) || |old(h)| < heap.Length)
      ensures old(n in h) ==> n in h && |h| == |old(h)| && multiset(h) == multiset(old(h))
      ensures old(n !in h) && fits ==> n in h && |h| == |old(h)| + 1 && multiset(h) == multiset(old(h)) + multiset{n}
      ensures !fits ==> h == old(h)
      ensures fits ==> n.timestamp == if old(n in h) && !reschedule then old(n.timestamp) else 1
      ensures old(Ordered(h)) && (!reschedule || old(n !in h) || old(n.heapLoc != 0 && Fills(h, n.heapLoc))) ==> Ordered(h)
      ensures old(Ordered(h)) && reschedule && old(n in h && n.heapLoc == 0) ==> (Ordered(h) <==> old(RestFromOne(h)))
    {
      hide Ordered, Broken, Fills, Last, RestFromOne;
      if n.heapLoc >= 0 {
        if !reschedule {
          return true;
        }
        if n.heapLoc == 0 {
          AdvanceRoot(n);
          return true;
        }
        RemoveNode(n);
      }
      fits := InsertNode(1, n);
    }

    /** The root moves to the time 1, the earliest one unless some other node has a smaller one. */
    method AdvanceRoot(n: Node)
      requires Valid() && h != [] && h[0] == n
      modifies n`timestamp
      ensures Valid() && n.timestamp == 1
      ensures old(Ordered(h)) ==> (Ordered(h) <==> old(RestFromOne(h)))
    {
      assert forall i :: 0 < i < |h| ==> h[i] != n;
      n.timestamp := 1;
      if Ordered(h) {
        forall i | 0 < i < |h| ensures h[i].timestamp >= 1 {
          RootIsEarliest(h, i);
        }
      }
    }

    /** `pop`: when the earliest time has come, its socket is taken out, may send, and goes back in
        with the time of its next packet.  Whether it is still connected, and that time, are inputs. */
    method Pop(now: int, connected: bool, next: int) returns (served: Node?)
      requires Valid()
      modifies this`lastEntry, this`h, heap, h
      ensures Valid() && (old(Ordered(h)) ==> Ordered(h))
      ensures served == null <==> old(h) == [] || now < old(h[0].timestamp)
      ensures served == null ==> h == old(h) && forall i :: 0 <= i < |h| ==> h[i].timestamp == old(h[i].timestamp)
      ensures served != null ==> served == old(h[0]) && old(served.timestamp) <= now
      ensures served != null && old(Ordered(h)) ==> forall i :: 0 <= i < |old(h)| ==> old(served.timestamp) <= old(h[i].timestamp)
      ensures served != null && connected && next > 0 ==> multiset(h) == multiset(old(h)) && served.timestamp == next
      ensures served != null && !(connected && next > 0) ==> multiset(old(h)) == multiset(h) + multiset{served}
      ensures served != null ==> Honest(served)
      ensures forall i :: 0 <= i < |old(h)| && old(h)[i] != served ==> old(h)[i].timestamp == old(h[i].timestamp)
    {
      hide Ordered, Broken;
      if -1 == lastEntry || now < heap[0].timestamp {
        return null;
      }
      AllLater(h);
      var n := heap[0];
      served := n;
      RemoveNode(n);
      if connected && next > 0 {
        var fits := InsertNode(next, n);
      }
    }
  }

  /** The children of slot q are not earlier. */
  ghost predicate Settled(h: seq<Node>, q: int)
    reads h`timestamp
  {
    0 <= q < |h| ==> forall i :: 0 < i < |h| && Parent(i) == q ==> h[q].timestamp <= h[i].timestamp
  }

  /** Slot k holds x, which is earlier than the node above; order holds everywhere else. */
  ghost predicate Broken(h: seq<Node>, k: int, x: Node)
    reads h`timestamp
  {
    && 0 < k < |h| && h[k] == x && h[k].timestamp < h[Parent(k)].timestamp
    && forall i :: 0 < i < |h| && i != k ==> h[Parent(i)].timestamp <= h[i].timestamp
  }

  /** Every node but the root has a time of at least 1. */
  ghost predicate RestFromOne(h: seq<Node>)
    reads h`timestamp
  {
    forall i :: 0 < i < |h| ==> h[i].timestamp >= 1
  }

  /** The last node may fill slot k: there is nothing above it, or nothing later. */
  ghost predicate Fills(h: seq<Node>, k: int)
    reads h`timestamp
  {
    0 < k < |h| - 1 ==> h[Parent(k)].timestamp <= h[|h| - 1].timestamp
  }

  /** The heap with its last node in slot k. */
  function Removed(h: seq<Node>, k: int): (r: seq<Node>)
    requires 0 <= k < |h|
    ensures |r| == |h| - 1
  {
    h[k := h[|h| - 1]][..|h| - 1]
  }

  lemma RemovedFacts(h: seq<Node>, k: int)
    requires 0 <= k < |h|
    ensures multiset(h) == multiset(Removed(h, k)) + multiset{h[k]}
    ensures forall i :: 0 <= i < |h| - 1 ==> Removed(h, k)[i] in h
  {
    var l := h[|h| - 1];
    assert h == h[..|h| - 1] + [l];
    if k < |h| - 1 {
      assert Removed(h, k) == h[..|h| - 1][k := l];
    } else {
      assert Removed(h, k) == h[..|h| - 1];
    }
  }

  /** What taking out slot k leaves of the order. */
  lemma AfterRemoval(h: seq<Node>, k: int)
    requires 0 <= k < |h| && Ordered(h)
    ensures Fills(h, k) ==> OrderedBelow(Removed(h, k), k)
    ensures !Fills(h, k) ==> Settled(Removed(h, k), k) && Broken(Removed(h, k), k, h[|h| - 1])
  {
    var r := Removed(h, k);
    if !Fills(h, k) {
      assert r[Parent(k)].timestamp > r[k].timestamp;
      forall i | 0 < i < |r| && Parent(i) == k ensures r[k].timestamp <= r[i].timestamp {
        assert h[k].timestamp <= h[i].timestamp && h[Parent(k)].timestamp <= h[k].timestamp;
      }
    } else {
      forall i | 0 < i < |r| && Parent(i) == k && k > 0 ensures r[Parent(k)].timestamp <= r[i].timestamp {
        assert h[k].timestamp <= h[i].timestamp && h[Parent(k)].timestamp <= h[k].timestamp;
      }
    }
  }

  lemma AllLater(h: seq<Node>)
    ensures Ordered(h) ==> forall i :: 0 <= i < |h| ==> h[0].timestamp <= h[i].timestamp
  {
    if Ordered(h) {
      forall i: int | 0 <= i < |h| ensures h[0].timestamp <= h[i].timestamp {
        RootIsEarliest(h, i);
      }
    }
  }

  lemma BrokenNotOrdered(h: seq<Node>)
    ensures forall k, x :: Broken(h, k, x) ==> !Ordered(h)
  {
  }

  lemma EarlierChild(h: seq<Node>, q: int, p: int)
    requires 0 <= q && q * 2 + 1 < |h| && (p == q * 2 + 1 || p == q * 2 + 2) && p < |h|
    requires q * 2 + 2 < |h| ==> if h[q * 2 + 1].timestamp > h[q * 2 + 2].timestamp then p == q * 2 + 2 else p == q * 2 + 1
    ensures Parent(p) == q && forall i :: 0 < i < |h| && Parent(i) == q ==> h[p].timestamp <= h[i].timestamp
    ensures Settled(h, q) ==> h[q].timestamp <= h[p].timestamp
  {
  }

  lemma DownDone(h: seq<Node>, q: int, p: int)
    requires 0 <= q < |h| && 0 < p < |h| && OrderedBelow(h, q) && h[q].timestamp <= h[p].timestamp
    requires forall i :: 0 < i < |h| && Parent(i) == q ==> h[p].timestamp <= h[i].timestamp
    ensures Ordered(h)
  {
  }

  lemma NoChildren(h: seq<Node>, q: int)
    requires 0 <= q && q * 2 + 1 >= |h| && OrderedBelow(h, q)
    ensures Ordered(h)
  {
  }

  lemma SwappedFacts(h: seq<Node>, p: int, q: int)
    requires 0 <= p < |h| && 0 <= q < |h|
    ensures multiset(Swapped(h, p, q)) == multiset(h) && Swapped(h, p, q)[p] == h[q]
    ensures forall i :: 0 <= i < |h| ==> Swapped(h, p, q)[i] in h
  {
  }

  /** The walk up ends: the node is not earlier than the one above it, or it is the root. */
  lemma UpDone(h: seq<Node>, q: int)
    requires 0 <= q < |h| && OrderedAbove(h, q) && (q > 0 ==> h[Parent(q)].timestamp <= h[q].timestamp)
    ensures Ordered(h)
  {
  }

  lemma Inserted(was: seq<Node>, h: seq<Node>, n: Node)
    requires multiset(h) == multiset(was + [n])
    ensures multiset(h) == multiset(was) + multiset{n} && |h| == |was| + 1
  {
    assert |multiset(h)| == |h|;
  }

  lemma NewAbove(h: seq<Node>, q: int)
    requires q == |h| - 1 >= 0 && forall i :: 0 < i < q ==> h[Parent(i)].timestamp <= h[i].timestamp
    ensures OrderedAbove(h, q)
  {
  }
}
