/** The receiver's loss list (`CRcvLossList` in list.cpp): the same intervals, linked both ways.
    Ranges arrive in increasing order; single numbers leave in any order. */
module RcvLossLists {
  import opened Arithmetic
  import opened SeqNo
  import opened Intervals
  import opened LossSlots
  import opened LossArrays
  import opened Wrappers

  class RcvLossList {
    const data1: array<int>
    const data2: array<int>
    const next: array<int>
    const prior: array<int>
    const size: nat
    var head: int
    var tail: int
    var length: int
    ghost var nodes: seq<Interval>
    ghost var anchor: int

    ghost predicate Separate() {
      && data1 != data2 && data1 != next && data1 != prior && data2 != next && data2 != prior && next != prior
      && data1.Length == data2.Length == next.Length == prior.Length == size > 0
    }

    ghost function Ks(): (ks: seq<int>)
      reads this
      requires size > 0
      ensures |ks| == |nodes|
    {
      Slots(nodes, anchor, size)
    }

    /** The arrays hold the intervals and both chains thread them; head and tail are the ends. */
    ghost predicate Shape()
      reads this, data1, data2, next, prior
    {
      && Separate()
      && Lay(nodes, anchor, size, data1[..], data2[..], next[..])
      && Backed(Ks(), prior[..])
      && (nodes != [] ==> head == Ks()[0] && tail == Ks()[|nodes| - 1])
      && (nodes == [] ==> head == -1)
    }

    /** All positions are in [lo, hi]. */
    ghost predicate Closed(lo: int, hi: int)
      reads this, data1, data2, next, prior
    {
      Shape() && Ordered(nodes) && Within(nodes, lo, hi, size) && length == Total(nodes)
    }

    ghost predicate Valid()
      reads this, data1, data2, next, prior
    {
      && Shape() && Ordered(nodes) && length == Total(nodes)
      && (nodes != [] ==> Within(nodes, nodes[0].lo, nodes[|nodes| - 1].hi, size))
    }

    constructor (size: nat)
      requires size > 0
      ensures Valid() && nodes == [] && this.size == size
      ensures fresh(data1) && fresh(data2) && fresh(next) && fresh(prior)
    {
      this.size := size;
      data1 := new int[size](_ => -1);
      data2 := new int[size](_ => -1);
      next := new int[size];
      prior := new int[size];
      head, tail, length := -1, -1, 0;
      nodes, anchor := [], 0;
      new;
      LayEmpty(0, data1[..], data2[..], next[..]);
    }

    lemma ClosedIsValid(lo: int, hi: int)
      requires Closed(lo, hi)
      ensures Valid()
    {
      hide Lay, Backed, Slot, Wrap, Members, Total;
    }

    lemma ValidIsClosed()
      requires Valid() && nodes != []
      ensures Closed(nodes[0].lo, nodes[|nodes| - 1].hi)
      ensures nodes[0].lo <= nodes[0].hi <= nodes[|nodes| - 1].hi
    {
      hide Lay, Backed, Slot, Wrap, Members, Total;
    }

    /** What the arrays say about interval j. */
    lemma NodeFacts(j: nat, lo: int, hi: int)
      requires Closed(lo, hi) && j < |nodes|
      ensures var k := Ks()[j];
              && 0 <= k < size && data1[k] == Wrap(nodes[j].lo) && data2[k] == EndMark(nodes[j])
              && next[k] == (if j + 1 < |nodes| then Ks()[j + 1] else -1)
              && prior[k] == (if j > 0 then Ks()[j - 1] else -1)
              && nodes[j].lo <= nodes[j].hi && (data2[k] == -1 <==> nodes[j].lo == nodes[j].hi)
              && (data2[k] != -1 ==> data2[k] == Wrap(nodes[j].hi))
    {
      hide Lay, Backed, Slot, Wrap, Within, Ordered, Members, Total;
      NodeBounds(nodes, j);
      LayAt(nodes, j, anchor, size, data1[..], data2[..], next[..]);
      BackAt(Ks(), prior[..], j);
      CompareIn(nodes[j].hi, nodes[j].hi);
    }

    // ---------- insertion ----------

    /** The empty list gets its first interval, in slot 0. */
    method InsertFirst(seqno1: SeqNum, seqno2: SeqNum, ghost v: Interval)
      requires Shape() && nodes == [] && seqno1 == Wrap(v.lo) && seqno2 == Wrap(v.hi) && v.lo <= v.hi
      requires Within([v], v.lo, v.hi, size)
      modifies this`head, this`tail, this`nodes, this`anchor, data1, data2, next, prior
      ensures Shape() && nodes == [v]
    {
      hide Lay, Backed, Slot, Wrap, Within;
      ghost var d1, d2, nx, pr := data1[..], data2[..], next[..], prior[..];
      WithinSpan([v], v.lo, v.hi, size);
      WithinNone([v], v.lo, v.hi, size);
      anchor := -v.lo;
      LayAnchor(old(anchor), anchor, size, d1, d2, nx);
      LayInsert([], 0, v, v.lo, v.hi, anchor, size, d1, d2, nx);
      SlotZero(v.lo, size);
      BackOne(0, pr);
      CompareIn(v.lo, v.hi);
      head := 0;
      tail := 0;
      WriteNode(data1, data2, head, seqno1, seqno2);
      next[head] := -1;
      prior[head] := -1;
      nodes := Inserted([], 0, v);
      assert next[..] == nx[0 := -1] && prior[..] == pr[0 := -1];
      assert Ks() == [0];
    }

    /** A new interval behind the tail. */
    method Append(loc: int, seqno1: SeqNum, seqno2: SeqNum, ghost v: Interval, ghost lo: int, ghost hi: int)
      requires Closed(lo, hi) && nodes != [] && nodes[|nodes| - 1].hi < v.lo <= v.hi <= hi
      requires seqno1 == Wrap(v.lo) && seqno2 == Wrap(v.hi) && loc == Slot(v.lo, anchor, size)
      modifies this`tail, this`nodes, data1, data2, next, prior
      ensures Shape() && nodes == old(nodes) + [v]
    {
      hide Lay, Backed, Slot, Slots, Wrap, Within, Ordered, Members, Total;
      ghost var n, d1, d2, nx, pr, ks := |nodes|, data1[..], data2[..], next[..], prior[..], Ks();
      WithinSpan(nodes, lo, hi, size);
      Increases(nodes);
      NodeFacts(n - 1, lo, hi);
      LayInsert(nodes, n, v, lo, hi, anchor, size, d1, d2, nx);
      LayDistinct(nodes, anchor, size, d1, d2, nx);
      SlotFree(nodes, n, v.lo, lo, hi, anchor, size);
      BackInsert(ks, pr, n, loc);
      CompareIn(v.lo, v.hi);
      WriteNode(data1, data2, loc, seqno1, seqno2);
      next[tail] := loc;
      prior[loc] := tail;
      next[loc] := -1;
      tail := loc;
      nodes := nodes + [v];
      assert next[..] == nx[loc := -1][ks[n - 1] := loc];
      assert Inserted(old(nodes), n, v) == nodes && Inserted(ks, n, loc) == ks + [loc];
    }

    /** The last interval grows. */
    method ExtendTail(seqno2: SeqNum, ghost b: int, ghost lo: int, ghost hi: int)
      requires Closed(lo, hi) && nodes != [] && nodes[|nodes| - 1].hi < b <= hi && seqno2 == Wrap(b)
      modifies this`nodes, data2
      ensures Shape() && nodes == Replaced(old(nodes), |old(nodes)| - 1, Interval(old(nodes)[|old(nodes)| - 1].lo, b))
    {
      hide Lay, Backed, Slot, Slots, Wrap, Within, Ordered, Members, Total;
      ghost var m := |nodes| - 1;
      NodeFacts(m, lo, hi);
      LayEnd(nodes, m, b, anchor, size, data1[..], data2[..], next[..]);
      data2[tail] := seqno2;
      nodes := Replaced(nodes, m, Interval(nodes[m].lo, b));
    }

    /** `insert`: set union for a range above everything in the list. */
    method Insert(seqno1: SeqNum, seqno2: SeqNum, ghost a: int, ghost b: int)
      requires Valid() && a <= b && seqno1 == Wrap(a) && seqno2 == Wrap(b) && Fits(nodes, a, b, size)
      requires nodes != [] ==> nodes[|nodes| - 1].hi < a
      modifies this, data1, data2, next, prior
      ensures Valid() && Members(nodes) == old(Members(nodes)) + RangeSet(a, b)
      ensures length == old(length) + b - a + 1
    {
      hide Lay, Backed, Slot, Wrap, Ordered, Members, Total, RangeSet, Within, Fits;
      OrderedTotal(nodes);
      if 0 == length {
        InsertOnly(seqno1, seqno2, a, b);
        return;
      }
      ghost var lo, hi := nodes[0].lo, b;
      FitsAbove(nodes, a, b, size);
      TailFacts(a, b, lo);
      var offset := SeqOff(data1[head], seqno1);
      var loc := (head + offset) % size;
      if -1 != data2[tail] && IncSeq(data2[tail]) == seqno1 {
        GrownTail(nodes, a, b, lo, hi, size);
        ExtendTail(seqno2, b, lo, hi);
      } else {
        Appended(nodes, a, b, lo, hi, size);
        Append(loc, seqno1, seqno2, Interval(a, b), lo, hi);
      }
      length := length + SeqLen(seqno1, seqno2);
      ClosedIsValid(lo, hi);
    }

    /** What an insertion reads at both ends. */
    lemma TailFacts(a: int, b: int, lo: int)
      requires Closed(lo, b) && nodes != [] && lo == nodes[0].lo && nodes[|nodes| - 1].hi < a <= b
      ensures 0 <= head < size && 0 <= tail < size && 0 <= data1[head] < MODULUS && -1 <= data2[tail] < MODULUS
      ensures (head + SeqOff(data1[head], Wrap(a))) % size == Slot(a, anchor, size)
      ensures data2[tail] != -1 && IncSeq(data2[tail]) == Wrap(a) ==> a == nodes[|nodes| - 1].hi + 1
      ensures SeqLen(Wrap(a), Wrap(b)) == b - a + 1
    {
      hide Lay, Backed, Slot, Wrap, Ordered, Members, Total, Within;
      WithinSpan(nodes, lo, b, size);
      NodeFacts(0, lo, b);
      NodeFacts(|nodes| - 1, lo, b);
      CompareIn(lo, a);
      CompareIn(a, b);
      CompareIn(nodes[|nodes| - 1].hi, a);
      CompareIn(nodes[|nodes| - 1].hi + 1, a);
      SlotAhead(lo, a, anchor, size);
    }

    method InsertOnly(seqno1: SeqNum, seqno2: SeqNum, ghost a: int, ghost b: int)
      requires Valid() && nodes == [] && length == 0 && a <= b && seqno1 == Wrap(a) && seqno2 == Wrap(b) && Fits(nodes, a, b, size)
      modifies this, data1, data2, next, prior
      ensures Valid() && Members(nodes) == Members(old(nodes)) + RangeSet(a, b) && length == b - a + 1
    {
      hide Lay, Backed, Slot, Wrap, RangeSet;
      One(Interval(a, b));
      CompareIn(a, b);
      InsertFirst(seqno1, seqno2, Interval(a, b));
      length := length + SeqLen(seqno1, seqno2);
    }

    // ---------- removal ----------

    /** Takes the node in slot loc out of both chains. */
    method Unlink(loc: int, ghost m: nat, ghost ks: seq<int>)
      requires Separate() && m < |ks| && Distinct(ks, size) && Linked(ks, next[..]) && Backed(ks, prior[..])
      requires loc == ks[m] && head == ks[0] && tail == ks[|ks| - 1]
      modifies this`head, this`tail, next, prior
      ensures Distinct(Dropped(ks, m), size) && Backed(Dropped(ks, m), prior[..])
      ensures next[..] == if m > 0 then old(next[..])[ks[m - 1] := old(next[ks[m]])] else old(next[..])
      ensures |ks| == 1 ==> head == -1
      ensures |ks| > 1 ==> head == Dropped(ks, m)[0] && tail == Dropped(ks, m)[|ks| - 2]
    {
      hide Linked, Backed;
      ghost var nx, pr := next[..], prior[..];
      LinkAt(ks, nx, m);
      BackAt(ks, pr, m);
      BackDrop(ks, pr, m);
      DistinctDrop(ks, size, m);
      if head == loc {
        head := next[head];
        if -1 != head {
          prior[head] := -1;
        }
        assert prior[..] == if 1 < |ks| then pr[ks[1] := pr[ks[0]]] else pr;
      } else {
        next[prior[loc]] := next[loc];
        if -1 != next[loc] {
          prior[next[loc]] := prior[loc];
        } else {
          tail := prior[loc];
        }
      }
    }

    /** A single number goes with its node. */
    method DropNode(loc: int, ghost m: nat, ghost lo: int, ghost hi: int)
      requires Closed(lo, hi) && m < |nodes| && loc == Ks()[m] && nodes[m].lo == nodes[m].hi
      modifies this`head, this`tail, this`nodes, data1, next, prior
      ensures Shape() && nodes == Dropped(old(nodes), m)
    {
      hide Lay, Linked, Distinct, Backed, Slot, Slots, Wrap, Within, Ordered, Members, Total, Dropped;
      ghost var ks, d1, d2, nx := Ks(), data1[..], data2[..], next[..];
      LayThread(nodes, anchor, size, d1, d2, nx);
      NodeFacts(m, lo, hi);
      LayDrop(nodes, m, anchor, size, d1, d2, nx);
      Unlink(loc, m, ks);
      data1[loc] := -1;
      nodes := Dropped(nodes, m);
      assert d2[loc := -1] == d2;
    }

    /** The interval behind the first number of slot loc is written into slot i, and loc is emptied. */
    method MoveData(loc: int, i: int, ghost x: int, ghost h: int)
      requires Separate() && 0 <= i < size && 0 <= loc < size && i != loc && data2[i] == -1
      requires x < h < x + SEQ_NO_TH && data1[loc] == Wrap(x) && data2[loc] == Wrap(h)
      modifies data1, data2
      ensures data1[..] == Put(Put(old(data1[..]), loc, -1), i, Wrap(x + 1))
      ensures data2[..] == Put(Put(old(data2[..]), loc, -1), i, EndMark(Interval(x + 1, h)))
    {
      hide Wrap, EndMark;
      WrapRange(x);
      WriteRest(data1, data2, loc, i, data1[loc], x, h);
      data1[loc] := -1;
      data2[loc] := -1;
    }

    /** The interval in slot loc loses its first number and moves to the next slot. */
    method MoveNode(loc: int, ghost m: nat, ghost lo: int, ghost hi: int)
      requires Closed(lo, hi) && m < |nodes| && loc == Ks()[m] && nodes[m].lo < nodes[m].hi
      modifies this`head, this`tail, this`nodes, data1, data2, next, prior
      ensures Shape() && nodes == Replaced(old(nodes), m, Interval(old(nodes)[m].lo + 1, old(nodes)[m].hi))
    {
      hide Lay, Linked, Distinct, Backed, Slot, Slots, Wrap, EndMark, Within, Ordered, Increasing, Members, Total, Replaced, Put, MovedLinks;
      ghost var ks, d1, d2, nx := Ks(), data1[..], data2[..], next[..];
      ghost var v := Interval(nodes[m].lo + 1, nodes[m].hi);
      LayThread(nodes, anchor, size, d1, d2, nx);
      NodeFacts(m, lo, hi);
      NodeRoom(nodes, m, lo, hi, size);
      LayMove(nodes, m, v, lo, hi, anchor, size, d1, d2, nx);
      NextSlot(nodes[m].lo, anchor, size);
      CompareIn(nodes[m].hi, nodes[m].hi);
      var i := (loc + 1) % size;
      MoveData(loc, i, nodes[m].lo, nodes[m].hi);
      Relink(loc, i, m, ks);
      nodes := Replaced(nodes, m, v);
    }

    /** Puts slot i into both chains in place of slot loc. */
    method Relink(loc: int, i: int, ghost m: nat, ghost ks: seq<int>)
      requires Separate() && m < |ks| && Distinct(ks, size) && Linked(ks, next[..]) && Backed(ks, prior[..])
      requires loc == ks[m] && head == ks[0] && tail == ks[|ks| - 1] && 0 <= i < size && Absent(ks, i)
      modifies this`head, this`tail, next, prior
      ensures Backed(Replaced(ks, m, i), prior[..])
      ensures 0 <= ks[m] < size && next[..] == MovedLinks(old(next[..]), ks, m, i)
      ensures head == Replaced(ks, m, i)[0] && tail == Replaced(ks, m, i)[|ks| - 1]
    {
      hide Linked, Backed;
      ghost var nx, pr := next[..], prior[..];
      LinkAt(ks, nx, m);
      BackAt(ks, pr, m);
      BackMove(ks, pr, m, i);
      next[i] := next[loc];
      prior[i] := prior[loc];
      if head == loc {
        head := i;
      } else {
        next[prior[i]] := i;
      }
      if tail == loc {
        tail := i;
      } else {
        prior[next[i]] := i;
      }
    }

    /** Where the interval in slot i now ends: in front of seqno. */
    method LowerEnd(i: int, seqno: SeqNum, ghost a: int, ghost x: int)
      requires Separate() && 0 <= i < size && data1[i] == Wrap(a) && seqno == Wrap(x) && a < x < a + SEQ_NO_TH
      modifies data2
      ensures data2[..] == old(data2[..])[i := EndMark(Interval(a, x - 1))]
    {
      hide Wrap;
      CompareIn(a + 1, x);
      IncSeqAdvances(a);
      IncSeqAdvances(x - 1);
      if seqno == IncSeq(data1[i]) {
        data2[i] := -1;
      } else {
        data2[i] := DecSeq(seqno);
      }
    }

    /** seqno is the end of the interval in slot i. */
    method CutEnd(i: int, seqno: SeqNum, ghost m: nat, ghost lo: int, ghost hi: int)
      requires Closed(lo, hi) && m < |nodes| && i == Ks()[m] && nodes[m].lo < nodes[m].hi && seqno == Wrap(nodes[m].hi)
      modifies this`nodes, data2
      ensures Shape() && nodes == Replaced(old(nodes), m, Interval(old(nodes)[m].lo, old(nodes)[m].hi - 1))
    {
      hide Lay, Backed, Slot, Slots, Wrap, EndMark, Within, Ordered, Members, Total, Replaced;
      NodeFacts(m, lo, hi);
      NodeRoom(nodes, m, lo, hi, size);
      LayEnd(nodes, m, nodes[m].hi - 1, anchor, size, data1[..], data2[..], next[..]);
      LowerEnd(i, seqno, nodes[m].lo, nodes[m].hi);
      nodes := Replaced(nodes, m, Interval(nodes[m].lo, nodes[m].hi - 1));
    }

    /** seqno lies inside the interval in slot i, which is split around it. */
    method CutInside(i: int, loc: int, seqno: SeqNum, ghost m: nat, ghost x: int, ghost lo: int, ghost hi: int)
      requires Closed(lo, hi) && m < |nodes| && i == Ks()[m] && nodes[m].lo < x < nodes[m].hi && seqno == Wrap(x)
      requires loc == Slot(x + 1, anchor, size)
      modifies this`tail, this`nodes, data1, data2, next, prior
      ensures Shape() && nodes == Hollow(old(nodes), m, x)
    {
      hide Lay, Linked, Distinct, Backed, Slot, Slots, Wrap, EndMark, Within, Ordered, Members, Total, Hollow;
      ghost var ks, d1, d2, nx, ns := Ks(), data1[..], data2[..], next[..], nodes;
      LayThread(nodes, anchor, size, d1, d2, nx);
      NodeFacts(m, lo, hi);
      NodeRoom(nodes, m, lo, hi, size);
      LayHollow(nodes, m, x, lo, hi, anchor, size, d1, d2, nx);
      WriteRest(data1, data2, i, loc, seqno, x, nodes[m].hi);
      LowerEnd(i, seqno, nodes[m].lo, x);
      assert data2[..] == d2[i := EndMark(Interval(ns[m].lo, x - 1))][loc := EndMark(Interval(x + 1, ns[m].hi))];
      LinkBehind(i, loc, m, ks);
      nodes := Hollow(nodes, m, x);
    }

    /** Puts slot loc into both chains behind slot i. */
    method LinkBehind(i: int, loc: int, ghost m: nat, ghost ks: seq<int>)
      requires Separate() && m < |ks| && Distinct(ks, size) && Linked(ks, next[..]) && Backed(ks, prior[..])
      requires i == ks[m] && head == ks[0] && tail == ks[|ks| - 1] && 0 <= loc < size && Absent(ks, loc)
      modifies this`tail, next, prior
      ensures Backed(Inserted(ks, m + 1, loc), prior[..])
      ensures var nx := old(next[..]); next[..] == nx[loc := nx[i]][i := loc]
      ensures head == Inserted(ks, m + 1, loc)[0] && tail == Inserted(ks, m + 1, loc)[|ks|]
    {
      hide Linked, Backed;
      ghost var nx, pr := next[..], prior[..];
      LinkAt(ks, nx, m);
      BackAt(ks, pr, m);
      BackInsert(ks, pr, m + 1, loc);
      assert i != loc;
      next[loc] := next[i];
      next[i] := loc;
      prior[loc] := i;
      if tail == i {
        tail := loc;
      } else {
        prior[next[loc]] := loc;
      }
    }

    /** Walks back over empty slots from the one in front of loc.  Inside the window that finds the
        last interval starting before x. */
    method ScanBack(loc: int, ghost x: int, ghost lo: int, ghost hi: int) returns (i: int, ghost j: nat)
      requires Closed(lo, hi) && nodes != [] && lo == nodes[0].lo && lo < x < lo + SEQ_NO_TH
      requires loc == Slot(x, anchor, size) && forall j :: 0 <= j < |nodes| ==> nodes[j].lo != x
      ensures j < |nodes| && i == Ks()[j]
      ensures x <= hi ==> nodes[j].lo < x && (j + 1 < |nodes| ==> x < nodes[j + 1].lo)
    {
      hide Closed, Lay, Backed, Slot, Wrap, Within, Ordered, Members, Total, Skipped;
      SizeFact(lo, hi);
      i := (loc - 1 + size) % size;
      ghost var d := 1;
      PrevSlot(x, anchor, size);
      SlotRange(x - 1, anchor, size);
      NoneSkipped(data1[..], x, anchor, size);
      HeadStored(lo, hi);
      while -1 == data1[i]
        invariant 1 <= d <= x - lo && i == Slot(x - d, anchor, size) && 0 <= i < size
        invariant Skipped(data1[..], x - d, x, anchor, size)
        decreases x - lo - d
      {
        PrevSlot(x - d, anchor, size);
        SlotRange(x - d - 1, anchor, size);
        SkipOne(data1[..], x - d, x, anchor, size);
        i := (i - 1 + size) % size;
        d := d + 1;
      }
      j := StoredAt(i, x, d, lo, hi);
    }

    /** The slots of the positions between w and x are empty. */
    static ghost predicate Skipped(d1: seq<int>, w: int, x: int, anchor: int, size: nat)
      requires size == |d1| > 0
    {
      forall y :: w < y < x ==> 0 <= Slot(y, anchor, size) < size && d1[Slot(y, anchor, size)] == -1
    }

    static lemma NoneSkipped(d1: seq<int>, x: int, anchor: int, size: nat)
      requires size == |d1| > 0
      ensures Skipped(d1, x - 1, x, anchor, size)
    {
    }

    static lemma SkipOne(d1: seq<int>, w: int, x: int, anchor: int, size: nat)
      requires size == |d1| > 0 && Skipped(d1, w, x, anchor, size)
      requires 0 <= Slot(w, anchor, size) < size && d1[Slot(w, anchor, size)] == -1
      ensures Skipped(d1, w - 1, x, anchor, size)
    {
    }

    lemma SizeFact(lo: int, hi: int)
      requires Closed(lo, hi)
      ensures Separate()
    {
    }

    lemma HeadStored(lo: int, hi: int)
      requires Closed(lo, hi) && nodes != []
      ensures size > 0 && var k := Slot(nodes[0].lo, anchor, size); 0 <= k < size && data1[k] != -1
    {
      hide Lay, Backed, Slot, Wrap, Within, Ordered, Members, Total;
      NodeFacts(0, lo, hi);
    }

    /** The slot at which the scan stops belongs to an interval, the right one inside the window. */
    lemma StoredAt(i: int, x: int, d: int, lo: int, hi: int) returns (j: nat)
      requires Closed(lo, hi) && nodes != [] && lo == nodes[0].lo && 1 <= d <= x - lo
      requires i == Slot(x - d, anchor, size) && 0 <= i < size && data1[i] != -1
      requires Skipped(data1[..], x - d, x, anchor, size) && forall j :: 0 <= j < |nodes| ==> nodes[j].lo != x
      ensures j < |nodes| && i == Ks()[j]
      ensures x <= hi ==> nodes[j].lo < x && (j + 1 < |nodes| ==> x < nodes[j + 1].lo)
    {
      hide Linked, Distinct, Backed, Slot, Slots, Wrap, EndMark, Within, Ordered, Members, Total;
      assert !Absent(Ks(), i);
      j :| 0 <= j < |Ks()| && Ks()[j] == i;
      if x <= hi {
        StartsApart(nodes, j, x, d, lo, hi, anchor, size, data1[..], data2[..], next[..]);
      }
    }

    /** `remove`: takes one number out of the set and reports whether it was there.  The number may
        lie anywhere within half a circle of the head. */
    method Remove(seqno: SeqNum, ghost x: int) returns (r: int)
      requires Valid() && seqno == Wrap(x)
      requires nodes != [] ==> nodes[0].lo - SEQ_NO_TH < x < nodes[0].lo + SEQ_NO_TH
      modifies this, data1, data2, next, prior
      ensures Valid() && Members(nodes) == old(Members(nodes)) - {x}
      ensures r != 0 <==> x in old(Members(nodes))
      ensures length == old(length) - if r != 0 then 1 else 0
    {
      hide Lay, Backed, Slot, Wrap, Members, Total, Within, Ordered;
      OrderedTotal(nodes);
      if 0 == length {
        NoMembers(nodes);
        return 0;
      }
      ghost var lo, hi := nodes[0].lo, nodes[|nodes| - 1].hi;
      ValidIsClosed();
      HeadFacts(x, lo, hi);
      var offset := SeqOff(data1[head], seqno);
      if offset < 0 {
        NotBelow(nodes, x);
        return 0;
      }
      var loc := (head + offset) % size;
      LookUp(nodes, x, lo, hi, anchor, size, data1[..], data2[..], next[..]);
      if seqno == data1[loc] {
        ghost var m :| 0 <= m < |nodes| && nodes[m].lo == x;
        RemoveStart(loc, m, lo, hi);
        r := 1;
      } else {
        r := RemoveInside(seqno, loc, x, lo, hi);
      }
      ClosedIsValid(lo, hi);
    }

    lemma HeadFacts(x: int, lo: int, hi: int)
      requires Closed(lo, hi) && nodes != [] && nodes[0].lo - SEQ_NO_TH < x < nodes[0].lo + SEQ_NO_TH
      ensures Separate() && 0 <= head < size && 0 <= data1[head] < MODULUS
      ensures SeqOff(data1[head], Wrap(x)) == x - nodes[0].lo
      ensures (head + (x - nodes[0].lo)) % size == Slot(x, anchor, size)
      ensures Lay(nodes, anchor, size, data1[..], data2[..], next[..])
    {
      hide Lay, Backed, Slot, Wrap, Within, Ordered, Members, Total;
      NodeFacts(0, lo, hi);
      CompareIn(nodes[0].lo, x);
      SlotAhead(nodes[0].lo, x, anchor, size);
    }

    /** seqno starts the interval in slot loc. */
    method RemoveStart(loc: int, ghost m: nat, ghost lo: int, ghost hi: int)
      requires Closed(lo, hi) && m < |nodes| && loc == Ks()[m]
      modifies this, data1, data2, next, prior
      ensures Closed(lo, hi) && Members(nodes) == old(Members(nodes)) - {old(nodes)[m].lo}
      ensures old(nodes)[m].lo in old(Members(nodes)) && length == old(length) - 1
    {
      hide Lay, Backed, Slot, Slots, Wrap, Members, Total, Within, Ordered, Dropped, Replaced;
      NodeFacts(m, lo, hi);
      if -1 == data2[loc] {
        WithoutNode(nodes, m, lo, hi, size);
        DropNode(loc, m, lo, hi);
      } else {
        WithoutStart(nodes, m, lo, hi, size);
        MoveNode(loc, m, lo, hi);
      }
      length := length - 1;
    }

    /** seqno starts no interval: it is behind a start, or nowhere. */
    method RemoveInside(seqno: SeqNum, from: int, ghost x: int, ghost lo: int, ghost hi: int) returns (r: int)
      requires Closed(lo, hi) && nodes != [] && lo == nodes[0].lo && hi == nodes[|nodes| - 1].hi
      requires lo <= x < lo + SEQ_NO_TH && seqno == Wrap(x) && from == Slot(x, anchor, size)
      requires forall j :: 0 <= j < |nodes| ==> nodes[j].lo != x
      modifies this, data1, data2, next, prior
      ensures Closed(lo, hi) && Members(nodes) == old(Members(nodes)) - {x}
      ensures r != 0 <==> x in old(Members(nodes))
      ensures length == old(length) - if r != 0 then 1 else 0
    {
      hide Lay, Backed, Slot, Slots, Wrap, Members, Total, Within, Ordered, Replaced, Hollow;
      assert nodes[0].lo != x;
      var loc, i := from, 0;
      ghost var m;
      i, m := ScanBack(loc, x, lo, hi);
      EndFacts(m, x, lo, hi);
      InsideFacts(nodes, m, x);
      if -1 == data2[i] || SeqCmp(seqno, data2[i]) > 0 {
        return 0;
      }
      if seqno == data2[i] {
        WithoutEnd(nodes, m, lo, hi, size);
        CutEnd(i, seqno, m, lo, hi);
      } else {
        WithoutInside(nodes, m, x, lo, hi, size);
        NextSlot(x, anchor, size);
        loc := (loc + 1) % size;
        CutInside(i, loc, seqno, m, x, lo, hi);
      }
      length := length - 1;
      r := i + 2;
    }

    lemma EndFacts(j: nat, x: int, lo: int, hi: int)
      requires Closed(lo, hi) && j < |nodes| && nodes[0].lo <= x < nodes[0].lo + SEQ_NO_TH
      ensures var k := Ks()[j];
              && Separate() && 0 <= k < size && nodes[j].lo <= nodes[j].hi && (data2[k] == -1 <==> nodes[j].lo == nodes[j].hi)
              && -1 <= data2[k] < MODULUS
              && (data2[k] != -1 ==> (SeqCmp(Wrap(x), data2[k]) > 0 <==> x > nodes[j].hi))
              && (data2[k] == Wrap(x) ==> x == nodes[j].hi)
              && (data2[k] != -1 && x == nodes[j].hi ==> data2[k] == Wrap(x))
    {
      hide Lay, Backed, Slot, Wrap, Within, Members, Total;
      WithinSpan(nodes, lo, hi, size);
      NodeFacts(j, lo, hi);
      CompareIn(x, nodes[j].hi);
    }

    // ---------- ranges ----------

    /** One counting loop of the range remove: the numbers first, ..., last - 1. */
    method RemoveRun(first: SeqNum, last: int, ghost a: int, ghost lo: int, ghost hi: int)
      requires Valid() && first <= last <= MODULUS && first == Wrap(a)
      requires Inside(nodes, lo, hi) && a + (last - first) - 1 - lo < SEQ_NO_TH && hi - a < SEQ_NO_TH
      modifies this, data1, data2, next, prior
      ensures Valid() && Inside(nodes, lo, hi)
      ensures Members(nodes) == old(Members(nodes)) - RangeSet(a, a + (last - first) - 1)
    {
      hide Valid, Wrap, Members, RangeSet, Inside;
      var i: int := first;
      NoRange(a);
      while i < last
        invariant first <= i <= last && Valid() && Inside(nodes, lo, hi)
        invariant Members(nodes) == old(Members(nodes)) - RangeSet(a, a + (i - first) - 1)
      {
        ghost var x, was := a + (i - first), nodes;
        WrapRun(a, first, i);
        InsideHead(nodes, lo, hi);
        var r := Remove(i, x);
        ValidOrdered();
        InsideStays(was, nodes, lo, hi);
        RangeStep(old(Members(nodes)), a, x);
        i := i + 1;
      }
    }

    lemma ValidOrdered()
      requires Valid()
      ensures Ordered(nodes)
      ensures nodes != [] ==> Inside(nodes, nodes[0].lo, nodes[|nodes| - 1].hi)
    {
    }

    /** The range form of `remove`.  It is exact when the range does not pass the end of the circle;
        when it does, the first loop stops short of the largest number, which stays.  A plain range
        that ends at that number is removed too, but then the 32-bit counter overflows, and the loop
        does not end. */
    method RemoveRange(seqno1: SeqNum, seqno2: SeqNum, ghost a: int, ghost b: int) returns (overflows: bool)
      requires Valid() && a <= b < a + MODULUS && seqno1 == Wrap(a) && seqno2 == Wrap(b)
      requires nodes != [] ==> b - nodes[0].lo < SEQ_NO_TH && nodes[|nodes| - 1].hi - a < SEQ_NO_TH
      modifies this, data1, data2, next, prior
      ensures Valid() && (overflows <==> seqno1 <= seqno2 == MAX_SEQ_NO)
      ensures seqno1 <= seqno2 ==> Members(nodes) == old(Members(nodes)) - RangeSet(a, b)
      ensures seqno1 > seqno2 ==> Members(nodes) == old(Members(nodes)) - (RangeSet(a, b) - {TurnEnd(a)})
    {
      hide Valid, Wrap, Members, RangeSet, Inside;
      ghost var lo, hi := if nodes == [] then b else nodes[0].lo, if nodes == [] then a else nodes[|nodes| - 1].hi;
      ValidOrdered();
      NoneInside(lo, hi);
      WrapTurn(a, b);
      overflows := false;
      if seqno1 <= seqno2 {
        RemoveRun(seqno1, seqno2 + 1, a, lo, hi);
        overflows := seqno2 == MAX_SEQ_NO;
      } else {
        RemoveRun(seqno1, MAX_SEQ_NO, a, lo, hi);
        RemoveRun(0, seqno2 + 1, TurnEnd(a) + 1, lo, hi);
        TwoRuns(old(Members(nodes)), a, TurnEnd(a), b);
      }
    }

    /** `find`: whether any number of the range is in the list. */
    method Find(seqno1: SeqNum, seqno2: SeqNum, ghost a: int, ghost b: int) returns (found: bool)
      requires Valid() && a <= b && seqno1 == Wrap(a) && seqno2 == Wrap(b)
      requires nodes != [] ==> b - nodes[0].lo < SEQ_NO_TH && nodes[|nodes| - 1].hi - a < SEQ_NO_TH
      ensures found <==> exists x :: x in Members(nodes) && a <= x <= b
    {
      hide Valid, Lay, Backed, Slot, Wrap, Members, Total, Within, Ordered;
      ValidLength();
      if 0 == length {
        NoMembers(nodes);
        return false;
      }
      ghost var lo, hi := nodes[0].lo, nodes[|nodes| - 1].hi;
      ValidIsClosed();
      NodeFacts(0, lo, hi);
      var p := head;
      ghost var j := 0;
      while -1 != p
        invariant 0 <= j <= |nodes| && (p == if j < |nodes| then Ks()[j] else -1) && (j < |nodes| ==> p != -1)
        invariant forall i :: 0 <= i < j ==> !Meets(nodes[i], a, b)
        decreases |nodes| - j
      {
        FindFacts(j, a, b, lo, hi);
        if SeqCmp(data1[p], seqno1) == 0
          || (SeqCmp(data1[p], seqno1) > 0 && SeqCmp(data1[p], seqno2) <= 0)
          || (SeqCmp(data1[p], seqno1) < 0 && data2[p] != -1 && SeqCmp(data2[p], seqno1) >= 0)
        {
          MeetsIn(nodes, j, a, b);
          return true;
        }
        p := next[p];
        j := j + 1;
      }
      NoneMeets(nodes, a, b);
      return false;
    }

    lemma ValidLength()
      requires Valid()
      ensures length == 0 <==> nodes == []
    {
      hide Lay, Backed, Slot, Wrap, Within, Ordered, Total;
      OrderedTotal(nodes);
    }

    /** The test of `find` on the interval in slot Ks()[j]. */
    lemma FindFacts(j: nat, a: int, b: int, lo: int, hi: int)
      requires Closed(lo, hi) && j < |nodes| && lo == nodes[0].lo && hi == nodes[|nodes| - 1].hi
      requires a <= b && b - lo < SEQ_NO_TH && hi - a < SEQ_NO_TH
      ensures var p, v := Ks()[j], nodes[j];
              && Separate() && 0 <= p < size && 0 <= data1[p] < MODULUS && -1 <= data2[p] < MODULUS
              && next[p] == (if j + 1 < |nodes| then Ks()[j + 1] else -1) && (j + 1 < |nodes| ==> next[p] != -1) && v.lo <= v.hi
              && (Meets(v, a, b) <==>
                    SeqCmp(data1[p], Wrap(a)) == 0
                    || (SeqCmp(data1[p], Wrap(a)) > 0 && SeqCmp(data1[p], Wrap(b)) <= 0)
                    || (SeqCmp(data1[p], Wrap(a)) < 0 && data2[p] != -1 && SeqCmp(data2[p], Wrap(a)) >= 0))
    {
      hide Lay, Backed, Slot, Wrap, Within, Ordered, Members, Total;
      NodeFacts(j, lo, hi);
      if j + 1 < |nodes| {
        NodeFacts(j + 1, lo, hi);
      }
      NodeBounds(nodes, j);
      WithinSpan(nodes, lo, hi, size);
      CompareIn(nodes[j].lo, a);
      CompareIn(nodes[j].lo, b);
      CompareIn(nodes[j].hi, a);
    }

    // ---------- reports ----------

    /** The first loop of `getLossArray`: steps over the intervals already reported. */
    method Seek(offset: int, ghost lo: int, ghost hi: int) returns (i: int)
      requires Closed(lo, hi) && 0 <= offset <= |nodes|
      ensures i == if offset < |nodes| then Ks()[offset] else -1
    {
      hide Closed, Lay, Backed, Slot, Slots, Wrap, Members, Total, Within, Ordered;
      StartFact(lo, hi);
      i := head;
      var seek := offset;
      while seek > 0
        invariant 0 <= seek <= offset
        invariant i == if offset - seek < |nodes| then Ks()[offset - seek] else -1
      {
        NodeFacts(offset - seek, lo, hi);
        i := next[i];
        seek := seek - 1;
      }
    }

    lemma StartFact(lo: int, hi: int)
      requires Closed(lo, hi)
      ensures Separate() && head == if 0 < |nodes| then Ks()[0] else -1
    {
    }

    /** `getLossArray`: one page of the report, from interval `offset` on. */
    method GetLossArray(words: array<int>, limit: int, offset: int) returns (len: int, newOffset: int)
      requires Valid() && 0 <= offset <= |nodes| && limit <= words.Length
      requires words != data1 && words != data2 && words != next && words != prior
      modifies words
      ensures 0 <= len <= words.Length && offset <= newOffset <= |nodes|
      ensures words[..len] == Encode(nodes[offset..newOffset])
      ensures words[len..] == old(words[len..])
      ensures newOffset < |nodes| ==> len >= limit - 1
      ensures offset < |nodes| && limit > 1 ==> newOffset > offset
    {
      hide Valid, Closed, Lay, Backed, Slot, Slots, Wrap, Members, Total, Within, Ordered, Encode, Words;
      ghost var lo, hi := if nodes == [] then 0 else nodes[0].lo, if nodes == [] then 0 else nodes[|nodes| - 1].hi;
      ReportWindow(lo, hi);
      len := 0;
      newOffset := offset;
      var i := Seek(offset, lo, hi);
      NothingEncoded(nodes, offset);
      if offset < |nodes| {
        NodeFacts(offset, lo, hi);
      }
      while len < limit - 1 && -1 != i
        invariant 0 <= len <= words.Length && (len <= limit || len == 0) && offset <= newOffset <= |nodes|
        invariant i == if newOffset < |nodes| then Ks()[newOffset] else -1
        invariant newOffset < |nodes| ==> i != -1
        invariant words[..len] == Encode(nodes[offset..newOffset])
        invariant forall k :: len <= k < words.Length ==> words[k] == old(words[k])
        invariant newOffset == offset ==> len == 0
        decreases |nodes| - newOffset
      {
        len, i := ReportOne(words, len, i, offset, newOffset, lo, hi);
        newOffset := newOffset + 1;
      }
      assert words[len..] == old(words[len..]);
    }

    /** The body of that loop: the interval in slot i, which is the one numbered `at`. */
    method ReportOne(words: array<int>, len0: int, i: int, ghost offset: int, ghost at: int, ghost lo: int, ghost hi: int)
      returns (len: int, j: int)
      requires Closed(lo, hi) && 0 <= offset <= at < |nodes| && i == Ks()[at] && 0 <= len0 < words.Length - 1
      requires words != data1 && words != data2 && words != next && words != prior
      requires words[..len0] == Encode(nodes[offset..at])
      modifies words
      ensures len0 < len <= len0 + 2 && words[..len] == Encode(nodes[offset..at + 1])
      ensures forall k :: len <= k < words.Length ==> words[k] == old(words[k])
      ensures j == (if at + 1 < |nodes| then Ks()[at + 1] else -1) && (at + 1 < |nodes| ==> j != -1)
    {
      hide Closed, Lay, Backed, Slot, Slots, Wrap, Members, Total, Within, Ordered, Encode, Words;
      ReportFacts(at, lo, hi);
      len := WriteWords(words, len0, data1[i], data2[i]);
      EncodeNext(nodes, offset, at);
      assert words[..len] == words[..len0] + words[len0..len];
      j := next[i];
    }

    /** The words of one interval.  Setting the top bit adds FLAG, because
        numbers have 31 bits; words are read as unsigned. */
    static method WriteWords(words: array<int>, len0: int, first: int, last: int) returns (len: int)
      requires 0 <= len0 < words.Length - 1
      modifies words
      ensures len == len0 + if last != -1 then 2 else 1
      ensures words[..len0] == old(words[..len0]) && forall k :: len <= k < words.Length ==> words[k] == old(words[k])
      ensures words[len0..len] == if last != -1 then [first + FLAG, last] else [first]
    {
      len := len0;
      words[len] := first;
      if -1 != last {
        words[len] := words[len] + FLAG;
        len := len + 1;
        words[len] := last;
      }
      len := len + 1;
    }

    lemma ReportWindow(lo: int, hi: int)
      requires Valid()
      requires if nodes == [] then lo == hi == 0 else lo == nodes[0].lo && hi == nodes[|nodes| - 1].hi
      ensures Closed(lo, hi)
    {
      hide Lay, Backed, Slot, Wrap, Members, Total;
    }

    lemma ReportFacts(j: nat, lo: int, hi: int)
      requires Closed(lo, hi) && j < |nodes|
      ensures var p := Ks()[j];
              && Separate() && 0 <= p < size
              && next[p] == (if j + 1 < |nodes| then Ks()[j + 1] else -1) && (j + 1 < |nodes| ==> next[p] != -1)
              && Words(nodes[j]) == (if data2[p] != -1 then [data1[p] + FLAG, data2[p]] else [data1[p]])
    {
      hide Lay, Backed, Slot, Wrap, Within, Ordered, Members, Total;
      NodeFacts(j, lo, hi);
      if j + 1 < |nodes| {
        NodeFacts(j + 1, lo, hi);
      }
    }
  }

  lemma LayDistinct(ns: seq<Interval>, anchor: int, size: nat, d1: seq<int>, d2: seq<int>, next: seq<int>)
    requires Lay(ns, anchor, size, d1, d2, next)
    ensures Distinct(Slots(ns, anchor, size), size) && |Slots(ns, anchor, size)| == |ns|
  {
  }

  /** A position between two starts has a free slot. */
  lemma SlotFree(ns: seq<Interval>, m: nat, x: int, lo: int, hi: int, anchor: int, size: nat)
    requires size > 0 && Increasing(ns) && m <= |ns| && Within(ns, lo, hi, size) && lo <= x <= hi
    requires m > 0 ==> ns[m - 1].lo < x
    requires m < |ns| ==> x < ns[m].lo
    ensures 0 <= Slot(x, anchor, size) < size && Absent(Slots(ns, anchor, size), Slot(x, anchor, size))
  {
    hide Slot;
    NoneStartsAt(ns, m, x);
    SlotsApart(ns, lo, hi, anchor, size, x);
  }

  lemma SlotAhead(x: int, y: int, anchor: int, size: nat)
    requires size > 0
    ensures (Slot(x, anchor, size) + (y - x)) % size == Slot(y, anchor, size)
  {
    SlotFromHead(x, y, anchor, size);
    ModShift(Slot(x, anchor, size) + (y - x), 1, size);
  }

  lemma FitsAbove(ns: seq<Interval>, a: int, b: int, size: nat)
    requires Ordered(ns) && Fits(ns, a, b, size) && ns != [] && ns[|ns| - 1].hi < a <= b
    ensures Within(ns, ns[0].lo, b, size)
  {
  }

  lemma GrownTail(ns: seq<Interval>, a: int, b: int, lo: int, hi: int, size: nat)
    requires Ordered(ns) && ns != [] && a == ns[|ns| - 1].hi + 1 <= b <= hi && Within(ns, lo, hi, size)
    ensures var ns' := Replaced(ns, |ns| - 1, Interval(ns[|ns| - 1].lo, b));
            && Ordered(ns') && Within(ns', lo, hi, size) && Members(ns') == Members(ns) + RangeSet(a, b)
            && Total(ns') == Total(ns) + b - a + 1
  {
    hide Members, Total, RangeSet, Within;
    var m := |ns| - 1;
    StretchInterval(ns, m, a, b);
    StretchedWithin(ns, m, b, lo, hi, size);
    AlmostIsOrdered(Replaced(ns, m, Interval(ns[m].lo, b)), m);
  }

  lemma Appended(ns: seq<Interval>, a: int, b: int, lo: int, hi: int, size: nat)
    requires Ordered(ns) && ns != [] && ns[|ns| - 1].hi < a <= b <= hi && Within(ns, lo, hi, size)
    ensures var ns' := ns + [Interval(a, b)];
            && Ordered(ns') && Within(ns', lo, hi, size) && Members(ns') == Members(ns) + RangeSet(a, b)
            && Total(ns') == Total(ns) + b - a + 1
  {
    hide Members, Total, RangeSet;
    One(Interval(a, b));
    MembersConcat(ns, [Interval(a, b)]);
    TotalConcat(ns, [Interval(a, b)]);
  }

  lemma LayThread(ns: seq<Interval>, anchor: int, size: nat, d1: seq<int>, d2: seq<int>, next: seq<int>)
    requires Lay(ns, anchor, size, d1, d2, next)
    ensures Distinct(Slots(ns, anchor, size), size) && |Slots(ns, anchor, size)| == |ns|
    ensures Linked(Slots(ns, anchor, size), next)
  {
  }

  lemma NodeRoom(ns: seq<Interval>, m: nat, lo: int, hi: int, size: nat)
    requires Ordered(ns) && Within(ns, lo, hi, size) && m < |ns|
    ensures Increasing(ns) && lo <= ns[m].lo <= ns[m].hi <= hi && ns[m].hi < ns[m].lo + SEQ_NO_TH - 1
    ensures m + 1 < |ns| ==> ns[m].hi < ns[m + 1].lo
  {
  }

  /** The list with x taken out of the inside of interval m. */
  function Hollow(ns: seq<Interval>, m: nat, x: int): seq<Interval>
    requires m < |ns|
  {
    Replaced(Split(ns, m, x), m, Interval(ns[m].lo, x - 1))
  }

  lemma LayHollow(ns: seq<Interval>, m: nat, x: int, lo: int, hi: int, anchor: int, size: nat, d1: seq<int>, d2: seq<int>, next: seq<int>)
    requires size > 0 && Lay(ns, anchor, size, d1, d2, next) && m < |ns| && Ordered(ns) && Within(ns, lo, hi, size)
    requires ns[m].lo < x < ns[m].hi
    ensures var ks, k := Slots(ns, anchor, size), Slot(x + 1, anchor, size); var i := ks[m];
            && |d1| == |d2| == |next| == size && 0 <= i < size && 0 <= k < size && i != k && d1[k] == -1 && d2[k] == -1
            && Absent(ks, k) && |Hollow(ns, m, x)| == |ns| + 1
            && Slots(Hollow(ns, m, x), anchor, size) == Inserted(ks, m + 1, k)
            && Lay(Hollow(ns, m, x), anchor, size, d1[k := Wrap(x + 1)],
                 d2[i := EndMark(Interval(ns[m].lo, x - 1))][k := EndMark(Interval(x + 1, ns[m].hi))], next[k := next[i]][i := k])
  {
    hide Lay, Slot, Slots, Wrap, EndMark, Linked, Stored, Distinct, Within, Ordered, Inserted, Replaced, Split, Increasing;
    var ks, k := Slots(ns, anchor, size), Slot(x + 1, anchor, size);
    var i := ks[m];
    LaySplit(ns, m, x, lo, hi, anchor, size, d1, d2, next);
    NodeRoom(ns, m, lo, hi, size);
    SlotFree(ns, m + 1, x + 1, lo, hi, anchor, size);
    SplitShape(ns, m, x);
    var e1 := d1[k := Wrap(x + 1)];
    var e2 := d2[i := EndMark(Interval(ns[m].lo, x))][k := EndMark(Interval(x + 1, ns[m].hi))];
    LayEnd(Split(ns, m, x), m, x - 1, anchor, size, e1, e2, next[k := next[i]][i := k]);
    assert e2[i := EndMark(Interval(ns[m].lo, x - 1))] == d2[i := EndMark(Interval(ns[m].lo, x - 1))][k := EndMark(Interval(x + 1, ns[m].hi))];
  }

  lemma SplitShape(ns: seq<Interval>, m: nat, x: int)
    requires m < |ns|
    ensures |Split(ns, m, x)| == |ns| + 1 && Split(ns, m, x)[m] == Interval(ns[m].lo, x)
  {
  }

  lemma PrevSlot(x: int, anchor: int, size: nat)
    requires size > 0
    ensures (Slot(x, anchor, size) - 1 + size) % size == Slot(x - 1, anchor, size)
  {
    SlotFromHead(x, x - 1, anchor, size);
  }

  /** No interval starts between x - d and x when those slots are empty. */
  lemma StartsApart(ns: seq<Interval>, j: nat, x: int, d: int, lo: int, hi: int, anchor: int, size: nat,
                    d1: seq<int>, d2: seq<int>, next: seq<int>)
    requires Lay(ns, anchor, size, d1, d2, next) && Ordered(ns) && Within(ns, lo, hi, size) && j < |ns|
    requires lo <= x - d < x <= hi && Slots(ns, anchor, size)[j] == Slot(x - d, anchor, size)
    requires RcvLossList.Skipped(d1, x - d, x, anchor, size) && forall j :: 0 <= j < |ns| ==> ns[j].lo != x
    ensures ns[j].lo < x && (j + 1 < |ns| ==> x < ns[j + 1].lo)
  {
    hide Slot, Lay, Wrap, EndMark, Within;
    WithinSpan(ns, lo, hi, size);
    SlotDistinct(ns[j].lo, x - d, anchor, size);
    if j + 1 < |ns| {
      LayAt(ns, j + 1, anchor, size, d1, d2, next);
      if ns[j + 1].lo < x {
        assert ns[j].lo < ns[j + 1].lo;
        assert Slot(ns[j + 1].lo, anchor, size) == Slots(ns, anchor, size)[j + 1];
        WrapStored(ns[j + 1].lo);
      }
    }
  }

  lemma NoMembers(ns: seq<Interval>)
    requires ns == []
    ensures Members(ns) == {}
  {
  }

  lemma WrapRange(x: int)
    ensures 0 <= Wrap(x) < MODULUS
  {
  }

  lemma WrapStored(x: int)
    ensures Wrap(x) != -1
  {
  }

  lemma NotBelow(ns: seq<Interval>, x: int)
    requires Ordered(ns) && ns != [] && x < ns[0].lo
    ensures x !in Members(ns) && Members(ns) == Members(ns) - {x}
  {
    hide Members;
    MembersIn(ns);
  }

  /** Behind the start of interval m and in front of the next one, only interval m can hold x. */
  lemma InsideFacts(ns: seq<Interval>, m: nat, x: int)
    requires Ordered(ns) && m < |ns|
    requires x <= ns[|ns| - 1].hi ==> ns[m].lo < x && (m + 1 < |ns| ==> x < ns[m + 1].lo)
    ensures x in Members(ns) <==> ns[m].lo < x <= ns[m].hi
    ensures x > ns[m].hi ==> Members(ns) - {x} == Members(ns)
    ensures x <= ns[m].hi ==> ns[m].lo < x
  {
    hide Members;
    MembersIn(ns);
    if ns[m].lo < x <= ns[m].hi {
      assert In(ns, x);
    }
  }

  lemma Elsewhere(ns: seq<Interval>, m: nat, x: int)
    requires Ordered(ns) && m < |ns| && ns[m].lo <= x <= ns[m].hi
    ensures x in Members(ns) && x !in Members(ns[..m]) && x !in Members(ns[m + 1..])
  {
    hide Members;
    MembersIn(ns);
    MembersIn(ns[..m]);
    MembersIn(ns[m + 1..]);
    assert In(ns, x);
  }

  /** Interval m with x taken out, between the others. */
  lemma WithoutSets(a: set<int>, lo: int, hi: int, c: set<int>, x: int)
    requires lo <= x <= hi && x !in a && x !in c
    ensures a + RangeSet(lo, hi) + c - {x} == a + (RangeSet(lo, x - 1) + RangeSet(x + 1, hi)) + c
  {
    hide RangeSet;
    RangeIs(lo, hi);
    RangeIs(lo, x - 1);
    RangeIs(x + 1, hi);
  }

  lemma WithoutNode(ns: seq<Interval>, m: nat, lo: int, hi: int, size: nat)
    requires Ordered(ns) && Within(ns, lo, hi, size) && m < |ns| && ns[m].lo == ns[m].hi
    ensures var ns' := Dropped(ns, m);
            && Ordered(ns') && Within(ns', lo, hi, size) && Total(ns') == Total(ns) - 1
            && Members(ns') == Members(ns) - {ns[m].lo} && ns[m].lo in Members(ns)
  {
    hide Members, Total, RangeSet, Ordered, Within;
    var v := ns[m];
    DroppedWithin(ns, m, lo, hi, size);
    DroppedSums(ns, m);
    Elsewhere(ns, m, v.lo);
    MembersConcat(ns[..m], ns[m + 1..]);
    RangeIs(v.lo, v.hi);
  }

  lemma WithoutStart(ns: seq<Interval>, m: nat, lo: int, hi: int, size: nat)
    requires Ordered(ns) && Within(ns, lo, hi, size) && m < |ns| && ns[m].lo <= ns[m].hi && ns[m].lo != ns[m].hi
    ensures ns[m].lo < ns[m].hi
    ensures var ns' := Replaced(ns, m, Interval(ns[m].lo + 1, ns[m].hi));
            && Ordered(ns') && Within(ns', lo, hi, size) && Total(ns') == Total(ns) - 1
            && Members(ns') == Members(ns) - {ns[m].lo} && ns[m].lo in Members(ns)
  {
    hide Members, Total, RangeSet, Ordered, Within;
    var v := ns[m];
    ShrunkWithin(ns, m, Interval(v.lo + 1, v.hi), lo, hi, size);
    ReplacedSums(ns, m, Interval(v.lo + 1, v.hi));
    Around(ns, m);
    Elsewhere(ns, m, v.lo);
    WithoutSets(Members(ns[..m]), v.lo, v.hi, Members(ns[m + 1..]), v.lo);
    RangeIs(v.lo, v.lo - 1);
  }

  lemma WithoutEnd(ns: seq<Interval>, m: nat, lo: int, hi: int, size: nat)
    requires Ordered(ns) && Within(ns, lo, hi, size) && m < |ns| && ns[m].lo < ns[m].hi
    ensures var ns' := Replaced(ns, m, Interval(ns[m].lo, ns[m].hi - 1));
            && Ordered(ns') && Within(ns', lo, hi, size) && Total(ns') == Total(ns) - 1
            && Members(ns') == Members(ns) - {ns[m].hi}
  {
    hide Members, Total, RangeSet, Ordered, Within;
    var v := ns[m];
    ShrunkWithin(ns, m, Interval(v.lo, v.hi - 1), lo, hi, size);
    ReplacedSums(ns, m, Interval(v.lo, v.hi - 1));
    Around(ns, m);
    Elsewhere(ns, m, v.hi);
    WithoutSets(Members(ns[..m]), v.lo, v.hi, Members(ns[m + 1..]), v.hi);
    RangeIs(v.hi + 1, v.hi);
  }

  lemma WithoutInside(ns: seq<Interval>, m: nat, x: int, lo: int, hi: int, size: nat)
    requires Ordered(ns) && Within(ns, lo, hi, size) && m < |ns| && ns[m].lo < x < ns[m].hi
    ensures var ns' := Hollow(ns, m, x);
            && Ordered(ns') && Within(ns', lo, hi, size) && Total(ns') == Total(ns) - 1
            && Members(ns') == Members(ns) - {x}
  {
    hide Members, Total, RangeSet, Ordered, Within, Split, Hollow;
    SplitFacts(ns, m, x, lo, hi, size);
    SplitShape(ns, m, x);
    HollowIs(ns, m, x);
    WithoutEnd(Split(ns, m, x), m, lo, hi, size);
  }

  lemma HollowIs(ns: seq<Interval>, m: nat, x: int)
    requires m < |ns|
    ensures m < |Split(ns, m, x)| && Hollow(ns, m, x) == Replaced(Split(ns, m, x), m, Interval(ns[m].lo, x - 1))
  {
    hide Split;
    SplitShape(ns, m, x);
  }

  lemma ShrunkWithin(ns: seq<Interval>, m: nat, v: Interval, lo: int, hi: int, size: nat)
    requires Ordered(ns) && Within(ns, lo, hi, size) && m < |ns| && ns[m].lo <= v.lo <= v.hi <= ns[m].hi
    ensures Ordered(Replaced(ns, m, v)) && Within(Replaced(ns, m, v), lo, hi, size)
  {
  }

  // ---------- ranges ----------

  ghost predicate Inside(ns: seq<Interval>, lo: int, hi: int) {
    forall i :: 0 <= i < |ns| ==> lo <= ns[i].lo <= ns[i].hi <= hi
  }

  lemma NoneInside(lo: int, hi: int)
    ensures Inside([], lo, hi)
  {
  }

  lemma InsideHead(ns: seq<Interval>, lo: int, hi: int)
    requires Inside(ns, lo, hi)
    ensures ns != [] ==> lo <= ns[0].lo <= hi
  {
  }

  lemma InsideStays(was: seq<Interval>, now: seq<Interval>, lo: int, hi: int)
    requires Inside(was, lo, hi) && Ordered(now) && Members(now) <= Members(was)
    ensures Inside(now, lo, hi)
  {
    hide Members;
    MembersIn(was);
    MembersIn(now);
    forall i | 0 <= i < |now| ensures lo <= now[i].lo <= now[i].hi <= hi {
      assert In(now, now[i].lo) && In(now, now[i].hi);
      assert In(was, now[i].lo) && In(was, now[i].hi);
    }
  }

  lemma NoRange(a: int)
    ensures RangeSet(a, a - 1) == {}
  {
  }

  lemma RangeStep(s: set<int>, a: int, x: int)
    requires a <= x
    ensures s - RangeSet(a, x - 1) - {x} == s - RangeSet(a, x)
  {
    hide RangeSet;
    RangeIs(a, x - 1);
    RangeIs(a, x);
  }

  lemma WrapRun(a: int, first: SeqNum, i: int)
    requires first == Wrap(a) && first <= i < MODULUS
    ensures Wrap(a + (i - first)) == i
  {
    WrapDifference(a, a + (i - first));
  }

  /** The last position of the turn of the circle that a is on; its number is the largest. */
  function TurnEnd(a: int): int {
    a + (MAX_SEQ_NO - Wrap(a))
  }

  lemma WrapTurn(a: int, b: int)
    requires a <= b < a + MODULUS
    ensures Wrap(a) <= Wrap(b) ==> b == a + (Wrap(b) - Wrap(a))
    ensures Wrap(a) > Wrap(b) ==> a <= TurnEnd(a) < b && b == TurnEnd(a) + 1 + Wrap(b)
    ensures Wrap(TurnEnd(a)) == MAX_SEQ_NO && Wrap(TurnEnd(a) + 1) == 0
  {
    WrapDifference(a, b);
    WrapRun(a, Wrap(a), MAX_SEQ_NO);
    IncSeqAdvances(TurnEnd(a));
  }

  lemma TwoRuns(s: set<int>, a: int, t: int, b: int)
    requires a <= t <= b
    ensures s - RangeSet(a, t - 1) - RangeSet(t + 1, b) == s - (RangeSet(a, b) - {t})
  {
    hide RangeSet;
    RangeIs(a, t - 1);
    RangeIs(t + 1, b);
    RangeIs(a, b);
  }

  /** When the wrapped range remove does what its name says: exactly when the largest sequence
      number is not in the list. */
  lemma WrappedRemoveExact(s: set<int>, a: int, b: int)
    requires a <= b < a + MODULUS && Wrap(a) > Wrap(b)
    ensures s - (RangeSet(a, b) - {TurnEnd(a)}) == s - RangeSet(a, b) <==> TurnEnd(a) !in s
  {
    hide RangeSet, TurnEnd;
    WrapTurn(a, b);
    RangeIs(a, b);
    if TurnEnd(a) in s {
      assert TurnEnd(a) in s - (RangeSet(a, b) - {TurnEnd(a)});
    }
  }

  // ---------- searching ----------

  ghost predicate Meets(v: Interval, a: int, b: int) {
    v.lo <= b && a <= v.hi
  }

  lemma MeetsIn(ns: seq<Interval>, j: nat, a: int, b: int)
    requires j < |ns| && ns[j].lo <= ns[j].hi && a <= b && Meets(ns[j], a, b)
    ensures exists x :: x in Members(ns) && a <= x <= b
  {
    hide Members;
    MembersIn(ns);
    var x := Max(a, ns[j].lo);
    assert In(ns, x);
  }

  lemma NoneMeets(ns: seq<Interval>, a: int, b: int)
    requires forall i :: 0 <= i < |ns| ==> !Meets(ns[i], a, b)
    ensures !exists x :: x in Members(ns) && a <= x <= b
  {
    hide Members;
    MembersIn(ns);
    forall x | x in Members(ns) ensures !(a <= x <= b) {
      var i :| 0 <= i < |ns| && ns[i].lo <= x <= ns[i].hi;
      assert !Meets(ns[i], a, b);
    }
  }

  // ---------- reports ----------

  lemma NothingEncoded(ns: seq<Interval>, from: nat)
    requires from <= |ns|
    ensures Encode(ns[from..from]) == []
  {
  }

  lemma EncodeNext(ns: seq<Interval>, from: nat, to: nat)
    requires from <= to < |ns|
    ensures Encode(ns[from..to + 1]) == Encode(ns[from..to]) + Words(ns[to])
  {
    assert ns[from..to + 1][..to - from] == ns[from..to];
  }

  lemma NodeBounds(ns: seq<Interval>, j: nat)
    requires Ordered(ns) && j < |ns|
    ensures ns[0].lo <= ns[j].lo <= ns[j].hi <= ns[|ns| - 1].hi
  {
  }

  lemma WithinNone(ns: seq<Interval>, lo: int, hi: int, size: nat)
    requires Within(ns, lo, hi, size)
    ensures Within([], lo, hi, size) && Increasing([])
  {
  }

  lemma BackOne(k: int, prior: seq<int>)
    requires 0 <= k < |prior|
    ensures Backed([k], prior[k := -1])
  {
  }
}
