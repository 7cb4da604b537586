/** The sender's loss list (`CSndLossList` in list.cpp): intervals of sequence numbers threaded
    through fixed arrays.  The ghost field `nodes` lists the intervals by plain positions; the
    methods are proved to be set operations on `Members(nodes)`. */
module SndLossLists {
  import opened Arithmetic
  import opened SeqNo
  import opened Intervals
  import opened LossSlots

  class SndLossList {
    const data1: array<int>
    const data2: array<int>
    const next: array<int>
    const size: nat
    var head: int
    var length: int
    var lastInsertPos: int
    ghost var nodes: seq<Interval>
    ghost var anchor: int

    ghost predicate Separate() {
      && data1 != data2 && data1 != next && data2 != next
      && data1.Length == data2.Length == next.Length == size > 0
    }

    ghost function Ks(): seq<int>
      reads this
      requires size > 0
    {
      Slots(nodes, anchor, size)
    }

    /** The arrays hold the intervals. */
    ghost predicate Laid()
      reads this, data1, data2, next
    {
      && Separate()
      && Lay(nodes, anchor, size, data1[..], data2[..], next[..])
      && (lastInsertPos != -1 ==> !Absent(Ks(), lastInsertPos))
    }

    /** The list starts at the first one. */
    ghost predicate Shape()
      reads this, data1, data2, next
    {
      Laid() && (nodes != [] ==> head == Ks()[0])
    }

    ghost predicate Valid()
      reads this, data1, data2, next
    {
      && Shape() && Ordered(nodes) && length == Total(nodes)
      && (nodes != [] ==> Within(nodes, nodes[0].lo, nodes[|nodes| - 1].hi, size))
    }

    constructor (size: nat)
      requires size > 0
      ensures Valid() && nodes == [] && this.size == size
      ensures fresh(data1) && fresh(data2) && fresh(next)
    {
      this.size := size;
      data1 := new int[size](_ => -1);
      data2 := new int[size](_ => -1);
      next := new int[size];
      head, length, lastInsertPos := -1, 0, -1;
      nodes, anchor := [], 0;
      new;
      LayEmpty(0, data1[..], data2[..], next[..]);
    }

    // ---------- single moves ----------

    /** The empty list gets its first interval, in slot 0. */
    method InsertFirst(seqno1: SeqNum, seqno2: SeqNum, ghost v: Interval)
      requires Shape() && nodes == [] && seqno1 == Wrap(v.lo) && seqno2 == Wrap(v.hi) && v.lo <= v.hi
      requires Within([v], v.lo, v.hi, size)
      modifies this`head, this`lastInsertPos, this`nodes, this`anchor, data1, data2, next
      ensures Shape() && nodes == [v]
    {
      hide Lay, Slot, Wrap;
      ghost var d1, d2, nx := data1[..], data2[..], next[..];
      anchor := -v.lo;
      LayAnchor(old(anchor), anchor, size, d1, d2, nx);
      LayInsert([], 0, v, v.lo, v.hi, anchor, size, d1, d2, nx);
      SlotZero(v.lo, size);
      CompareIn(v.lo, v.hi);
      head := 0;
      WriteNode(data1, data2, head, seqno1, seqno2);
      next[head] := -1;
      lastInsertPos := head;
      nodes := Inserted([], 0, v);
      assert next[..] == nx[0 := -1];
      assert Ks()[0] == 0;
    }

    /** A new interval in front of the head. */
    method Prepend(seqno1: SeqNum, seqno2: SeqNum, loc: int, ghost v: Interval, ghost lo: int, ghost hi: int)
      requires Shape() && nodes != [] && Increasing(nodes) && Within(nodes, lo, hi, size)
      requires lo <= v.lo <= v.hi <= hi && v.lo < nodes[0].lo && loc == Slot(v.lo, anchor, size)
      requires seqno1 == Wrap(v.lo) && seqno2 == Wrap(v.hi)
      modifies this`head, this`lastInsertPos, this`nodes, data1, data2, next
      ensures Shape() && nodes == Inserted(old(nodes), 0, v) && lastInsertPos == loc == Ks()[0]
    {
      hide Lay, Slot, Wrap, Within, Increasing;
      ghost var d1, d2, nx := data1[..], data2[..], next[..];
      LayInsert(nodes, 0, v, lo, hi, anchor, size, d1, d2, nx);
      WithinSpan(nodes, lo, hi, size);
      CompareIn(v.lo, v.hi);
      WriteNode(data1, data2, loc, seqno1, seqno2);
      next[loc] := head;
      head := loc;
      lastInsertPos := loc;
      nodes := Inserted(nodes, 0, v);
      assert next[..] == nx[loc := old(Ks())[0]];
      assert Ks()[0] == loc;
    }

    /** A new interval behind the one in slot i. */
    method InsertAfter(i: int, seqno1: SeqNum, seqno2: SeqNum, loc: int, ghost m: nat, ghost v: Interval, ghost lo: int, ghost hi: int)
      requires Shape() && Increasing(nodes) && Within(nodes, lo, hi, size) && lo <= v.lo <= v.hi <= hi
      requires 0 < m <= |nodes| && nodes[m - 1].lo < v.lo && (m < |nodes| ==> v.lo < nodes[m].lo)
      requires i == Ks()[m - 1] && loc == Slot(v.lo, anchor, size)
      requires seqno1 == Wrap(v.lo) && seqno2 == Wrap(v.hi)
      modifies this`lastInsertPos, this`nodes, data1, data2, next
      ensures Shape() && nodes == Inserted(old(nodes), m, v) && lastInsertPos == loc == Ks()[m]
    {
      hide Lay, Slot, Wrap, Within, Increasing;
      ghost var d1, d2, nx := data1[..], data2[..], next[..];
      LayInsert(nodes, m, v, lo, hi, anchor, size, d1, d2, nx);
      LayAt(nodes, m - 1, anchor, size, d1, d2, nx);
      WithinSpan(nodes, lo, hi, size);
      CompareIn(v.lo, v.hi);
      lastInsertPos := loc;
      WriteNode(data1, data2, loc, seqno1, seqno2);
      next[loc] := next[i];
      next[i] := loc;
      nodes := Inserted(nodes, m, v);
      assert next[..] == nx[loc := nx[i]][i := loc];
      assert Ks()[m] == loc && Ks()[0] == old(Ks())[0];
    }

    /** The interval in slot loc gets a new end. */
    method SetEnd(loc: int, seqno2: SeqNum, ghost m: nat, ghost b: int)
      requires Shape() && m < |nodes| && loc == Ks()[m] && nodes[m].lo < b && seqno2 == Wrap(b)
      modifies this`nodes, data2
      ensures Shape() && nodes == Replaced(old(nodes), m, Interval(old(nodes)[m].lo, b)) && Ks() == old(Ks())
    {
      hide Lay, Slot, Wrap;
      LayEnd(nodes, m, b, anchor, size, data1[..], data2[..], next[..]);
      data2[loc] := seqno2;
      nodes := Replaced(nodes, m, Interval(nodes[m].lo, b));
    }

    // ---------- coalescing ----------

    /** The list while interval m may still reach into those behind it. */
    ghost predicate Open(m: nat, lo: int, hi: int)
      reads this, data1, data2, next
    {
      && Shape() && AlmostOrdered(nodes, m) && m < |nodes| && Within(nodes, lo, hi, size)
      && length == Total(nodes) && lastInsertPos == Ks()[m]
    }

    /** Takes over the end of the next interval, in slot i, and corrects the length. */
    method TakeEnd(loc: int, i: int, ghost v: Interval, ghost w: Interval)
      requires Separate() && 0 <= loc < size && 0 <= i < size
      requires v.lo < v.hi && v.lo < w.lo <= v.hi + 1 && w.lo <= w.hi && w.hi - v.lo < SEQ_NO_TH - 1 && v.hi - v.lo < SEQ_NO_TH - 1
      requires data2[loc] == EndMark(v) && data1[i] == Wrap(w.lo) && data2[i] == EndMark(w)
      modifies this`length, data2
      ensures data2[..] == old(data2[..])[loc := EndMark(Interval(v.lo, Max(v.hi, w.hi)))]
      ensures length == old(length) - Max(0, (if v.hi < w.hi then v.hi else w.hi) - w.lo + 1)
    {
      hide Wrap;
      CompareIn(w.lo, v.hi);
      CompareIn(v.hi, w.lo);
      CompareIn(v.hi, w.hi);
      CompareIn(w.lo, w.hi);
      CompareIn(w.hi, v.hi);
      CompareIn(w.lo, v.hi + 1);
      if data2[i] != -1 {
        if SeqCmp(data2[i], data2[loc]) > 0 {
          if SeqCmp(data2[loc], data1[i]) >= 0 {
            length := length - SeqLen(data1[i], data2[loc]);
          }
          data2[loc] := data2[i];
        } else {
          length := length - SeqLen(data1[i], data2[i]);
        }
      } else {
        if data1[i] == IncSeq(data2[loc]) {
          data2[loc] := data1[i];
        } else {
          length := length - 1;
        }
      }
    }

    /** Interval m swallows the one in slot i behind it. */
    method Absorb(loc: int, i: int, ghost m: nat, ghost lo: int, ghost hi: int)
      requires Open(m, lo, hi) && m + 1 < |nodes| && loc == Ks()[m] && i == Ks()[m + 1]
      requires nodes[m].lo < nodes[m].hi && nodes[m + 1].lo <= nodes[m].hi + 1
      modifies this`length, this`nodes, data1, data2, next
      ensures Open(m, lo, hi) && loc == Ks()[m] && |nodes| == |old(nodes)| - 1
      ensures Members(nodes) == old(Members(nodes))
    {
      hide Lay, Slot, Wrap, EndMark, Within, AlmostOrdered, Members, Total;
      ghost var d1, d2, nx, ns := data1[..], data2[..], next[..], nodes;
      AbsorbFacts(ns, m, lo, hi, size);
      AbsorbInterval(ns, m);
      LayAbsorb(ns, m, anchor, size, d1, d2, nx);
      TakeEnd(loc, i, ns[m], ns[m + 1]);
      data1[i] := -1;
      data2[i] := -1;
      next[loc] := next[i];
      nodes := Absorbed(ns, m);
    }

    /** The coalescing loop at the end of an insertion. */
    method Coalesce(loc: int, ghost m: nat, ghost lo: int, ghost hi: int)
      requires Open(m, lo, hi) && loc == Ks()[m]
      modifies this`length, this`nodes, data1, data2, next
      ensures Shape() && Ordered(nodes) && Within(nodes, lo, hi, size) && length == Total(nodes)
      ensures Members(nodes) == old(Members(nodes))
    {
      hide Lay, Slot, Wrap, EndMark, Within, AlmostOrdered, Ordered, Members, Total;
      LoopFacts(loc, m, lo, hi);
      while -1 != next[loc] && -1 != data2[loc]
        invariant Open(m, lo, hi) && loc == Ks()[m] && 0 <= loc < size
        invariant Members(nodes) == old(Members(nodes))
        invariant next[loc] == if m + 1 < |nodes| then Ks()[m + 1] else -1
        invariant data2[loc] == EndMark(nodes[m])
        decreases |nodes|
      {
        LoopFacts(loc, m, lo, hi);
        var i := next[loc];
        if SeqCmp(data1[i], IncSeq(data2[loc])) <= 0 {
          Absorb(loc, i, m, lo, hi);
          LoopFacts(loc, m, lo, hi);
        } else {
          break;
        }
      }
      LoopFacts(loc, m, lo, hi);
      AlmostIsOrdered(nodes, m);
    }

    /** What the loop reads in the arrays. */
    lemma LoopFacts(loc: int, m: nat, lo: int, hi: int)
      requires Open(m, lo, hi) && loc == Ks()[m]
      ensures 0 <= loc < size && data2[loc] == EndMark(nodes[m]) && (data2[loc] == -1 <==> nodes[m].lo == nodes[m].hi)
      ensures nodes[m].lo <= nodes[m].hi
      ensures next[loc] == if m + 1 < |nodes| then Ks()[m + 1] else -1
      ensures m + 1 < |nodes| ==>
                && 0 <= next[loc] < size && nodes[m].lo < nodes[m + 1].lo && data1[next[loc]] == Wrap(nodes[m + 1].lo)
                && (nodes[m].lo < nodes[m].hi ==> data2[loc] == Wrap(nodes[m].hi))
                && (nodes[m].lo < nodes[m].hi ==>
                      (SeqCmp(data1[next[loc]], IncSeq(data2[loc])) <= 0 <==> nodes[m + 1].lo <= nodes[m].hi + 1))
    {
      hide Lay, Slot, Wrap, Within, AlmostOrdered, Members, Total;
      AlmostAt(nodes, m, lo, hi, size);
      LayAt(nodes, m, anchor, size, data1[..], data2[..], next[..]);
      if m + 1 < |nodes| {
        LayAt(nodes, m + 1, anchor, size, data1[..], data2[..], next[..]);
        CompareIn(nodes[m + 1].lo, nodes[m].hi + 1);
      }
      CompareIn(nodes[m].hi, nodes[m].hi + 1);
    }

    // ---------- insertion ----------

    /** The list between operations, with all positions in [lo, hi]. */
    ghost predicate Closed(lo: int, hi: int)
      reads this, data1, data2, next
    {
      Shape() && Ordered(nodes) && Within(nodes, lo, hi, size) && length == Total(nodes)
    }

    /** What the arrays say about interval j, compared with a position x of the window. */
    lemma NodeFacts(j: nat, x: int, lo: int, hi: int)
      requires Closed(lo, hi) && j < |nodes| && lo <= x && (x <= hi || x < lo + SEQ_NO_TH)
      ensures var k := Ks()[j];
              && 0 <= k < size && data1[k] == Wrap(nodes[j].lo) && data2[k] == EndMark(nodes[j])
              && next[k] == (if j + 1 < |nodes| then Ks()[j + 1] else -1)
              && (SeqCmp(data1[k], Wrap(x)) < 0 <==> nodes[j].lo < x)
              && (data1[k] == Wrap(x) <==> nodes[j].lo == x)
              && nodes[j].lo <= nodes[j].hi && (data2[k] == -1 <==> nodes[j].lo == nodes[j].hi)
              && (data2[k] != -1 ==>
                    && data2[k] == Wrap(nodes[j].hi)
                    && (SeqCmp(data2[k], Wrap(x)) < 0 <==> nodes[j].hi < x)
                    && (SeqCmp(Wrap(x), data2[k]) > 0 <==> nodes[j].hi < x))
    {
      hide Lay, Slot, Wrap, Within, Ordered, Members, Total;
      WithinSpan(nodes, lo, hi, size);
      LayAt(nodes, j, anchor, size, data1[..], data2[..], next[..]);
      CompareIn(nodes[j].lo, x);
      CompareIn(nodes[j].hi, x);
      CompareIn(x, nodes[j].hi);
      CompareIn(nodes[j].hi, nodes[j].hi);
    }

    /** Where a position belongs, counted from the head. */
    lemma HeadFacts(x: int, lo: int, hi: int)
      requires Closed(lo, hi) && nodes != [] && nodes[0].lo - SEQ_NO_TH < x < nodes[0].lo + SEQ_NO_TH
      ensures 0 <= head < size && head == Ks()[0] && 0 <= data1[head] < MODULUS
      ensures SeqOff(data1[head], Wrap(x)) == x - nodes[0].lo
      ensures (head + (x - nodes[0].lo) + size) % size == Slot(x, anchor, size)
    {
      hide Lay, Slot, Wrap, Within, Ordered, Members, Total;
      WithinSpan(nodes, lo, hi, size);
      NodeFacts(0, nodes[0].lo, lo, hi);
      CompareIn(nodes[0].lo, x);
      SlotFromHead(nodes[0].lo, x, anchor, size);
    }

    lemma SizeFact(lo: int, hi: int)
      requires Closed(lo, hi)
      ensures size > 0 && Separate()
    {
    }

    /** The place of the last insertion when that lies before seqno1, else the head. */
    method StartPrior(seqno1: SeqNum, ghost a: int, ghost lo: int, ghost hi: int) returns (i: int, ghost m: nat)
      requires Closed(lo, hi) && nodes != [] && lo <= a <= hi && seqno1 == Wrap(a) && nodes[0].lo < a
      ensures 0 < m <= |nodes| && i == Ks()[m - 1] && nodes[m - 1].lo < a
    {
      hide Lay, Slot, Wrap, Within, Ordered, Members, Total;
      i, m := head, 1;
      if -1 != lastInsertPos {
        ghost var j :| 0 <= j < |Ks()| && Ks()[j] == lastInsertPos;
        NodeFacts(j, a, lo, hi);
        if SeqCmp(data1[lastInsertPos], seqno1) < 0 {
          i, m := lastInsertPos, j + 1;
        }
      }
    }

    /** Walks on to the last interval that starts before seqno1. */
    method FindPrior(from: int, seqno1: SeqNum, ghost from': nat, ghost a: int, ghost lo: int, ghost hi: int)
      returns (i: int, ghost m: nat)
      requires Closed(lo, hi) && nodes != [] && lo <= a && (a <= hi || a < lo + SEQ_NO_TH) && seqno1 == Wrap(a)
      requires 0 < from' <= |nodes| && from == Ks()[from' - 1] && nodes[from' - 1].lo < a
      ensures 0 < m <= |nodes| && i == Ks()[m - 1]
      ensures nodes[m - 1].lo < a && (m < |nodes| ==> a <= nodes[m].lo)
    {
      hide Closed, Lay, Slot, Wrap, Within, Ordered, Members, Total;
      i, m := from, from';
      SizeFact(lo, hi);
      NodeFacts(m - 1, a, lo, hi);
      if m < |nodes| {
        NodeFacts(m, a, lo, hi);
      }
      while -1 != next[i] && SeqCmp(data1[next[i]], seqno1) < 0
        invariant 0 < m <= |nodes| && i == Ks()[m - 1] && nodes[m - 1].lo < a
        invariant 0 <= i < size && next[i] == if m < |nodes| then Ks()[m] else -1
        invariant m < |nodes| ==> 0 <= Ks()[m] < size && data1[Ks()[m]] == Wrap(nodes[m].lo)
        invariant m < |nodes| ==> (SeqCmp(data1[Ks()[m]], seqno1) < 0 <==> nodes[m].lo < a)
        decreases |nodes| - m
      {
        i := next[i];
        NodeFacts(m, a, lo, hi);
        m := m + 1;
        if m < |nodes| {
          NodeFacts(m, a, lo, hi);
        }
      }
    }

    /** Interval m, which holds a, grows up to b and the length by `added`. */
    method Stretch(loc: int, seqno2: SeqNum, added: int, ghost m: nat, ghost a: int, ghost b: int, ghost lo: int, ghost hi: int)
      requires Closed(lo, hi) && m < |nodes| && loc == Ks()[m] && lastInsertPos == loc
      requires nodes[m].lo <= a <= nodes[m].hi < b <= hi && seqno2 == Wrap(b) && added == b - nodes[m].hi
      modifies this`length, this`nodes, data2
      ensures Open(m, lo, hi) && loc == Ks()[m]
      ensures Members(nodes) == old(Members(nodes)) + RangeSet(a, b)
    {
      hide Lay, Slot, Wrap, Within, Ordered, AlmostOrdered, Members, Total, RangeSet;
      StretchInterval(nodes, m, a, b);
      StretchedWithin(nodes, m, b, lo, hi, size);
      length := length + added;
      SetEnd(loc, seqno2, m, b);
    }

    /** [a, b] meets interval m, which starts at a: the longer end wins. */
    method Lengthen(loc: int, seqno1: SeqNum, seqno2: SeqNum, ghost m: nat, ghost a: int, ghost b: int, ghost lo: int, ghost hi: int)
      returns (more: bool)
      requires Closed(lo, hi) && m < |nodes| && loc == Ks()[m] && nodes[m].lo == a && lo <= a <= b <= hi
      requires seqno1 == Wrap(a) && seqno2 == Wrap(b)
      modifies this`length, this`lastInsertPos, this`nodes, data2
      ensures Members(nodes) == old(Members(nodes)) + RangeSet(a, b)
      ensures if more then Open(m, lo, hi) && loc == Ks()[m] else Closed(lo, hi) && length == old(length)
    {
      hide Lay, Slot, Wrap, Ordered, AlmostOrdered, Members, Total, RangeSet, Within;
      NodeFacts(m, b, lo, hi);
      NodesWithin(m, b, lo, hi);
      lastInsertPos := loc;
      more := true;
      if -1 == data2[loc] {
        if seqno2 != seqno1 {
          Stretch(loc, seqno2, SeqLen(seqno1, seqno2) - 1, m, a, b, lo, hi);
        } else {
          Contained(nodes, m, a, b);
          OpenUp(m, lo, hi);
        }
      } else if SeqCmp(seqno2, data2[loc]) > 0 {
        Stretch(loc, seqno2, SeqLen(data2[loc], seqno2) - 1, m, a, b, lo, hi);
      } else {
        Contained(nodes, m, a, b);
        more := false;
      }
    }

    lemma NodesWithin(m: nat, b: int, lo: int, hi: int)
      requires Closed(lo, hi) && m < |nodes| && nodes[m].lo <= b <= hi
      ensures lo <= nodes[m].lo <= nodes[m].hi <= hi && b - lo < SEQ_NO_TH - 1
      ensures SeqLen(Wrap(nodes[m].lo), Wrap(b)) == b - nodes[m].lo + 1
      ensures nodes[m].hi <= b ==> SeqLen(Wrap(nodes[m].hi), Wrap(b)) == b - nodes[m].hi + 1
      ensures Wrap(nodes[m].lo) == Wrap(b) <==> nodes[m].lo == b
    {
      hide Lay, Slot, Wrap, Ordered, Members, Total, SeqLen;
      CompareIn(nodes[m].lo, b);
      if nodes[m].hi <= b {
        CompareIn(nodes[m].hi, b);
      }
    }

    lemma OpenUp(m: nat, lo: int, hi: int)
      requires Closed(lo, hi) && m < |nodes| && lastInsertPos == Ks()[m]
      ensures Open(m, lo, hi)
    {
      hide Lay, Slot, Wrap, Within, Members, Total;
    }

    /** [a, b] starts inside or right behind interval m, found in slot i. */
    method CoverFrom(i: int, seqno2: SeqNum, ghost m: nat, ghost a: int, ghost b: int, ghost lo: int, ghost hi: int)
      returns (more: bool)
      requires Closed(lo, hi) && m < |nodes| && i == Ks()[m] && nodes[m].lo < a <= nodes[m].hi && a <= b <= hi
      requires seqno2 == Wrap(b)
      modifies this`length, this`lastInsertPos, this`nodes, data2
      ensures Members(nodes) == old(Members(nodes)) + RangeSet(a, b)
      ensures if more then Open(m, lo, hi) && i == Ks()[m] else Closed(lo, hi) && length == old(length)
    {
      hide Lay, Slot, Wrap, Ordered, AlmostOrdered, Members, Total, RangeSet, Within;
      NodesWithin(m, b, lo, hi);
      NodeFacts(m, b, lo, hi);
      lastInsertPos := i;
      if SeqCmp(data2[i], seqno2) < 0 {
        Stretch(i, seqno2, SeqLen(data2[i], seqno2) - 1, m, a, b, lo, hi);
        more := true;
      } else {
        Contained(nodes, m, a, b);
        more := false;
      }
    }

    /** [a, b] starts before the head. */
    method PlaceFirst(loc: int, seqno1: SeqNum, seqno2: SeqNum, ghost a: int, ghost b: int, ghost lo: int, ghost hi: int)
      requires Closed(lo, hi) && nodes != [] && lo <= a <= b <= hi && a < nodes[0].lo && loc == Slot(a, anchor, size)
      requires seqno1 == Wrap(a) && seqno2 == Wrap(b)
      modifies this, data1, data2, next
      ensures Open(0, lo, hi) && loc == Ks()[0] && Members(nodes) == old(Members(nodes)) + RangeSet(a, b)
    {
      hide Lay, Slot, Wrap, Ordered, AlmostOrdered, Members, Total, RangeSet, Within, Increasing;
      Increases(nodes);
      InsertedWithin(nodes, 0, Interval(a, b), lo, hi, size);
      AddInterval(nodes, 0, a, b);
      WithinSpan(nodes, lo, hi, size);
      CompareIn(a, b);
      Prepend(seqno1, seqno2, loc, Interval(a, b), lo, hi);
      length := length + SeqLen(seqno1, seqno2);
    }

    /** [a, b] starts in a gap behind interval m - 1, in slot i. */
    method PlaceAfter(i: int, loc: int, seqno1: SeqNum, seqno2: SeqNum,
                      ghost m: nat, ghost a: int, ghost b: int, ghost lo: int, ghost hi: int)
      requires Closed(lo, hi) && 0 < m <= |nodes| && i == Ks()[m - 1] && nodes[m - 1].hi < a && (m < |nodes| ==> a < nodes[m].lo)
      requires lo <= a <= b <= hi && loc == Slot(a, anchor, size) && seqno1 == Wrap(a) && seqno2 == Wrap(b)
      modifies this, data1, data2, next
      ensures Open(m, lo, hi) && loc == Ks()[m] && Members(nodes) == old(Members(nodes)) + RangeSet(a, b)
    {
      hide Lay, Slot, Wrap, Ordered, AlmostOrdered, Members, Total, RangeSet, Within, Increasing;
      Increases(nodes);
      WithinSpan(nodes, lo, hi, size);
      InsertedWithin(nodes, m, Interval(a, b), lo, hi, size);
      AddInterval(nodes, m, a, b);
      CompareIn(a, b);
      InsertAfter(i, seqno1, seqno2, loc, m, Interval(a, b), lo, hi);
      length := length + SeqLen(seqno1, seqno2);
    }

    /** [a, b] starts behind the head: at the start of an interval, in a gap or inside one. */
    method PlaceBehind(loc: int, seqno1: SeqNum, seqno2: SeqNum, ghost a: int, ghost b: int, ghost lo: int, ghost hi: int)
      returns (more: bool, at: int, ghost m: nat)
      requires Closed(lo, hi) && nodes != [] && lo <= a <= b <= hi && nodes[0].lo < a && loc == Slot(a, anchor, size)
      requires seqno1 == Wrap(a) && seqno2 == Wrap(b)
      modifies this, data1, data2, next
      ensures Members(nodes) == old(Members(nodes)) + RangeSet(a, b)
      ensures if more then Open(m, lo, hi) && at == Ks()[m] else Closed(lo, hi) && length == old(length)
    {
      hide Lay, Slot, Wrap, Ordered, AlmostOrdered, Members, Total, RangeSet, Within, Increasing;
      LookUp(nodes, a, lo, hi, anchor, size, data1[..], data2[..], next[..]);
      LayDims(nodes, anchor, size, data1[..], data2[..], next[..]);
      at := loc;
      if seqno1 == data1[loc] {
        m :| 0 <= m < |nodes| && nodes[m].lo == a;
        more := Lengthen(loc, seqno1, seqno2, m, a, b, lo, hi);
      } else {
        var i;
        i, m := StartPrior(seqno1, a, lo, hi);
        i, m := FindPrior(i, seqno1, m, a, lo, hi);
        NodeFacts(m - 1, a, lo, hi);
        if -1 == data2[i] || SeqCmp(data2[i], seqno1) < 0 {
          PlaceAfter(i, loc, seqno1, seqno2, m, a, b, lo, hi);
          more := true;
        } else {
          m := m - 1;
          more := CoverFrom(i, seqno2, m, a, b, lo, hi);
          at := i;
        }
      }
    }

    /** `insert`: set union, returning the number of new elements.  All positions, old and new,
        must fit into a window shorter than the arrays and than the comparison threshold. */
    method Insert(seqno1: SeqNum, seqno2: SeqNum, ghost a: int, ghost b: int) returns (n: int)
      requires Valid() && a <= b && seqno1 == Wrap(a) && seqno2 == Wrap(b) && Fits(nodes, a, b, size)
      modifies this, data1, data2, next
      ensures Valid() && Members(nodes) == old(Members(nodes)) + RangeSet(a, b)
      ensures n == |Members(nodes)| - |old(Members(nodes))|
    {
      hide Lay, Slot, Wrap, Ordered, AlmostOrdered, Members, Total, RangeSet, Within, Fits;
      ghost var lo, hi := First(nodes, a), Last(nodes, b);
      FitsWithin(nodes, a, b, size);
      TotalIsCard(nodes);
      OrderedTotal(nodes);
      if 0 == length {
        InsertOnly(seqno1, seqno2, a, b);
        TotalIsCard(nodes);
        return length;
      }
      var origlen := length;
      WithinSpan(nodes, lo, hi, size);
      HeadFacts(a, lo, hi);
      var offset := SeqOff(data1[head], seqno1);
      var loc := (head + offset + size) % size;
      ghost var m := 0;
      if offset < 0 {
        PlaceFirst(loc, seqno1, seqno2, a, b, lo, hi);
      } else {
        var more;
        if offset > 0 {
          more, loc, m := PlaceBehind(loc, seqno1, seqno2, a, b, lo, hi);
        } else {
          more := PlaceAtHead(seqno1, seqno2, a, b, lo, hi);
        }
        if !more {
          ClosedIsValid(lo, hi);
          TotalIsCard(nodes);
          return 0;
        }
      }
      Coalesce(loc, m, lo, hi);
      ClosedIsValid(lo, hi);
      TotalIsCard(nodes);
      return length - origlen;
    }

    /** [a, b] starts where the head starts. */
    method PlaceAtHead(seqno1: SeqNum, seqno2: SeqNum, ghost a: int, ghost b: int, ghost lo: int, ghost hi: int)
      returns (more: bool)
      requires Closed(lo, hi) && nodes != [] && lo <= a <= b <= hi && nodes[0].lo == a
      requires seqno1 == Wrap(a) && seqno2 == Wrap(b)
      modifies this, data1, data2, next
      ensures Members(nodes) == old(Members(nodes)) + RangeSet(a, b)
      ensures if more then Open(0, lo, hi) && head == Ks()[0] == old(head) else Closed(lo, hi) && length == old(length)
      ensures head == old(head)
    {
      hide Lay, Slot, Wrap, Ordered, AlmostOrdered, Members, Total, RangeSet, Within;
      NodeFacts(0, b, lo, hi);
      NodesWithin(0, b, lo, hi);
      lastInsertPos := head;
      if seqno2 != seqno1 {
        more := Lengthen(head, seqno1, seqno2, 0, a, b, lo, hi);
      } else {
        Contained(nodes, 0, a, b);
        more := false;
      }
    }

    method InsertOnly(seqno1: SeqNum, seqno2: SeqNum, ghost a: int, ghost b: int)
      requires Valid() && nodes == [] && length == 0 && a <= b && seqno1 == Wrap(a) && seqno2 == Wrap(b) && Fits(nodes, a, b, size)
      modifies this, data1, data2, next
      ensures Valid() && Members(nodes) == RangeSet(a, b)
    {
      hide Lay, Slot, Wrap;
      One(Interval(a, b));
      CompareIn(a, b);
      InsertFirst(seqno1, seqno2, Interval(a, b));
      length := length + SeqLen(seqno1, seqno2);
    }

    lemma ClosedIsValid(lo: int, hi: int)
      requires Closed(lo, hi)
      ensures Valid()
    {
      hide Lay, Slot, Wrap, Members, Total;
    }

    // ---------- removal ----------

    /** The head holds a single number: its slot is freed. */
    method FreeHead(ghost lo: int, ghost hi: int)
      requires Closed(lo, hi) && nodes != [] && nodes[0].lo == nodes[0].hi && lastInsertPos != head && data2[head] == -1
      modifies this`head, this`nodes, data1
      ensures Shape() && nodes == Popped(old(nodes))
    {
      hide Lay, Slot, Wrap, Members, Total, Within, Ordered, Popped;
      LayPoppedOne(nodes, anchor, size, data1[..], data2[..], next[..]);
      PoppedKs(nodes, lastInsertPos, anchor, size);
      assert data2[..][head := -1] == data2[..];
      LayAt(nodes, 0, anchor, size, data1[..], data2[..], next[..]);
      NextKs(nodes, anchor, size);
      data1[head] := -1;
      head := next[head];
      nodes := Popped(nodes);
    }

    /** The head holds more: the rest moves into the next slot. */
    method MoveHead(loc: int, ghost lo: int, ghost hi: int)
      requires Closed(lo, hi) && nodes != [] && nodes[0].lo < nodes[0].hi && lastInsertPos != head
      requires loc == Slot(nodes[0].lo + 1, anchor, size)
      modifies this`head, this`nodes, data1, data2, next
      ensures Shape() && nodes == Popped(old(nodes))
    {
      hide Lay, Slot, Wrap, Members, Total, Within, Ordered, Popped;
      ghost var v, d1, d2, nx := nodes[0], data1[..], data2[..], next[..];
      WithinSpan(nodes, lo, hi, size);
      NodeFacts(0, v.lo, lo, hi);
      LayPoppedMore(nodes, lo, hi, anchor, size, d1, d2, nx);
      PoppedKs(nodes, lastInsertPos, anchor, size);
      NextKs(nodes, anchor, size);
      WriteRest(data1, data2, head, loc, data1[head], v.lo, v.hi);
      data1[head] := -1;
      data2[head] := -1;
      next[loc] := next[head];
      assert data1[..] == d1[head := -1][loc := Wrap(v.lo + 1)];
      assert data2[..] == d2[head := -1][loc := EndMark(Interval(v.lo + 1, v.hi))];
      head := loc;
      nodes := Popped(nodes);
    }

    /** Deletes the first number of the list. */
    method ShiftHead(ghost lo: int, ghost hi: int)
      requires Closed(lo, hi) && nodes != []
      modifies this, data1, data2, next
      ensures Closed(lo, hi) && nodes == Popped(old(nodes))
    {
      hide Lay, Slot, Wrap, Members, Total, Within, Ordered, Popped;
      ghost var v := nodes[0];
      WithinSpan(nodes, lo, hi, size);
      NodeFacts(0, v.lo, lo, hi);
      PoppedFacts(nodes);
      PoppedInOrder(nodes, lo, hi, size);
      if lastInsertPos == head {
        lastInsertPos := -1;
      }
      if -1 == data2[head] {
        FreeHead(lo, hi);
      } else {
        NextSlot(v.lo, anchor, size);
        MoveHead((head + 1) % size, lo, hi);
      }
      length := length - 1;
    }

    /** `getLostSeq`: takes the circular minimum out of the set, or returns -1. */
    method GetLostSeq() returns (seqno: int)
      requires Valid()
      modifies this, data1, data2, next
      ensures Valid()
      ensures old(Members(nodes)) == {} ==> seqno == -1 && Members(nodes) == {}
      ensures old(Members(nodes)) != {} ==>
                exists x :: x in old(Members(nodes)) && (forall y :: y in old(Members(nodes)) ==> x <= y)
                  && seqno == Wrap(x) && Members(nodes) == old(Members(nodes)) - {x}
    {
      hide Lay, Slot, Wrap, Members, Total, Within, Ordered, Popped;
      OrderedTotal(nodes);
      TotalIsCard(nodes);
      if 0 == length {
        return -1;
      }
      ghost var lo, hi, x := nodes[0].lo, nodes[|nodes| - 1].hi, nodes[0].lo;
      ValidIsClosed();
      NodeFacts(0, x, lo, hi);
      PoppedFacts(nodes);
      seqno := data1[head];
      ShiftHead(lo, hi);
      ClosedIsValid(lo, hi);
    }

    /** Interval m, in slot i, is cut behind x: the rest goes into slot loc.  `mark` is the end mark
        of what stays. */
    method SplitAt(i: int, loc: int, seqno: SeqNum, mark: int, ghost m: nat, ghost x: int, ghost lo: int, ghost hi: int)
      requires Closed(lo, hi) && m < |nodes| && nodes[m].lo <= x < nodes[m].hi && i == Ks()[m]
      requires loc == Slot(x + 1, anchor, size) && seqno == Wrap(x) && mark == EndMark(Interval(nodes[m].lo, x))
      modifies this`nodes, data1, data2, next
      ensures Closed(lo, hi) && nodes == Split(old(nodes), m, x) && loc == Ks()[m + 1] && Ks()[0] == old(Ks())[0]
    {
      hide Lay, Slot, Wrap, EndMark, Members, Total, Within, Ordered, Split;
      ghost var ns, d1, d2, nx := nodes, data1[..], data2[..], next[..];
      SplitFacts(ns, m, x, lo, hi, size);
      WithinSpan(ns, lo, hi, size);
      NodeFacts(m, nodes[m].lo, lo, hi);
      LaySplit(ns, m, x, lo, hi, anchor, size, d1, d2, nx);
      SplitKs(ns, m, x, lastInsertPos, anchor, size);
      WriteRest(data1, data2, i, loc, seqno, x, nodes[m].hi);
      data2[i] := mark;
      next[loc] := next[i];
      next[i] := loc;
      nodes := Split(ns, m, x);
      assert data2[..] == d2[i := mark][loc := EndMark(Interval(x + 1, ns[m].hi))];
      assert next[..] == nx[loc := nx[i]][i := loc];
    }

    /** The list while the first intervals are being freed; the head has already moved on. */
    ghost predicate Freeing(lo: int, hi: int)
      reads this, data1, data2, next
    {
      Laid() && Ordered(nodes) && Within(nodes, lo, hi, size) && length == Total(nodes)
    }

    /** Interval r will be the next head, and it is the first one above x. */
    ghost predicate Ends(r: nat, x: int, lo: int, hi: int)
      reads this, data1, data2, next
    {
      && Freeing(lo, hi) && 0 < r <= |nodes|
      && head == (if r < |nodes| then Ks()[r] else -1)
      && nodes[r - 1].hi <= x && (r < |nodes| ==> x < nodes[r].lo)
    }

    /** seqno starts an interval, in slot temp. */
    method CutAtStart(temp: int, seqno: SeqNum, ghost m: nat, ghost x: int, ghost lo: int, ghost hi: int) returns (ghost r: nat)
      requires Closed(lo, hi) && m < |nodes| && temp == Ks()[m] && nodes[m].lo == x && seqno == Wrap(x)
      modifies this`head, this`nodes, data1, data2, next
      ensures Ends(r, x, lo, hi) && Members(nodes) == old(Members(nodes)) && Ks()[0] == old(Ks())[0]
    {
      hide Lay, Slot, Wrap, Members, Total, Within, Ordered, Split;
      WithinSpan(nodes, lo, hi, size);
      NodeFacts(m, x, lo, hi);
      NextSlot(x, anchor, size);
      var loc := (temp + 1) % size;
      r := m + 1;
      if -1 == data2[temp] {
        NextAbove(nodes, r);
        head := next[temp];
      } else {
        SplitFacts(nodes, m, x, lo, hi, size);
        SplitAround(nodes, m, x);
        SplitAt(temp, loc, seqno, -1, m, x, lo, hi);
        NextAbove(nodes, r);
        head := loc;
      }
    }

    /** seqno starts no interval; the last one that starts before it is in slot i. */
    method CutBehind(i: int, loc: int, seqno: SeqNum, ghost m: nat, ghost x: int, ghost lo: int, ghost hi: int) returns (ghost r: nat)
      requires Closed(lo, hi) && 0 < m <= |nodes| && i == Ks()[m - 1] && nodes[m - 1].lo < x && (m < |nodes| ==> x < nodes[m].lo)
      requires seqno == Wrap(x) && loc == Slot(x, anchor, size) && x < lo + SEQ_NO_TH
      modifies this`head, this`nodes, data1, data2, next
      ensures Ends(r, x, lo, hi) && Members(nodes) == old(Members(nodes)) && Ks()[0] == old(Ks())[0]
    {
      hide Lay, Slot, Wrap, Members, Total, Within, Ordered, Split;
      WithinSpan(nodes, lo, hi, size);
      NodeFacts(m - 1, x, lo, hi);
      NextSlot(x, anchor, size);
      CompareIn(nodes[m - 1].hi, x);
      var at := (loc + 1) % size;
      r := m;
      if -1 == data2[i] {
        head := next[i];
      } else if SeqCmp(data2[i], seqno) > 0 {
        SplitFacts(nodes, m - 1, x, lo, hi, size);
        SplitAround(nodes, m - 1, x);
        SplitAt(i, at, seqno, seqno, m - 1, x, lo, hi);
        head := at;
      } else {
        head := next[i];
      }
    }

    /** Frees one slot and takes its interval off the length. */
    method FreeSlot(h: int, ghost v: Interval)
      requires Separate() && 0 <= h < size && v.lo <= v.hi < v.lo + SEQ_NO_TH
      requires data1[h] == Wrap(v.lo) && data2[h] == EndMark(v)
      modifies this`length, this`lastInsertPos, data1, data2
      ensures data1[..] == old(data1[..])[h := -1] && data2[..] == old(data2[..])[h := -1]
      ensures length == old(length) - (v.hi - v.lo + 1)
      ensures lastInsertPos == if old(lastInsertPos) == h then -1 else old(lastInsertPos)
    {
      hide Wrap;
      CompareIn(v.lo, v.hi);
      if data2[h] != -1 {
        length := length - SeqLen(data1[h], data2[h]);
        data2[h] := -1;
      } else {
        length := length - 1;
      }
      data1[h] := -1;
      if lastInsertPos == h {
        lastInsertPos := -1;
      }
    }

    method FreeFirst(h: int, ghost lo: int, ghost hi: int)
      requires Freeing(lo, hi) && nodes != [] && h == Ks()[0]
      modifies this`length, this`lastInsertPos, this`nodes, data1, data2
      ensures Freeing(lo, hi) && nodes == Dropped(old(nodes), 0) && Ks() == Dropped(old(Ks()), 0)
      ensures 0 <= h < size && next[h] == if |old(nodes)| > 1 then old(Ks())[1] else -1
    {
      hide Lay, Slot, Wrap, EndMark, Members, Total, Within, Ordered;
      LayAt(nodes, 0, anchor, size, data1[..], data2[..], next[..]);
      FirstSpan(nodes, lo, hi, size);
      LayDrop(nodes, 0, anchor, size, data1[..], data2[..], next[..]);
      DroppedSums(nodes, 0);
      DroppedWithin(nodes, 0, lo, hi, size);
      DroppedKs(nodes, lastInsertPos, anchor, size);
      FreeSlot(h, nodes[0]);
      nodes := Dropped(nodes, 0);
    }

    /** The loop at the end of `remove`: frees the intervals in front of the new head. */
    method FreeUpToHead(h0: int, ghost r: nat, ghost x: int, ghost lo: int, ghost hi: int)
      requires Ends(r, x, lo, hi) && h0 == Ks()[0]
      modifies this`length, this`lastInsertPos, this`nodes, data1, data2
      ensures Closed(lo, hi) && nodes == old(nodes)[r..]
    {
      hide Lay, Slot, Slots, Wrap, EndMark, Members, Total, Within, Ordered, Freeing;
      HeadBehind(r, x, lo, hi);
      ghost var ks, k := Ks(), 0;
      var h := h0;
      while h != head
        invariant k <= r && Freeing(lo, hi) && Separate()
        invariant nodes == old(nodes)[k..] && Ks() == ks[k..] && |ks| == |old(nodes)|
        invariant h == if k < |ks| then ks[k] else -1
        decreases r - k
      {
        FreeFirst(h, lo, hi);
        h := next[h];
        k := k + 1;
      }
      FreeingIsClosed(lo, hi);
    }

    lemma HeadBehind(r: nat, x: int, lo: int, hi: int)
      requires Ends(r, x, lo, hi)
      ensures size > 0 && r <= |nodes| == |Ks()| && head == (if r < |nodes| then Ks()[r] else -1)
      ensures forall j :: 0 <= j < r ==> Ks()[j] != head
      ensures Freeing(lo, hi) && Separate()
    {
      hide Slot, Linked, Stored;
    }

    lemma FreeingIsClosed(lo: int, hi: int)
      requires Freeing(lo, hi) && (nodes != [] ==> head == Ks()[0])
      ensures Closed(lo, hi)
    {
    }

    /** `remove`: deletes every number not above seqno, which may be any number within half a
        circle of the head. */
    method Remove(seqno: SeqNum, ghost x: int)
      requires Valid() && seqno == Wrap(x)
      requires nodes != [] ==> nodes[0].lo - SEQ_NO_TH < x < nodes[0].lo + SEQ_NO_TH
      modifies this, data1, data2, next
      ensures Valid() && Members(nodes) == set y | y in old(Members(nodes)) && x < y
    {
      hide Lay, Slot, Wrap, Members, Total, Within, Ordered, Popped;
      OrderedTotal(nodes);
      TotalIsCard(nodes);
      if 0 == length {
        return;
      }
      ghost var lo, hi := nodes[0].lo, nodes[|nodes| - 1].hi;
      ValidIsClosed();
      HeadFacts(x, lo, hi);
      var offset := SeqOff(data1[head], seqno);
      var loc := (head + offset + size) % size;
      if 0 == offset {
        PoppedAbove(nodes);
        ShiftHead(lo, hi);
      } else if offset > 0 {
        RemoveBehind(seqno, loc, x, lo, hi);
      } else {
        NoneBelow(nodes, x);
      }
      ClosedIsValid(lo, hi);
    }

    /** seqno lies behind the start of the head. */
    method RemoveBehind(seqno: SeqNum, loc: int, ghost x: int, ghost lo: int, ghost hi: int)
      requires Closed(lo, hi) && nodes != [] && nodes[0].lo < x < lo + SEQ_NO_TH && seqno == Wrap(x)
      requires loc == Slot(x, anchor, size)
      modifies this, data1, data2, next
      ensures Closed(lo, hi) && Members(nodes) == set y | y in old(Members(nodes)) && x < y
    {
      hide Lay, Slot, Wrap, Members, Total, Within, Ordered, Ends;
      WithinSpan(nodes, lo, hi, size);
      LookUp(nodes, x, lo, hi, anchor, size, data1[..], data2[..], next[..]);
      var h := head;
      ghost var r;
      if seqno == data1[loc] {
        ghost var m :| 0 <= m < |nodes| && nodes[m].lo == x;
        r := CutAtStart(loc, seqno, m, x, lo, hi);
      } else {
        var i; ghost var m;
        i, m := FindPrior(head, seqno, 1, x, lo, hi);
        r := CutBehind(i, loc, seqno, m, x, lo, hi);
      }
      AboveEnds(r, x, lo, hi);
      FreeUpToHead(h, r, x, lo, hi);
    }

    lemma AboveEnds(r: nat, x: int, lo: int, hi: int)
      requires Ends(r, x, lo, hi)
      ensures r <= |nodes| && Members(nodes[r..]) == set y | y in Members(nodes) && x < y
    {
      hide Lay, Members, Total;
      TailAbove(nodes, r, x);
    }

    lemma ValidIsClosed()
      requires Valid() && nodes != []
      ensures Closed(nodes[0].lo, nodes[|nodes| - 1].hi)
      ensures nodes[0].lo <= nodes[0].hi <= nodes[|nodes| - 1].hi
    {
      hide Lay, Slot, Wrap, Members, Total;
    }
  }

  /** The list without its least number. */
  function Popped(ns: seq<Interval>): seq<Interval>
    requires ns != []
  {
    if ns[0].lo == ns[0].hi then Dropped(ns, 0) else Replaced(ns, 0, Interval(ns[0].lo + 1, ns[0].hi))
  }

  lemma PoppedFacts(ns: seq<Interval>)
    requires ns != [] && Ordered(ns)
    ensures Total(Popped(ns)) == Total(ns) - 1
    ensures Members(Popped(ns)) == Members(ns) - {ns[0].lo}
    ensures ns[0].lo in Members(ns) && forall x :: x in Members(ns) ==> ns[0].lo <= x
  {
    hide Members, Total, RangeSet, Ordered;
    var v := ns[0];
    DroppedSums(ns, 0);
    FirstIsLeast(ns);
    RangeIs(v.lo, v.hi);
    RangeIs(v.lo + 1, v.hi);
    if v.lo < v.hi {
      InsertedSums(Dropped(ns, 0), 0, Interval(v.lo + 1, v.hi));
      assert Popped(ns) == Inserted(Dropped(ns, 0), 0, Interval(v.lo + 1, v.hi));
    }
  }

  lemma FirstIsLeast(ns: seq<Interval>)
    requires ns != [] && Ordered(ns)
    ensures ns[0].lo <= ns[0].hi
    ensures ns[0].lo in Members(ns) && ns[0].lo !in Members(Dropped(ns, 0))
    ensures forall x :: x in Members(ns) ==> ns[0].lo <= x
  {
    hide Members;
    MembersIn(ns);
    MembersIn(Dropped(ns, 0));
    assert In(ns, ns[0].lo);
  }

  lemma PoppedInOrder(ns: seq<Interval>, lo: int, hi: int, size: nat)
    requires ns != [] && Ordered(ns) && Within(ns, lo, hi, size)
    ensures Ordered(Popped(ns)) && Within(Popped(ns), lo, hi, size)
  {
    if ns[0].lo == ns[0].hi {
      DroppedWithin(ns, 0, lo, hi, size);
    } else {
      RaisedWithin(ns, lo, hi, size);
    }
  }

  lemma RaisedWithin(ns: seq<Interval>, lo: int, hi: int, size: nat)
    requires ns != [] && Ordered(ns) && Within(ns, lo, hi, size) && ns[0].lo < ns[0].hi
    ensures Ordered(Replaced(ns, 0, Interval(ns[0].lo + 1, ns[0].hi)))
    ensures Within(Replaced(ns, 0, Interval(ns[0].lo + 1, ns[0].hi)), lo, hi, size)
  {
  }

  lemma SplitKs(ns: seq<Interval>, m: nat, x: int, k: int, anchor: int, size: nat)
    requires size > 0 && m < |ns|
    ensures !Absent(Slots(ns, anchor, size), k) ==> !Absent(Slots(Split(ns, m, x), anchor, size), k)
    ensures Slots(Split(ns, m, x), anchor, size)[0] == Slots(ns, anchor, size)[0]
  {
    hide Slot;
    if !Absent(Slots(ns, anchor, size), k) {
      var i :| 0 <= i < |ns| && Slots(ns, anchor, size)[i] == k;
      assert Slots(Split(ns, m, x), anchor, size)[if i <= m then i else i + 1] == k;
    }
  }

  lemma SplitAround(ns: seq<Interval>, m: nat, x: int)
    requires m < |ns|
    ensures |Split(ns, m, x)| == |ns| + 1 && Split(ns, m, x)[m].hi == x && Split(ns, m, x)[m + 1].lo == x + 1
  {
  }

  lemma DroppedKs(ns: seq<Interval>, k: int, anchor: int, size: nat)
    requires size > 0 && ns != []
    ensures k != Slots(ns, anchor, size)[0] && !Absent(Slots(ns, anchor, size), k) ==> !Absent(Slots(Dropped(ns, 0), anchor, size), k)
  {
    hide Slot;
    if k != Slots(ns, anchor, size)[0] && !Absent(Slots(ns, anchor, size), k) {
      var i :| 0 <= i < |ns| && Slots(ns, anchor, size)[i] == k;
      assert Slots(Dropped(ns, 0), anchor, size)[i - 1] == k;
    }
  }

  lemma FirstSpan(ns: seq<Interval>, lo: int, hi: int, size: nat)
    requires Ordered(ns) && Within(ns, lo, hi, size) && ns != []
    ensures ns[0].lo <= ns[0].hi < ns[0].lo + SEQ_NO_TH
  {
  }

  /** The intervals from r on hold exactly the elements above x. */
  lemma TailAbove(ns: seq<Interval>, r: nat, x: int)
    requires Ordered(ns) && r <= |ns|
    requires r > 0 ==> ns[r - 1].hi <= x
    requires r < |ns| ==> x < ns[r].lo
    ensures Members(ns[r..]) == set y | y in Members(ns) && x < y
  {
    hide Members;
    MembersIn(ns);
    MembersIn(ns[r..]);
    forall y ensures y in Members(ns[r..]) <==> y in Members(ns) && x < y {
      InTail(ns, r, x, y);
    }
  }

  lemma InTail(ns: seq<Interval>, r: nat, x: int, y: int)
    requires Ordered(ns) && r <= |ns|
    requires r > 0 ==> ns[r - 1].hi <= x
    requires r < |ns| ==> x < ns[r].lo
    ensures In(ns[r..], y) <==> In(ns, y) && x < y
  {
    if In(ns[r..], y) {
      var i :| 0 <= i < |ns| - r && ns[r..][i].lo <= y <= ns[r..][i].hi;
      assert ns[r + i].lo <= y <= ns[r + i].hi;
    }
    if In(ns, y) && x < y {
      var i :| 0 <= i < |ns| && ns[i].lo <= y <= ns[i].hi;
      assert ns[r..][i - r] == ns[i];
    }
  }

  lemma PoppedAbove(ns: seq<Interval>)
    requires ns != [] && Ordered(ns)
    ensures Members(Popped(ns)) == set y | y in Members(ns) && ns[0].lo < y
  {
    hide Members, Popped, Ordered;
    PoppedFacts(ns);
  }

  lemma NoneBelow(ns: seq<Interval>, x: int)
    requires ns != [] && Ordered(ns) && x < ns[0].lo
    ensures Members(ns) == set y | y in Members(ns) && x < y
  {
    hide Members, Popped, Ordered;
    PoppedFacts(ns);
  }

  lemma AlmostAt(ns: seq<Interval>, m: nat, lo: int, hi: int, size: nat)
    requires AlmostOrdered(ns, m) && Within(ns, lo, hi, size) && m < |ns|
    ensures ns[m].lo <= ns[m].hi && lo <= ns[m].lo && ns[m].hi <= hi && hi - lo < SEQ_NO_TH - 1
    ensures m + 1 < |ns| ==> ns[m].lo < ns[m + 1].lo <= hi
  {
  }

  lemma AbsorbFacts(ns: seq<Interval>, m: nat, lo: int, hi: int, size: nat)
    requires AlmostOrdered(ns, m) && Within(ns, lo, hi, size) && m + 1 < |ns|
    ensures ns[m].lo < ns[m + 1].lo <= ns[m + 1].hi && ns[m].lo <= ns[m].hi
    ensures ns[m + 1].hi - ns[m].lo < SEQ_NO_TH - 1 && ns[m].hi - ns[m].lo < SEQ_NO_TH - 1
    ensures Within(Absorbed(ns, m), lo, hi, size)
  {
  }

  /** What swallowing the next interval writes into the arrays. */
  lemma LayAbsorb(ns: seq<Interval>, m: nat, anchor: int, size: nat, d1: seq<int>, d2: seq<int>, next: seq<int>)
    requires Lay(ns, anchor, size, d1, d2, next) && m + 1 < |ns|
    ensures var ks := Slots(ns, anchor, size);
            var v := Interval(ns[m].lo, Max(ns[m].hi, ns[m + 1].hi));
            && 0 <= ks[m] < size && 0 <= ks[m + 1] < size && ks[m] != ks[m + 1]
            && d1[ks[m + 1]] == Wrap(ns[m + 1].lo) && d2[ks[m + 1]] == EndMark(ns[m + 1]) && d2[ks[m]] == EndMark(ns[m])
            && Slots(Absorbed(ns, m), anchor, size) == Dropped(ks, m + 1)
            && Lay(Absorbed(ns, m), anchor, size, d1[ks[m + 1] := -1], d2[ks[m] := EndMark(v)][ks[m + 1] := -1],
                   next[ks[m] := next[ks[m + 1]]])
  {
    hide Lay, Slot, Wrap, EndMark;
    var v := Interval(ns[m].lo, Max(ns[m].hi, ns[m + 1].hi));
    LayAt(ns, m, anchor, size, d1, d2, next);
    LayAt(ns, m + 1, anchor, size, d1, d2, next);
    LayApart(ns, m, m + 1, anchor, size, d1, d2, next);
    LayDims(ns, anchor, size, d1, d2, next);
    LayEnd(ns, m, v.hi, anchor, size, d1, d2, next);
    LayDrop(Replaced(ns, m, v), m + 1, anchor, size, d1, d2[Slots(ns, anchor, size)[m] := EndMark(v)], next);
  }

  /** What deleting a single first number writes into the arrays. */
  lemma LayPoppedOne(ns: seq<Interval>, anchor: int, size: nat, d1: seq<int>, d2: seq<int>, next: seq<int>)
    requires size > 0 && Lay(ns, anchor, size, d1, d2, next) && ns != [] && ns[0].lo == ns[0].hi
    ensures var k := Slots(ns, anchor, size)[0];
            |d1| == |d2| == size && 0 <= k < size && Lay(Popped(ns), anchor, size, d1[k := -1], d2[k := -1], next)
  {
    hide Lay, Slot, Slots;
    LayDims(ns, anchor, size, d1, d2, next);
    LayDrop(ns, 0, anchor, size, d1, d2, next);
  }

  /** What shortening the first interval from below writes into the arrays. */
  lemma LayPoppedMore(ns: seq<Interval>, lo: int, hi: int, anchor: int, size: nat, d1: seq<int>, d2: seq<int>, next: seq<int>)
    requires size > 0 && Lay(ns, anchor, size, d1, d2, next) && ns != [] && Ordered(ns) && Within(ns, lo, hi, size)
    requires ns[0].lo < ns[0].hi
    ensures var v, k, k' := ns[0], Slots(ns, anchor, size)[0], Slot(ns[0].lo + 1, anchor, size);
            && |d1| == |d2| == |next| == size && 0 <= k < size && 0 <= k' < size
            && k != k' && d1[k'] == -1 && d2[k'] == -1
            && Lay(Popped(ns), anchor, size, d1[k := -1][k' := Wrap(v.lo + 1)],
                 d2[k := -1][k' := EndMark(Interval(v.lo + 1, v.hi))], next[k' := next[k]])
  {
    hide Lay, Slot, Slots, Wrap, EndMark, Within, Ordered, Increasing, Replaced;
    LayDims(ns, anchor, size, d1, d2, next);
    FirstIn(ns, lo, hi, size);
    LayMove(ns, 0, Interval(ns[0].lo + 1, ns[0].hi), lo, hi, anchor, size, d1, d2, next);
  }

  lemma FirstIn(ns: seq<Interval>, lo: int, hi: int, size: nat)
    requires ns != [] && Ordered(ns) && Within(ns, lo, hi, size)
    ensures Increasing(ns) && ns[0].lo <= ns[0].hi <= hi && (|ns| > 1 ==> ns[0].hi < ns[1].lo)
  {
  }

  lemma PoppedKs(ns: seq<Interval>, k: int, anchor: int, size: nat)
    requires size > 0 && ns != []
    ensures k != Slots(ns, anchor, size)[0] && !Absent(Slots(ns, anchor, size), k) ==> !Absent(Slots(Popped(ns), anchor, size), k)
  {
    hide Slot;
    if k != Slots(ns, anchor, size)[0] && !Absent(Slots(ns, anchor, size), k) {
      var i :| 0 <= i < |ns| && Slots(ns, anchor, size)[i] == k;
      assert Slots(Popped(ns), anchor, size)[if ns[0].lo == ns[0].hi then i - 1 else i] == k;
    }
  }

  /** The first slot afterwards. */
  lemma NextKs(ns: seq<Interval>, anchor: int, size: nat)
    requires size > 0 && ns != []
    ensures ns[0].lo == ns[0].hi && |ns| > 1 ==> Slots(Popped(ns), anchor, size)[0] == Slots(ns, anchor, size)[1]
    ensures ns[0].lo == ns[0].hi ==> |Popped(ns)| == |ns| - 1
    ensures ns[0].lo != ns[0].hi ==> Popped(ns) != [] && Slots(Popped(ns), anchor, size)[0] == Slot(ns[0].lo + 1, anchor, size)
  {
    hide Slot;
  }
}
