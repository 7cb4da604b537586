/** How the loss lists of list.cpp lay intervals out in their arrays.  An interval that starts
    at position lo sits in slot `(lo + anchor) % size`; because all positions lie in a window
    shorter than the array, that is the head's slot plus the distance from the head. */
module LossSlots {
  import opened Arithmetic
  import opened SeqNo
  import opened Intervals

  function Slot(x: int, anchor: int, size: nat): int
    requires size > 0
  {
    (x + anchor) % size
  }

  lemma SlotRange(x: int, anchor: int, size: nat)
    requires size > 0
    ensures 0 <= Slot(x, anchor, size) < size
  {
  }

  lemma SlotDistinct(x: int, y: int, anchor: int, size: nat)
    requires size > 0 && Abs(x - y) < size
    ensures Slot(x, anchor, size) == Slot(y, anchor, size) <==> x == y
  {
    var qx, qy := (x + anchor) / size, (y + anchor) / size;
    if Slot(x, anchor, size) == Slot(y, anchor, size) {
      assert x - y == (qx - qy) * size;
      NoMultiple(qx - qy, size);
    }
  }

  /** The slot reached from the head by the circular distance. */
  lemma SlotFromHead(x: int, y: int, anchor: int, size: nat)
    requires size > 0
    ensures 0 <= Slot(x, anchor, size) < size
    ensures (Slot(x, anchor, size) + (y - x) + size) % size == Slot(y, anchor, size)
  {
    var q := (x + anchor) / size;
    assert Slot(x, anchor, size) + (y - x) + size == (y + anchor) + (1 - q) * size;
    ModShift(y + anchor, 1 - q, size);
  }

  lemma NextSlot(x: int, anchor: int, size: nat)
    requires size > 0
    ensures (Slot(x, anchor, size) + 1) % size == Slot(x + 1, anchor, size)
  {
    if size == 1 {
    } else {
      SlotFromHead(x, x + 1, anchor, size);
      ModShift(Slot(x, anchor, size) + 1, 1, size);
    }
  }

  /** The positions in use lie in a window in which the circular order is the plain order. */
  ghost predicate Within(ns: seq<Interval>, lo: int, hi: int, size: nat) {
    && hi - lo < size && hi - lo < SEQ_NO_TH - 1
    && forall i :: 0 <= i < |ns| ==> lo <= ns[i].lo <= ns[i].hi <= hi
  }

  /** The second array marks an interval of one number by -1. */
  function EndMark(v: Interval): int {
    if v.lo == v.hi then -1 else Wrap(v.hi)
  }

  /** The slots of the intervals, in list order. */
  function Slots(ns: seq<Interval>, anchor: int, size: nat): (ks: seq<int>)
    requires size > 0
    ensures |ks| == |ns| && forall i :: 0 <= i < |ns| ==> ks[i] == Slot(ns[i].lo, anchor, size)
  {
    seq(|ns|, i requires 0 <= i < |ns| => Slot(ns[i].lo, anchor, size))
  }

  ghost predicate Absent(ks: seq<int>, k: int) {
    forall i :: 0 <= i < |ks| ==> ks[i] != k
  }

  ghost predicate Distinct(ks: seq<int>, size: nat) {
    && (forall i :: 0 <= i < |ks| ==> 0 <= ks[i] < size)
    && (forall i, j :: 0 <= i < j < |ks| ==> ks[i] != ks[j])
  }

  /** The link array threads these slots in this order. */
  ghost predicate Linked(ks: seq<int>, next: seq<int>) {
    forall i :: 0 <= i < |ks| ==>
      0 <= ks[i] < |next| && next[ks[i]] == if i + 1 < |ks| then ks[i + 1] else -1
  }

  /** The data arrays hold the intervals in their slots, and -1 everywhere else. */
  ghost predicate Stored(ns: seq<Interval>, ks: seq<int>, d1: seq<int>, d2: seq<int>) {
    && |ns| == |ks| && |d1| == |d2|
    && (forall i :: 0 <= i < |ks| ==>
          0 <= ks[i] < |d1| && d1[ks[i]] == Wrap(ns[i].lo) && d2[ks[i]] == EndMark(ns[i]))
    && (forall k :: 0 <= k < |d1| && Absent(ks, k) ==> d1[k] == -1 && d2[k] == -1)
  }

  ghost predicate Increasing(ns: seq<Interval>) {
    forall i, j :: 0 <= i < j < |ns| ==> ns[i].lo < ns[j].lo
  }

  /** The arrays lay out these intervals. */
  ghost predicate Lay(ns: seq<Interval>, anchor: int, size: nat, d1: seq<int>, d2: seq<int>, next: seq<int>) {
    && size > 0 && |d1| == |d2| == |next| == size
    && Distinct(Slots(ns, anchor, size), size)
    && Linked(Slots(ns, anchor, size), next)
    && Stored(ns, Slots(ns, anchor, size), d1, d2)
  }

  // ---------- linking and storing, for any slots ----------

  lemma DistinctRange(ks: seq<int>, size: nat)
    requires Distinct(ks, size)
    ensures forall i :: 0 <= i < |ks| ==> 0 <= ks[i] < size
  {
  }

  lemma LinkAt(ks: seq<int>, next: seq<int>, i: nat)
    requires Linked(ks, next) && i < |ks|
    ensures 0 <= ks[i] < |next| && next[ks[i]] == if i + 1 < |ks| then ks[i + 1] else -1
  {
  }

  lemma StoreAt(ns: seq<Interval>, ks: seq<int>, d1: seq<int>, d2: seq<int>, i: nat)
    requires Stored(ns, ks, d1, d2) && i < |ks|
    ensures 0 <= ks[i] < |d1| && d1[ks[i]] == Wrap(ns[i].lo) && d2[ks[i]] == EndMark(ns[i])
  {
  }

  lemma DistinctInsert(ks: seq<int>, size: nat, m: nat, k: int)
    requires Distinct(ks, size) && m <= |ks| && 0 <= k < size && Absent(ks, k)
    ensures Distinct(Inserted(ks, m, k), size)
  {
  }

  lemma DistinctDrop(ks: seq<int>, size: nat, m: nat)
    requires Distinct(ks, size) && m < |ks|
    ensures Distinct(Dropped(ks, m), size)
  {
  }

  lemma LinkInsert(ks: seq<int>, next: seq<int>, m: nat, k: int)
    requires Distinct(ks, |next|) && Linked(ks, next) && m <= |ks| && 0 <= k < |next| && Absent(ks, k)
    ensures Distinct(Inserted(ks, m, k), |next|)
    ensures var next1 := next[k := if m < |ks| then ks[m] else -1];
            Linked(Inserted(ks, m, k), if m > 0 then next1[ks[m - 1] := k] else next1)
  {
    DistinctInsert(ks, |next|, m, k);
    var ks', next1 := Inserted(ks, m, k), next[k := if m < |ks| then ks[m] else -1];
    var next2 := if m > 0 then next1[ks[m - 1] := k] else next1;
    forall i | 0 <= i < |ks'|
      ensures 0 <= ks'[i] < |next2| && next2[ks'[i]] == if i + 1 < |ks'| then ks'[i + 1] else -1
    {
      if i < m {
        LinkAt(ks, next, i);
        assert i < m - 1 ==> ks[i] != ks[m - 1];
        assert ks[i] != k;
      } else if i > m {
        LinkAt(ks, next, i - 1);
        assert m > 0 ==> ks[m - 1] != ks[i - 1];
        assert ks[i - 1] != k;
      } else {
        assert m > 0 ==> ks[m - 1] != k;
      }
    }
    assert Linked(ks', next2);
  }

  lemma LinkDrop(ks: seq<int>, next: seq<int>, m: nat)
    requires Distinct(ks, |next|) && Linked(ks, next) && m < |ks|
    ensures Distinct(Dropped(ks, m), |next|)
    ensures 0 <= ks[m] < |next|
    ensures Linked(Dropped(ks, m), if m > 0 then next[ks[m - 1] := next[ks[m]]] else next)
  {
    DistinctDrop(ks, |next|, m);
    LinkAt(ks, next, m);
    var ks', next' := Dropped(ks, m), if m > 0 then next[ks[m - 1] := next[ks[m]]] else next;
    forall i | 0 <= i < |ks'|
      ensures 0 <= ks'[i] < |next'| && next'[ks'[i]] == if i + 1 < |ks'| then ks'[i + 1] else -1
    {
      if i < m {
        LinkAt(ks, next, i);
        assert i < m - 1 ==> ks[i] != ks[m - 1];
      } else {
        LinkAt(ks, next, i + 1);
        assert m > 0 ==> ks[m - 1] != ks[i + 1];
      }
    }
    assert Linked(ks', next');
  }

  /** A node moves to another slot. */
  lemma LinkMove(ks: seq<int>, next: seq<int>, m: nat, k: int)
    requires Distinct(ks, |next|) && Linked(ks, next) && m < |ks| && 0 <= k < |next| && Absent(ks, k)
    ensures 0 <= ks[m] < |next| && Distinct(Replaced(ks, m, k), |next|) && (m > 0 ==> 0 <= ks[m - 1] < |next|)
    ensures var next1 := next[k := next[ks[m]]];
            Linked(Replaced(ks, m, k), if m > 0 then next1[ks[m - 1] := k] else next1)
  {
    var ks', next1 := Replaced(ks, m, k), next[k := next[ks[m]]];
    var next2 := if m > 0 then next1[ks[m - 1] := k] else next1;
    LinkAt(ks, next, m);
    forall i | 0 <= i < |ks'|
      ensures 0 <= ks'[i] < |next2| && next2[ks'[i]] == if i + 1 < |ks'| then ks'[i + 1] else -1
    {
      LinkAt(ks, next, i);
      assert m > 0 && i != m - 1 ==> ks[i] != ks[m - 1];
    }
    assert Linked(ks', next2);
  }

  /** The backward links thread the same slots in the opposite order. */
  ghost predicate Backed(ks: seq<int>, prior: seq<int>) {
    forall i :: 0 <= i < |ks| ==>
      0 <= ks[i] < |prior| && prior[ks[i]] == if i > 0 then ks[i - 1] else -1
  }

  lemma BackAt(ks: seq<int>, prior: seq<int>, i: nat)
    requires Backed(ks, prior) && i < |ks|
    ensures 0 <= ks[i] < |prior| && prior[ks[i]] == if i > 0 then ks[i - 1] else -1
  {
  }

  lemma BackInsert(ks: seq<int>, prior: seq<int>, m: nat, k: int)
    requires Distinct(ks, |prior|) && Backed(ks, prior) && m <= |ks| && 0 <= k < |prior| && Absent(ks, k)
    ensures m < |ks| ==> 0 <= ks[m] < |prior|
    ensures var prior1 := prior[k := if m > 0 then ks[m - 1] else -1];
            Backed(Inserted(ks, m, k), if m < |ks| then prior1[ks[m] := k] else prior1)
  {
    var ks', prior1 := Inserted(ks, m, k), prior[k := if m > 0 then ks[m - 1] else -1];
    var prior2 := if m < |ks| then prior1[ks[m] := k] else prior1;
    forall i | 0 <= i < |ks'|
      ensures 0 <= ks'[i] < |prior2| && prior2[ks'[i]] == if i > 0 then ks'[i - 1] else -1
    {
      if i < m {
        BackAt(ks, prior, i);
        assert m < |ks| ==> ks[i] != ks[m];
      } else if i > m {
        BackAt(ks, prior, i - 1);
        assert i - 1 > m ==> ks[m] != ks[i - 1];
        assert ks[i - 1] != k;
      } else {
        assert m < |ks| ==> ks[m] != k;
      }
    }
    assert Backed(ks', prior2);
  }

  lemma BackDrop(ks: seq<int>, prior: seq<int>, m: nat)
    requires Distinct(ks, |prior|) && Backed(ks, prior) && m < |ks|
    ensures 0 <= ks[m] < |prior| && (m + 1 < |ks| ==> 0 <= ks[m + 1] < |prior|)
    ensures Backed(Dropped(ks, m), if m + 1 < |ks| then prior[ks[m + 1] := prior[ks[m]]] else prior)
  {
    var ks', prior' := Dropped(ks, m), if m + 1 < |ks| then prior[ks[m + 1] := prior[ks[m]]] else prior;
    BackAt(ks, prior, m);
    forall i | 0 <= i < |ks'|
      ensures 0 <= ks'[i] < |prior'| && prior'[ks'[i]] == if i > 0 then ks'[i - 1] else -1
    {
      if i < m {
        BackAt(ks, prior, i);
        assert m + 1 < |ks| ==> ks[i] != ks[m + 1];
      } else {
        BackAt(ks, prior, i + 1);
        assert i > m ==> ks[i + 1] != ks[m + 1];
      }
    }
    assert Backed(ks', prior');
  }

  lemma BackMove(ks: seq<int>, prior: seq<int>, m: nat, k: int)
    requires Distinct(ks, |prior|) && Backed(ks, prior) && m < |ks| && 0 <= k < |prior| && Absent(ks, k)
    ensures 0 <= ks[m] < |prior| && (m + 1 < |ks| ==> 0 <= ks[m + 1] < |prior|)
    ensures var prior1 := prior[k := prior[ks[m]]];
            Backed(Replaced(ks, m, k), if m + 1 < |ks| then prior1[ks[m + 1] := k] else prior1)
  {
    var ks', prior1 := Replaced(ks, m, k), prior[k := prior[ks[m]]];
    var prior2 := if m + 1 < |ks| then prior1[ks[m + 1] := k] else prior1;
    BackAt(ks, prior, m);
    forall i | 0 <= i < |ks'|
      ensures 0 <= ks'[i] < |prior2| && prior2[ks'[i]] == if i > 0 then ks'[i - 1] else -1
    {
      BackAt(ks, prior, i);
      assert m + 1 < |ks| && i != m + 1 ==> ks[i] != ks[m + 1];
    }
    assert Backed(ks', prior2);
  }

  lemma StoreInsert(ns: seq<Interval>, ks: seq<int>, d1: seq<int>, d2: seq<int>, m: nat, v: Interval, k: int)
    requires Stored(ns, ks, d1, d2) && m <= |ks| && 0 <= k < |d1| && Absent(ks, k)
    ensures Stored(Inserted(ns, m, v), Inserted(ks, m, k), d1[k := Wrap(v.lo)], d2[k := EndMark(v)])
    ensures d1[k] == -1 && d2[k] == -1
  {
    var ks' := Inserted(ks, m, k);
    forall j | Absent(ks', j) ensures Absent(ks, j) && j != k {
      assert ks'[m] == k;
      forall i | 0 <= i < |ks| ensures ks[i] != j {
        assert ks'[if i < m then i else i + 1] == ks[i];
      }
    }
  }

  lemma StoreDrop(ns: seq<Interval>, ks: seq<int>, d1: seq<int>, d2: seq<int>, m: nat)
    requires Stored(ns, ks, d1, d2) && Distinct(ks, |d1|) && m < |ks|
    ensures Stored(Dropped(ns, m), Dropped(ks, m), d1[ks[m] := -1], d2[ks[m] := -1])
  {
    hide Wrap, EndMark;
    var ns', ks', d1', d2' := Dropped(ns, m), Dropped(ks, m), d1[ks[m] := -1], d2[ks[m] := -1];
    forall j | 0 <= j < |d1| && Absent(ks', j) ensures d1'[j] == -1 && d2'[j] == -1 {
      if j != ks[m] {
        AbsentBefore(ks, m, j);
      }
    }
    forall i | 0 <= i < |ks'| ensures 0 <= ks'[i] < |d1'| && d1'[ks'[i]] == Wrap(ns'[i].lo) && d2'[ks'[i]] == EndMark(ns'[i]) {
      assert ks[if i < m then i else i + 1] != ks[m];
    }
  }

  lemma AbsentBefore(ks: seq<int>, m: nat, j: int)
    requires m < |ks| && Absent(Dropped(ks, m), j) && j != ks[m]
    ensures Absent(ks, j)
  {
    forall i | 0 <= i < |ks| ensures ks[i] != j {
      if i != m {
        assert Dropped(ks, m)[if i < m then i else i - 1] == ks[i];
      }
    }
  }

  lemma StoreEnd(ns: seq<Interval>, ks: seq<int>, d1: seq<int>, d2: seq<int>, m: nat, v: Interval)
    requires Stored(ns, ks, d1, d2) && Distinct(ks, |d1|) && m < |ks| && v.lo == ns[m].lo
    ensures Stored(Replaced(ns, m, v), ks, d1, d2[ks[m] := EndMark(v)])
  {
  }

  lemma StoreMove(ns: seq<Interval>, ks: seq<int>, d1: seq<int>, d2: seq<int>, m: nat, v: Interval, k: int)
    requires Stored(ns, ks, d1, d2) && Distinct(ks, |d1|) && m < |ks| && 0 <= k < |d1| && Absent(ks, k)
    ensures d1[k] == -1 && d2[k] == -1
    ensures Stored(Replaced(ns, m, v), Replaced(ks, m, k), d1[ks[m] := -1][k := Wrap(v.lo)], d2[ks[m] := -1][k := EndMark(v)])
  {
    hide Wrap, EndMark;
    var ks', d1', d2' := Replaced(ks, m, k), d1[ks[m] := -1][k := Wrap(v.lo)], d2[ks[m] := -1][k := EndMark(v)];
    var ns' := Replaced(ns, m, v);
    forall j | 0 <= j < |d1| && Absent(ks', j) ensures d1'[j] == -1 && d2'[j] == -1 {
      assert ks'[m] != j;
      if j != ks[m] {
        forall i | 0 <= i < |ks| ensures ks[i] != j {
          assert i != m ==> ks'[i] == ks[i];
        }
      }
    }
    forall i | 0 <= i < |ks'| ensures 0 <= ks'[i] < |d1'| && d1'[ks'[i]] == Wrap(ns'[i].lo) && d2'[ks'[i]] == EndMark(ns'[i]) {
      assert i != m ==> ks[i] != ks[m];
    }
  }

  // ---------- the same for the intervals of a list ----------

  lemma SlotsApart(ns: seq<Interval>, lo: int, hi: int, anchor: int, size: nat, x: int)
    requires size > 0 && Within(ns, lo, hi, size) && lo <= x <= hi
    ensures 0 <= Slot(x, anchor, size) < size
    ensures Absent(Slots(ns, anchor, size), Slot(x, anchor, size)) <==> forall i :: 0 <= i < |ns| ==> ns[i].lo != x
    ensures forall i :: 0 <= i < |ns| ==> (Slots(ns, anchor, size)[i] == Slot(x, anchor, size) <==> ns[i].lo == x)
  {
    hide Slot;
    var ks := Slots(ns, anchor, size);
    SlotRange(x, anchor, size);
    forall i | 0 <= i < |ns| ensures ks[i] == Slot(x, anchor, size) <==> ns[i].lo == x {
      SlotDistinct(ns[i].lo, x, anchor, size);
    }
  }

  lemma InsertedWithin(ns: seq<Interval>, m: nat, v: Interval, lo: int, hi: int, size: nat)
    requires Within(ns, lo, hi, size) && lo <= v.lo <= v.hi <= hi && m <= |ns| && Increasing(ns)
    requires m > 0 ==> ns[m - 1].lo < v.lo
    requires m < |ns| ==> v.lo < ns[m].lo
    ensures Within(Inserted(ns, m, v), lo, hi, size) && Increasing(Inserted(ns, m, v))
  {
  }

  lemma WithinSpan(ns: seq<Interval>, lo: int, hi: int, size: nat)
    requires Within(ns, lo, hi, size)
    ensures hi - lo < size && hi - lo < SEQ_NO_TH - 1
    ensures forall i :: 0 <= i < |ns| ==> lo <= ns[i].lo <= ns[i].hi <= hi
  {
  }

  lemma NoneStartsAt(ns: seq<Interval>, m: nat, x: int)
    requires Increasing(ns) && m <= |ns|
    requires m > 0 ==> ns[m - 1].lo < x
    requires m < |ns| ==> x < ns[m].lo
    ensures forall i :: 0 <= i < |ns| ==> ns[i].lo != x
  {
  }

  /** A new interval in front of position m of the list. */
  lemma LayInsert(ns: seq<Interval>, m: nat, v: Interval, lo: int, hi: int, anchor: int, size: nat,
                  d1: seq<int>, d2: seq<int>, next: seq<int>)
    requires Lay(ns, anchor, size, d1, d2, next) && Increasing(ns) && m <= |ns|
    requires Within(ns, lo, hi, size) && lo <= v.lo <= v.hi <= hi
    requires m > 0 ==> ns[m - 1].lo < v.lo
    requires m < |ns| ==> v.lo < ns[m].lo
    ensures var k, ks := Slot(v.lo, anchor, size), Slots(ns, anchor, size);
            && 0 <= k < size && d1[k] == -1 && d2[k] == -1
            && Slots(Inserted(ns, m, v), anchor, size) == Inserted(ks, m, k)
            && var next1 := next[k := if m < |ns| then ks[m] else -1];
               Lay(Inserted(ns, m, v), anchor, size, d1[k := Wrap(v.lo)], d2[k := EndMark(v)],
                   if m > 0 then next1[ks[m - 1] := k] else next1)
  {
    hide Slot, Linked, Stored, Distinct, Wrap, EndMark, Within, Increasing;
    var k, ks := Slot(v.lo, anchor, size), Slots(ns, anchor, size);
    DistinctRange(ks, size);
    NoneStartsAt(ns, m, v.lo);
    SlotsApart(ns, lo, hi, anchor, size, v.lo);
    assert Slots(Inserted(ns, m, v), anchor, size) == Inserted(ks, m, k);
    LinkInsert(ks, next, m, k);
    StoreInsert(ns, ks, d1, d2, m, v, k);
  }

  lemma LayDrop(ns: seq<Interval>, m: nat, anchor: int, size: nat, d1: seq<int>, d2: seq<int>, next: seq<int>)
    requires Lay(ns, anchor, size, d1, d2, next) && m < |ns|
    ensures var ks := Slots(ns, anchor, size);
            && 0 <= ks[m] < size && Slots(Dropped(ns, m), anchor, size) == Dropped(ks, m)
            && next[ks[m]] == (if m + 1 < |ns| then ks[m + 1] else -1)
            && (m > 0 ==> 0 <= ks[m - 1] < size)
            && Lay(Dropped(ns, m), anchor, size, d1[ks[m] := -1], d2[ks[m] := -1],
                   if m > 0 then next[ks[m - 1] := next[ks[m]]] else next)
  {
    hide Slot, Linked, Stored, Distinct;
    var ks := Slots(ns, anchor, size);
    DistinctRange(ks, size);
    LinkAt(ks, next, m);
    assert Slots(Dropped(ns, m), anchor, size) == Dropped(ks, m);
    LinkDrop(ks, next, m);
    StoreDrop(ns, ks, d1, d2, m);
  }

  function Put(s: seq<int>, i: int, x: int): seq<int> {
    if 0 <= i < |s| then s[i := x] else s
  }

  /** The links after the node of interval m has moved to slot k. */
  function MovedLinks(next: seq<int>, ks: seq<int>, m: nat, k: int): seq<int>
    requires m < |ks| && 0 <= ks[m] < |next|
  {
    var next1 := Put(next, k, next[ks[m]]);
    if m > 0 then Put(next1, ks[m - 1], k) else next1
  }

  /** Interval m moves to the slot of a later start. */
  lemma LayMove(ns: seq<Interval>, m: nat, v: Interval, lo: int, hi: int, anchor: int, size: nat,
                d1: seq<int>, d2: seq<int>, next: seq<int>)
    requires size > 0 && |d1| == |d2| == |next| == size
    requires Lay(ns, anchor, size, d1, d2, next) && Increasing(ns) && m < |ns|
    requires Within(ns, lo, hi, size) && ns[m].lo < v.lo <= v.hi <= hi
    requires m + 1 < |ns| ==> v.lo < ns[m + 1].lo
    ensures var k, ks := Slot(v.lo, anchor, size), Slots(ns, anchor, size);
            && 0 <= k < size && d1[k] == -1 && d2[k] == -1 && Absent(ks, k)
            && 0 <= ks[m] < size && k != ks[m] && (m > 0 ==> 0 <= ks[m - 1] < size)
            && Slots(Replaced(ns, m, v), anchor, size) == Replaced(ks, m, k)
            && Lay(Replaced(ns, m, v), anchor, size, Put(Put(d1, ks[m], -1), k, Wrap(v.lo)), Put(Put(d2, ks[m], -1), k, EndMark(v)),
                   MovedLinks(next, ks, m, k))
  {
    hide Slot, Linked, Stored, Distinct, Wrap, EndMark, Within, Increasing;
    var k, ks := Slot(v.lo, anchor, size), Slots(ns, anchor, size);
    DistinctRange(ks, size);
    NoneMovedTo(ns, m, v.lo, lo, hi, size);
    SlotsApart(ns, lo, hi, anchor, size, v.lo);
    assert Slots(Replaced(ns, m, v), anchor, size) == Replaced(ks, m, k);
    LinkMove(ks, next, m, k);
    StoreMove(ns, ks, d1, d2, m, v, k);
  }

  lemma NoneMovedTo(ns: seq<Interval>, m: nat, x: int, lo: int, hi: int, size: nat)
    requires Increasing(ns) && Within(ns, lo, hi, size) && m < |ns| && ns[m].lo < x
    requires m + 1 < |ns| ==> x < ns[m + 1].lo
    ensures lo <= x && forall i :: 0 <= i < |ns| ==> ns[i].lo != x
  {
    assert lo <= ns[m].lo;
    NoneStartsAt(ns, m + 1, x);
  }

  lemma LayEnd(ns: seq<Interval>, m: nat, hi: int, anchor: int, size: nat, d1: seq<int>, d2: seq<int>, next: seq<int>)
    requires Lay(ns, anchor, size, d1, d2, next) && m < |ns|
    ensures var ks, v := Slots(ns, anchor, size), Interval(ns[m].lo, hi);
            && 0 <= ks[m] < size && Slots(Replaced(ns, m, v), anchor, size) == ks
            && Lay(Replaced(ns, m, v), anchor, size, d1, d2[ks[m] := EndMark(v)], next)
  {
    hide Slot, Linked, Stored, Distinct;
    var ks, v := Slots(ns, anchor, size), Interval(ns[m].lo, hi);
    DistinctRange(ks, size);
    assert Slots(Replaced(ns, m, v), anchor, size) == ks;
    StoreEnd(ns, ks, d1, d2, m, v);
  }

  lemma LayDims(ns: seq<Interval>, anchor: int, size: nat, d1: seq<int>, d2: seq<int>, next: seq<int>)
    requires Lay(ns, anchor, size, d1, d2, next)
    ensures size > 0 && |d1| == |d2| == |next| == size
  {
  }

  /** What the arrays say about interval i. */
  lemma LayAt(ns: seq<Interval>, i: nat, anchor: int, size: nat, d1: seq<int>, d2: seq<int>, next: seq<int>)
    requires Lay(ns, anchor, size, d1, d2, next) && i < |ns|
    ensures var k := Slots(ns, anchor, size)[i];
            && 0 <= k < size && k == Slot(ns[i].lo, anchor, size)
            && d1[k] == Wrap(ns[i].lo) && d2[k] == EndMark(ns[i])
            && next[k] == if i + 1 < |ns| then Slots(ns, anchor, size)[i + 1] else -1
  {
    hide Slot, Linked, Stored, Distinct;
    LinkAt(Slots(ns, anchor, size), next, i);
    StoreAt(ns, Slots(ns, anchor, size), d1, d2, i);
  }

  lemma LayEmpty(anchor: int, d1: seq<int>, d2: seq<int>, next: seq<int>)
    requires |d1| == |d2| == |next| > 0
    requires forall k :: 0 <= k < |d1| ==> d1[k] == -1 && d2[k] == -1
    ensures Lay([], anchor, |d1|, d1, d2, next)
  {
  }

  /** Looking a position up: its slot holds its number exactly when some interval starts there. */
  lemma LookUp(ns: seq<Interval>, x: int, lo: int, hi: int, anchor: int, size: nat, d1: seq<int>, d2: seq<int>, next: seq<int>)
    requires Lay(ns, anchor, size, d1, d2, next) && Within(ns, lo, hi, size) && lo <= x && (x <= hi || x < lo + SEQ_NO_TH)
    ensures var k := Slot(x, anchor, size);
            && 0 <= k < size
            && (d1[k] != Wrap(x) <==> forall i :: 0 <= i < |ns| ==> ns[i].lo != x)
            && forall i :: 0 <= i < |ns| && ns[i].lo == x ==> Slots(ns, anchor, size)[i] == k
  {
    hide Slot, Linked, Distinct, Wrap;
    SlotRange(x, anchor, size);
    var k, ks := Slot(x, anchor, size), Slots(ns, anchor, size);
    if !Absent(ks, k) {
      var i :| 0 <= i < |ks| && ks[i] == k;
      CompareIn(ns[i].lo, x);
    }
  }

  // ---------- comparing stored numbers within the window ----------

  lemma CompareIn(x: int, y: int)
    requires Abs(y - x) < SEQ_NO_TH
    ensures SeqCmp(Wrap(x), Wrap(y)) < 0 <==> x < y
    ensures SeqCmp(Wrap(x), Wrap(y)) > 0 <==> x > y
    ensures Wrap(x) == Wrap(y) <==> x == y
    ensures Wrap(x) != -1
    ensures SeqOff(Wrap(x), Wrap(y)) == y - x
    ensures IncSeq(Wrap(x)) == Wrap(x + 1)
    ensures x <= y ==> SeqLen(Wrap(x), Wrap(y)) == y - x + 1
  {
    SeqCmpOrders(x, y);
    SeqOffRecovers(x, y);
    IncSeqAdvances(x);
    if x <= y {
      SeqLenCounts(x, y);
    }
  }

  // ---------- windows, cuts and splits ----------

  lemma Increases(ns: seq<Interval>)
    requires Ordered(ns)
    ensures Increasing(ns)
  {
  }

  lemma OrderedTotal(ns: seq<Interval>)
    requires Ordered(ns)
    ensures Total(ns) == 0 <==> ns == []
  {
    hide Total;
    TotalAtLeast(ns);
    if ns == [] {
      TotalIsCard(ns);
    }
  }

  function First(ns: seq<Interval>, a: int): int {
    if ns == [] || a < ns[0].lo then a else ns[0].lo
  }

  function Last(ns: seq<Interval>, b: int): int {
    if ns == [] then b else Max(b, ns[|ns| - 1].hi)
  }

  /** There is a short enough window for the list and [a, b] together. */
  ghost predicate Fits(ns: seq<Interval>, a: int, b: int, size: nat) {
    Last(ns, b) - First(ns, a) < size && Last(ns, b) - First(ns, a) < SEQ_NO_TH - 1
  }

  lemma FitsWithin(ns: seq<Interval>, a: int, b: int, size: nat)
    requires Ordered(ns) && Fits(ns, a, b, size)
    ensures Within(ns, First(ns, a), Last(ns, b), size) && First(ns, a) <= a && b <= Last(ns, b)
  {
  }

  /** Behind interval r - 1, the next one starts above it. */
  lemma NextAbove(ns: seq<Interval>, r: nat)
    requires Ordered(ns) && 0 < r <= |ns|
    ensures r < |ns| ==> ns[r - 1].hi < ns[r].lo
  {
  }

  lemma DroppedWithin(ns: seq<Interval>, m: nat, lo: int, hi: int, size: nat)
    requires Ordered(ns) && Within(ns, lo, hi, size) && m < |ns|
    ensures Within(Dropped(ns, m), lo, hi, size) && Increasing(Dropped(ns, m)) && Ordered(Dropped(ns, m))
  {
  }

  lemma StretchedWithin(ns: seq<Interval>, m: nat, b: int, lo: int, hi: int, size: nat)
    requires Within(ns, lo, hi, size) && m < |ns| && ns[m].hi <= b <= hi
    ensures Within(Replaced(ns, m, Interval(ns[m].lo, b)), lo, hi, size)
  {
  }

  lemma StretchedWithin'(ns: seq<Interval>, m: nat, b: int, lo: int, hi: int, size: nat)
    requires Ordered(ns) && Within(ns, lo, hi, size) && m < |ns| && ns[m].lo <= b <= hi
    ensures Within(Replaced(ns, m, Interval(ns[m].lo, b)), lo, hi, size)
    ensures Increasing(Replaced(ns, m, Interval(ns[m].lo, b)))
  {
  }

  /** The list with interval m cut behind x. */
  function Split(ns: seq<Interval>, m: nat, x: int): seq<Interval>
    requires m < |ns|
  {
    Inserted(Replaced(ns, m, Interval(ns[m].lo, x)), m + 1, Interval(x + 1, ns[m].hi))
  }

  lemma SplitFacts(ns: seq<Interval>, m: nat, x: int, lo: int, hi: int, size: nat)
    requires Ordered(ns) && Within(ns, lo, hi, size) && m < |ns| && ns[m].lo <= x < ns[m].hi
    ensures Total(Split(ns, m, x)) == Total(ns) && Members(Split(ns, m, x)) == Members(ns)
    ensures Ordered(Split(ns, m, x)) && Within(Split(ns, m, x), lo, hi, size)
  {
    hide Members, Total, RangeSet, Ordered, Within;
    SplitInOrder(ns, m, x, lo, hi, size);
    ReplacedSums(ns, m, Interval(ns[m].lo, x));
    InsertedSums(Replaced(ns, m, Interval(ns[m].lo, x)), m + 1, Interval(x + 1, ns[m].hi));
    Around(ns, m);
    RangeUnion(ns[m].lo, x, x + 1, ns[m].hi);
    UnionSwap(Members(ns[..m]), RangeSet(ns[m].lo, x), Members(ns[m + 1..]), RangeSet(x + 1, ns[m].hi));
  }

  lemma UnionSwap(a: set<int>, b: set<int>, c: set<int>, d: set<int>)
    ensures a + b + c + d == a + (b + d) + c
  {
  }

  lemma SplitInOrder(ns: seq<Interval>, m: nat, x: int, lo: int, hi: int, size: nat)
    requires Ordered(ns) && Within(ns, lo, hi, size) && m < |ns| && ns[m].lo <= x < ns[m].hi
    ensures Ordered(Split(ns, m, x)) && Within(Split(ns, m, x), lo, hi, size)
  {
    var low := Replaced(ns, m, Interval(ns[m].lo, x));
    CutFrom(ns, m, x, lo, hi, size);
    InsertedOrder(low, m + 1, Interval(x + 1, ns[m].hi));
    assert forall i :: 0 <= i < |low| ==> low[i].lo >= lo;
  }

  lemma CutFrom(ns: seq<Interval>, m: nat, x: int, lo: int, hi: int, size: nat)
    requires Ordered(ns) && Within(ns, lo, hi, size) && m < |ns| && ns[m].lo <= x < ns[m].hi
    ensures var low := Replaced(ns, m, Interval(ns[m].lo, x));
            Ordered(low) && Within(low, lo, hi, size) && (m + 1 < |ns| ==> ns[m].hi < low[m + 1].lo)
  {
  }

  lemma InsertedOrder(ns: seq<Interval>, m: nat, v: Interval)
    requires Ordered(ns) && m <= |ns| && v.lo <= v.hi
    requires m > 0 ==> ns[m - 1].hi < v.lo
    requires m < |ns| ==> v.hi < ns[m].lo
    ensures Ordered(Inserted(ns, m, v))
  {
    AddedInOrder(ns, m, v);
    if m < |ns| {
      AlmostIsOrdered(Inserted(ns, m, v), m);
    }
  }

  lemma LaySplit(ns: seq<Interval>, m: nat, x: int, lo: int, hi: int, anchor: int, size: nat, d1: seq<int>, d2: seq<int>, next: seq<int>)
    requires size > 0 && Lay(ns, anchor, size, d1, d2, next) && m < |ns| && Ordered(ns) && Within(ns, lo, hi, size)
    requires ns[m].lo <= x < ns[m].hi
    ensures var i, k := Slots(ns, anchor, size)[m], Slot(x + 1, anchor, size);
            && |d1| == |d2| == |next| == size && 0 <= i < size && 0 <= k < size && i != k && d1[k] == -1 && d2[k] == -1
            && Slots(Split(ns, m, x), anchor, size) == Inserted(Slots(ns, anchor, size), m + 1, k)
            && Lay(Split(ns, m, x), anchor, size, d1[k := Wrap(x + 1)],
                 d2[i := EndMark(Interval(ns[m].lo, x))][k := EndMark(Interval(x + 1, ns[m].hi))], next[k := next[i]][i := k])
  {
    hide Lay, Slot, Wrap, EndMark, Linked, Stored, Distinct, Within;
    var i, k, low := Slots(ns, anchor, size)[m], Slot(x + 1, anchor, size), Replaced(ns, m, Interval(ns[m].lo, x));
    LayDims(ns, anchor, size, d1, d2, next);
    LayAt(ns, m, anchor, size, d1, d2, next);
    LayEnd(ns, m, x, anchor, size, d1, d2, next);
    WithinSpan(ns, lo, hi, size);
    SlotDistinct(ns[m].lo, x + 1, anchor, size);
    StretchedWithin'(ns, m, x, lo, hi, size);
    LayInsert(low, m + 1, Interval(x + 1, ns[m].hi), lo, hi, anchor, size, d1, d2[i := EndMark(Interval(ns[m].lo, x))], next);
  }

  lemma RangeIs(lo: int, hi: int)
    ensures forall x :: x in RangeSet(lo, hi) <==> lo <= x <= hi
  {
  }

  lemma LayApart(ns: seq<Interval>, i: nat, j: nat, anchor: int, size: nat, d1: seq<int>, d2: seq<int>, next: seq<int>)
    requires Lay(ns, anchor, size, d1, d2, next) && i < j < |ns|
    ensures Slots(ns, anchor, size)[i] != Slots(ns, anchor, size)[j]
  {
    hide Slot, Linked, Stored;
  }

  lemma LayAnchor(anchor: int, anchor': int, size: nat, d1: seq<int>, d2: seq<int>, next: seq<int>)
    requires Lay([], anchor, size, d1, d2, next)
    ensures Lay([], anchor', size, d1, d2, next)
  {
  }

  lemma SlotZero(x: int, size: nat)
    requires size > 0
    ensures Slot(x, -x, size) == 0
  {
  }

  // ---------- writing a node ----------

  /** Writes one interval into a free slot. */
  method WriteNode(data1: array<int>, data2: array<int>, loc: int, seqno1: SeqNum, seqno2: SeqNum)
    requires data1 != data2 && 0 <= loc < data1.Length == data2.Length && data2[loc] == -1
    modifies data1, data2
    ensures data1[..] == old(data1[..])[loc := seqno1]
    ensures data2[..] == old(data2[..])[loc := if seqno1 == seqno2 then -1 else seqno2]
  {
    data1[loc] := seqno1;
    if seqno2 != seqno1 {
      data2[loc] := seqno2;
    }
  }

  /** Writes what lies behind seqno in the interval of slot i, up to h, into a free slot. */
  method WriteRest(data1: array<int>, data2: array<int>, i: int, loc: int, seqno: SeqNum, ghost x: int, ghost h: int)
    requires data1 != data2 && data1.Length == data2.Length
    requires 0 <= loc < data1.Length && 0 <= i < data1.Length && data2[loc] == -1
    requires x < h < x + SEQ_NO_TH && seqno == Wrap(x) && data2[i] == Wrap(h)
    modifies data1, data2
    ensures data1[..] == old(data1[..])[loc := Wrap(x + 1)]
    ensures data2[..] == old(data2[..])[loc := EndMark(Interval(x + 1, h))]
  {
    hide Wrap;
    CompareIn(x, x + 1);
    CompareIn(h, x + 1);
    data1[loc] := IncSeq(seqno);
    if SeqCmp(data2[i], data1[loc]) > 0 {
      data2[loc] := data2[i];
    }
  }
}
