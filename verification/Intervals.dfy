/** Sequences of closed integer intervals, as the loss lists keep them, and the finite sets
    they stand for. */
module Intervals {
  import opened Arithmetic

  datatype Interval = Interval(lo: int, hi: int)

  /** Non-empty intervals in increasing order, none touching a later one. */
  ghost predicate Ordered(ns: seq<Interval>) {
    && (forall i :: 0 <= i < |ns| ==> ns[i].lo <= ns[i].hi)
    && (forall i, j :: 0 <= i < j < |ns| ==> ns[i].hi < ns[j].lo)
  }

  /** The same, except that interval m may reach into those after it. */
  ghost predicate AlmostOrdered(ns: seq<Interval>, m: int) {
    && (forall i :: 0 <= i < |ns| ==> ns[i].lo <= ns[i].hi)
    && (forall i, j :: 0 <= i < j < |ns| ==> ns[i].lo < ns[j].lo)
    && (forall i, j :: 0 <= i < j < |ns| && i != m ==> ns[i].hi < ns[j].lo)
  }

  ghost predicate In(ns: seq<Interval>, x: int) {
    exists i :: 0 <= i < |ns| && ns[i].lo <= x <= ns[i].hi
  }

  function RangeSet(lo: int, hi: int): (s: set<int>)
    ensures forall x :: x in s <==> lo <= x <= hi
    ensures |s| == if lo <= hi then hi - lo + 1 else 0
    decreases hi - lo
  {
    if hi < lo then {} else RangeSet(lo, hi - 1) + {hi}
  }

  ghost function Members(ns: seq<Interval>): set<int> {
    if ns == [] then {} else Members(ns[..|ns| - 1]) + RangeSet(ns[|ns| - 1].lo, ns[|ns| - 1].hi)
  }

  function Total(ns: seq<Interval>): int {
    if ns == [] then 0 else Total(ns[..|ns| - 1]) + ns[|ns| - 1].hi - ns[|ns| - 1].lo + 1
  }

  lemma {:induction false} MembersIn(ns: seq<Interval>)
    ensures forall x :: x in Members(ns) <==> In(ns, x)
  {
    if ns != [] {
      var front, last := ns[..|ns| - 1], ns[|ns| - 1];
      MembersIn(front);
      forall x ensures x in Members(ns) <==> In(ns, x) {
        if In(front, x) {
          var i :| 0 <= i < |front| && front[i].lo <= x <= front[i].hi;
          assert ns[i] == front[i];
        }
        if In(ns, x) && !(last.lo <= x <= last.hi) {
          var i :| 0 <= i < |ns| && ns[i].lo <= x <= ns[i].hi;
          assert front[i] == ns[i];
        }
      }
    }
  }

  /** The length the lists keep is the number of elements. */
  lemma {:induction false} TotalIsCard(ns: seq<Interval>)
    requires Ordered(ns)
    ensures |Members(ns)| == Total(ns)
  {
    if ns != [] {
      var front, last := ns[..|ns| - 1], ns[|ns| - 1];
      TotalIsCard(front);
      MembersIn(front);
      assert Members(front) !! RangeSet(last.lo, last.hi);
    }
  }

  lemma {:induction false} TotalConcat(a: seq<Interval>, b: seq<Interval>)
    ensures Total(a + b) == Total(a) + Total(b)
    decreases |b|
  {
    if b == [] {
      assert a + b == a;
    } else {
      assert (a + b)[..|a + b| - 1] == a + b[..|b| - 1];
      TotalConcat(a, b[..|b| - 1]);
    }
  }

  lemma InConcat(a: seq<Interval>, b: seq<Interval>, x: int)
    ensures In(a + b, x) <==> In(a, x) || In(b, x)
  {
    if In(a, x) {
      var i :| 0 <= i < |a| && a[i].lo <= x <= a[i].hi;
      assert (a + b)[i] == a[i];
    }
    if In(b, x) {
      var i :| 0 <= i < |b| && b[i].lo <= x <= b[i].hi;
      assert (a + b)[|a| + i] == b[i];
    }
  }

  lemma MembersConcat(a: seq<Interval>, b: seq<Interval>)
    ensures Members(a + b) == Members(a) + Members(b)
  {
    MembersIn(a);
    MembersIn(b);
    MembersIn(a + b);
    forall x ensures x in Members(a + b) <==> x in Members(a) + Members(b) {
      InConcat(a, b, x);
    }
  }

  lemma One(v: Interval)
    ensures Members([v]) == RangeSet(v.lo, v.hi) && Total([v]) == v.hi - v.lo + 1
  {
    assert [v][..0] == [];
  }

  /** Splitting a list around position m. */
  lemma Around(ns: seq<Interval>, m: nat)
    requires m < |ns|
    ensures ns == ns[..m] + [ns[m]] + ns[m + 1..]
    ensures Members(ns) == Members(ns[..m]) + RangeSet(ns[m].lo, ns[m].hi) + Members(ns[m + 1..])
    ensures Total(ns) == Total(ns[..m]) + (ns[m].hi - ns[m].lo + 1) + Total(ns[m + 1..])
  {
    hide Members, Total, RangeSet;
    var front, v, back := ns[..m], ns[m], ns[m + 1..];
    assert ns == front + [v] + back;
    Join(front, v, back);
  }

  lemma Join(front: seq<Interval>, v: Interval, back: seq<Interval>)
    ensures Members(front + [v] + back) == Members(front) + RangeSet(v.lo, v.hi) + Members(back)
    ensures Total(front + [v] + back) == Total(front) + (v.hi - v.lo + 1) + Total(back)
  {
    hide Members, Total, RangeSet;
    MembersConcat(front + [v], back);
    MembersConcat(front, [v]);
    TotalConcat(front + [v], back);
    TotalConcat(front, [v]);
    One(v);
  }

  function Replaced<T>(ns: seq<T>, m: nat, v: T): (r: seq<T>)
    requires m < |ns|
    ensures |r| == |ns| && forall i :: 0 <= i < |ns| ==> r[i] == if i == m then v else ns[i]
  {
    ns[..m] + [v] + ns[m + 1..]
  }

  function Inserted<T>(ns: seq<T>, m: nat, v: T): (r: seq<T>)
    requires m <= |ns|
    ensures |r| == |ns| + 1
    ensures forall i :: 0 <= i < |r| ==> r[i] == if i < m then ns[i] else if i == m then v else ns[i - 1]
  {
    ns[..m] + [v] + ns[m..]
  }

  function Dropped<T>(ns: seq<T>, m: nat): (r: seq<T>)
    requires m < |ns|
    ensures |r| == |ns| - 1 && forall i :: 0 <= i < |r| ==> r[i] == if i < m then ns[i] else ns[i + 1]
  {
    ns[..m] + ns[m + 1..]
  }

  lemma ReplacedSums(ns: seq<Interval>, m: nat, v: Interval)
    requires m < |ns|
    ensures Total(Replaced(ns, m, v)) == Total(ns) - (ns[m].hi - ns[m].lo) + (v.hi - v.lo)
    ensures Members(Replaced(ns, m, v)) == Members(ns[..m]) + RangeSet(v.lo, v.hi) + Members(ns[m + 1..])
  {
    hide Members, Total, RangeSet;
    Around(ns, m);
    Join(ns[..m], v, ns[m + 1..]);
  }

  lemma InsertedSums(ns: seq<Interval>, m: nat, v: Interval)
    requires m <= |ns|
    ensures Total(Inserted(ns, m, v)) == Total(ns) + v.hi - v.lo + 1
    ensures Members(Inserted(ns, m, v)) == Members(ns) + RangeSet(v.lo, v.hi)
  {
    hide Members, Total, RangeSet;
    Join(ns[..m], v, ns[m..]);
    MembersConcat(ns[..m], ns[m..]);
    TotalConcat(ns[..m], ns[m..]);
    assert ns == ns[..m] + ns[m..];
  }

  lemma DroppedSums(ns: seq<Interval>, m: nat)
    requires m < |ns|
    ensures Total(Dropped(ns, m)) == Total(ns) - (ns[m].hi - ns[m].lo + 1)
    ensures Members(ns) == Members(Dropped(ns, m)) + RangeSet(ns[m].lo, ns[m].hi)
  {
    hide Members, Total;
    Around(ns, m);
    MembersConcat(ns[..m], ns[m + 1..]);
    TotalConcat(ns[..m], ns[m + 1..]);
  }

  lemma {:induction false} TotalAtLeast(ns: seq<Interval>)
    requires forall i :: 0 <= i < |ns| ==> ns[i].lo <= ns[i].hi
    ensures Total(ns) >= |ns|
  {
    if ns != [] {
      TotalAtLeast(ns[..|ns| - 1]);
    }
  }

  // ---------- the moves of an insertion ----------

  /** Adding [a, b] as an interval of its own in front of position m. */
  lemma AddInterval(ns: seq<Interval>, m: nat, a: int, b: int)
    requires Ordered(ns) && m <= |ns| && a <= b
    requires m > 0 ==> ns[m - 1].hi < a
    requires m < |ns| ==> a < ns[m].lo
    ensures AlmostOrdered(Inserted(ns, m, Interval(a, b)), m)
    ensures Members(Inserted(ns, m, Interval(a, b))) == Members(ns) + RangeSet(a, b)
    ensures Total(Inserted(ns, m, Interval(a, b))) == Total(ns) + b - a + 1
  {
    hide Ordered, AlmostOrdered, Members, Total, RangeSet;
    AddedInOrder(ns, m, Interval(a, b));
    InsertedSums(ns, m, Interval(a, b));
  }

  lemma AddedInOrder(ns: seq<Interval>, m: nat, v: Interval)
    requires Ordered(ns) && m <= |ns| && v.lo <= v.hi
    requires m > 0 ==> ns[m - 1].hi < v.lo
    requires m < |ns| ==> v.lo < ns[m].lo
    ensures AlmostOrdered(Inserted(ns, m, v), m)
  {
    var r := Inserted(ns, m, v);
    forall i, j | 0 <= i < j < |r| ensures r[i].lo < r[j].lo && (i != m ==> r[i].hi < r[j].lo) {
      var i', j' := if i < m then i else i - 1, if j < m then j else j - 1;
      if i == m {
        assert j' == m || ns[m].hi < ns[j'].lo;
      } else if j == m {
        assert i' == m - 1 || ns[i'].hi < ns[m - 1].lo;
      } else {
        assert ns[i'].hi < ns[j'].lo;
      }
    }
  }

  /** Stretching interval m, which contains a, up to b. */
  lemma StretchInterval(ns: seq<Interval>, m: nat, a: int, b: int)
    requires Ordered(ns) && m < |ns| && ns[m].lo <= a <= ns[m].hi + 1 && ns[m].hi < b
    ensures AlmostOrdered(Replaced(ns, m, Interval(ns[m].lo, b)), m)
    ensures Members(Replaced(ns, m, Interval(ns[m].lo, b))) == Members(ns) + RangeSet(a, b)
    ensures Total(Replaced(ns, m, Interval(ns[m].lo, b))) == Total(ns) + b - ns[m].hi
  {
    hide Ordered, AlmostOrdered, Members, Total, RangeSet;
    StretchedInOrder(ns, m, b);
    ReplacedSums(ns, m, Interval(ns[m].lo, b));
    Around(ns, m);
    RangeUnion(ns[m].lo, ns[m].hi, a, b);
  }

  lemma StretchedInOrder(ns: seq<Interval>, m: nat, b: int)
    requires Ordered(ns) && m < |ns| && ns[m].hi < b
    ensures ns[m].lo <= ns[m].hi && AlmostOrdered(Replaced(ns, m, Interval(ns[m].lo, b)), m)
  {
  }

  lemma RangeUnion(lo: int, h: int, a: int, b: int)
    requires lo <= a <= h + 1 && lo <= h + 1
    ensures RangeSet(lo, h) + RangeSet(a, b) == RangeSet(lo, Max(h, b))
  {
  }

  /** Nothing to add: interval m already contains [a, b]. */
  lemma Contained(ns: seq<Interval>, m: nat, a: int, b: int)
    requires m < |ns| && ns[m].lo <= a && b <= ns[m].hi
    ensures Members(ns) == Members(ns) + RangeSet(a, b)
  {
    hide Members, Total;
    Around(ns, m);
  }

  /** Interval m swallowing its successor. */
  function Absorbed(ns: seq<Interval>, m: nat): seq<Interval>
    requires m + 1 < |ns|
  {
    Dropped(Replaced(ns, m, Interval(ns[m].lo, Max(ns[m].hi, ns[m + 1].hi))), m + 1)
  }

  lemma AbsorbInterval(ns: seq<Interval>, m: nat)
    requires AlmostOrdered(ns, m) && m + 1 < |ns| && ns[m + 1].lo <= ns[m].hi + 1
    ensures AlmostOrdered(Absorbed(ns, m), m)
    ensures Members(Absorbed(ns, m)) == Members(ns)
    ensures Total(Absorbed(ns, m)) == Total(ns) - Max(0, (if ns[m].hi < ns[m + 1].hi then ns[m].hi else ns[m + 1].hi) - ns[m + 1].lo + 1)
  {
    hide AlmostOrdered, Members, Total, RangeSet, Absorbed;
    AbsorbedInOrder(ns, m);
    AbsorbedParts(ns, m);
    AbsorbMembers(ns[..m], ns[m], ns[m + 1], ns[m + 2..]);
    AbsorbTotal(ns[..m], ns[m], ns[m + 1], ns[m + 2..]);
  }

  lemma AbsorbedParts(ns: seq<Interval>, m: nat)
    requires m + 1 < |ns|
    ensures ns == ns[..m] + ([ns[m]] + ([ns[m + 1]] + ns[m + 2..]))
    ensures Absorbed(ns, m) == ns[..m] + ([Interval(ns[m].lo, Max(ns[m].hi, ns[m + 1].hi))] + ns[m + 2..])
  {
  }

  lemma AbsorbMembers(front: seq<Interval>, v: Interval, w: Interval, back: seq<Interval>)
    requires v.lo <= w.lo <= v.hi + 1 && v.lo <= v.hi
    ensures Members(front + ([Interval(v.lo, Max(v.hi, w.hi))] + back)) == Members(front + ([v] + ([w] + back)))
  {
    hide Members, RangeSet, Total;
    MembersConcat(front, [Interval(v.lo, Max(v.hi, w.hi))] + back);
    MembersConcat([Interval(v.lo, Max(v.hi, w.hi))], back);
    MembersConcat(front, [v] + ([w] + back));
    MembersConcat([v], [w] + back);
    MembersConcat([w], back);
    One(v);
    One(w);
    One(Interval(v.lo, Max(v.hi, w.hi)));
    RangeUnion(v.lo, v.hi, w.lo, w.hi);
    UnionAssoc(Members(front), RangeSet(v.lo, v.hi), RangeSet(w.lo, w.hi), Members(back));
  }

  lemma AbsorbTotal(front: seq<Interval>, v: Interval, w: Interval, back: seq<Interval>)
    requires v.lo <= w.lo <= v.hi + 1 && v.lo <= v.hi && w.lo <= w.hi
    ensures Total(front + ([Interval(v.lo, Max(v.hi, w.hi))] + back)) ==
            Total(front + ([v] + ([w] + back))) - Max(0, (if v.hi < w.hi then v.hi else w.hi) - w.lo + 1)
  {
    hide Members, RangeSet, Total;
    TotalConcat(front, [Interval(v.lo, Max(v.hi, w.hi))] + back);
    TotalConcat([Interval(v.lo, Max(v.hi, w.hi))], back);
    TotalConcat(front, [v] + ([w] + back));
    TotalConcat([v], [w] + back);
    TotalConcat([w], back);
    One(v);
    One(w);
    One(Interval(v.lo, Max(v.hi, w.hi)));
  }

  lemma UnionAssoc(a: set<int>, b: set<int>, c: set<int>, d: set<int>)
    ensures a + (b + (c + d)) == a + ((b + c) + d)
  {
  }

  lemma AbsorbedInOrder(ns: seq<Interval>, m: nat)
    requires AlmostOrdered(ns, m) && m + 1 < |ns|
    ensures AlmostOrdered(Absorbed(ns, m), m) && ns[m].lo <= ns[m].hi && ns[m].lo < ns[m + 1].lo <= ns[m + 1].hi
  {
  }

  lemma AlmostIsOrdered(ns: seq<Interval>, m: nat)
    requires AlmostOrdered(ns, m) && m < |ns|
    requires m + 1 < |ns| ==> ns[m].hi < ns[m + 1].lo
    ensures Ordered(ns)
  {
  }
}
