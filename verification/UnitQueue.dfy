/** The pool of packet units (`CUnitQueue` in queue.cpp): a circular list of entries, searched from
    where the last free unit was found. */
module UnitQueues {
  import opened RcvRing
  import opened RcvBuffers

  /** Units in use in one entry. */
  ghost function Used(entry: seq<CUnit>): nat
    reads entry`flag
  {
    if entry == [] then 0 else Used(entry[..|entry| - 1]) + if entry[|entry| - 1].flag != 0 then 1 else 0
  }

  /** All units of the pool. */
  ghost function All(entries: seq<seq<CUnit>>): seq<CUnit> {
    if entries == [] then [] else All(entries[..|entries| - 1]) + entries[|entries| - 1]
  }

  lemma {:induction false} UsedConcat(a: seq<CUnit>, b: seq<CUnit>)
    ensures Used(a + b) == Used(a) + Used(b)
    decreases |b|
  {
    if b == [] {
      assert a + b == a;
    } else {
      assert (a + b)[..|a + b| - 1] == a + b[..|b| - 1];
      UsedConcat(a, b[..|b| - 1]);
    }
  }

  lemma {:induction false} UsedBound(entry: seq<CUnit>)
    ensures Used(entry) <= |entry|
  {
    if entry != [] {
      UsedBound(entry[..|entry| - 1]);
    }
  }

  /** The places of the units in use. */
  ghost function InUse(entry: seq<CUnit>): set<int>
    reads entry`flag
  {
    set j | 0 <= j < |entry| && entry[j].flag != 0
  }

  /** Counting them gives their number. */
  lemma {:induction false} UsedIsCard(entry: seq<CUnit>)
    ensures Used(entry) == |InUse(entry)|
  {
    if entry == [] {
      assert InUse(entry) == {};
    } else {
      var n := |entry| - 1;
      UsedIsCard(entry[..n]);
      assert InUse(entry) == InUse(entry[..n]) + if entry[n].flag != 0 then {n} else {};
    }
  }

  lemma {:induction false} AllLength(entries: seq<seq<CUnit>>, n: nat)
    requires forall i :: 0 <= i < |entries| ==> |entries[i]| == n
    ensures |All(entries)| == |entries| * n
  {
    if entries != [] {
      AllLength(entries[..|entries| - 1], n);
      assert |entries| * n == (|entries| - 1) * n + n;
    }
  }

  /** A search of the entry from this place finds nothing: from there on every unit but the last is in
      use, and the first one in any case. */
  ghost predicate Busy(entry: seq<CUnit>, from: int)
    reads entry`flag
  {
    entry != [] && entry[0].flag != 0 && forall j :: 0 <= from <= j < |entry| - 1 ==> entry[j].flag != 0
  }

  /** Nine tenths of the units are in use. */
  ghost predicate NearlyUsed(entries: seq<seq<CUnit>>, size: int)
    reads All(entries)`flag
  {
    Used(All(entries)) * 10 >= size * 9
  }

  /** A search of all entries from a remembered place finds nothing. */
  ghost predicate Exhausted(entries: seq<seq<CUnit>>, curr: int, avail: int)
    reads set i, j | 0 <= i < |entries| && 0 <= j < |entries[i]| :: entries[i][j]
  {
    && 0 <= curr < |entries| && Busy(entries[curr], avail)
    && forall i :: 0 <= i < |entries| && i != curr ==> Busy(entries[i], 0)
  }

  /** Then the only free units are last ones of entries with others, and, in the current entry, those
      between its first one and the remembered place. */
  lemma ExhaustedMeans(entries: seq<seq<CUnit>>, curr: int, avail: int)
    requires 0 <= curr < |entries| && 0 <= avail && forall i :: 0 <= i < |entries| ==> entries[i] != []
    ensures Exhausted(entries, curr, avail) <==>
            forall i, j :: 0 <= i < |entries| && 0 <= j < |entries[i]| && entries[i][j].flag == 0 ==>
              j > 0 && (j == |entries[i]| - 1 || (i == curr && j < avail))
  {
    forall i | 0 <= i < |entries|
      ensures Busy(entries[i], if i == curr then avail else 0) <==>
              forall j :: 0 <= j < |entries[i]| && entries[i][j].flag == 0 ==> j > 0 && (j == |entries[i]| - 1 || (i == curr && j < avail))
    {
      BusyMeans(entries[i], if i == curr then avail else 0);
    }
  }

  lemma BusyMeans(entry: seq<CUnit>, from: nat)
    requires entry != []
    ensures Busy(entry, from) <==> forall j :: 0 <= j < |entry| && entry[j].flag == 0 ==> j > 0 && (j == |entry| - 1 || j < from)
  {
    if forall j :: 0 <= j < |entry| && entry[j].flag == 0 ==> j > 0 && (j == |entry| - 1 || j < from) {
      assert entry[0].flag != 0;
    }
  }

  /** A new entry is free. */
  lemma GrownNotExhausted(entries: seq<seq<CUnit>>, curr: int, avail: int)
    requires 0 <= curr < |entries| - 1 && entries[|entries| - 1] != [] && entries[|entries| - 1][0].flag == 0
    ensures !Exhausted(entries, curr, avail)
  {
  }

  class UnitQueue {
    var entries: seq<seq<CUnit>>
    var curr: int
    var avail: int
    var count: int
    var size: int
    const entrySize: int

    ghost predicate Valid()
      reads this
    {
      && entrySize > 0 && 0 <= curr < |entries| && 0 <= avail < entrySize
      && (forall i :: 0 <= i < |entries| ==> |entries[i]| == entrySize)
      && size == |entries| * entrySize
    }

    /** `init`: one entry of free units. */
    constructor (size: int, blank: Packet)
      requires size > 0
      ensures Valid() && entrySize == size && |entries| == 1 && curr == avail == count == 0
      ensures var entry := entries[0];
              && (forall j :: 0 <= j < size ==> fresh(entry[j]) && entry[j].flag == 0)
              && (forall i, j :: 0 <= i < j < size ==> entry[i] != entry[j])
    {
      entrySize, this.size, curr, avail, count := size, size, 0, 0, 0;
      var entry := NewEntry(size, blank);
      entries := [entry];
    }

    /** A search makes room first: the count is above nine tenths, and recounting confirms it. */
    ghost predicate Grows()
      reads this, All(entries)`flag
    {
      count * 10 > size * 9 && NearlyUsed(entries, size)
    }

    /** The first loops of `increase`: counts the units that are really in use. */
    method CountUsed() returns (n: int)
      requires Valid()
      ensures n == Used(All(entries))
    {
      n := 0;
      for i := 0 to |entries|
        invariant n == Used(All(entries[..i]))
      {
        var entry := entries[i];
        assert entries[..i + 1][..i] == entries[..i];
        var k := 0;
        for j := 0 to |entry|
          invariant k == Used(entry[..j])
        {
          assert entry[..j + 1][..j] == entry[..j];
          if entry[j].flag != 0 {
            k := k + 1;
          }
        }
        assert entry[..|entry|] == entry;
        UsedConcat(All(entries[..i]), entry);
        n := n + k;
      }
      assert entries[..|entries|] == entries;
    }

    method Recount()
      requires Valid()
      modifies this`count
      ensures count == old(Used(All(entries))) == Used(All(entries))
    {
      hide Used, All;
      count := CountUsed();
      assert Used(All(entries)) == old(Used(All(entries)));
    }

    method AddEntry(blank: Packet)
      requires Valid()
      modifies this`entries, this`size
      ensures Valid() && |entries| == |old(entries)| + 1 && entries[..|old(entries)|] == old(entries)
      ensures var entry := entries[|entries| - 1]; forall j :: 0 <= j < entrySize ==> fresh(entry[j]) && entry[j].flag == 0
      ensures Used(All(old(entries))) == old(Used(All(entries)))
    {
      hide Used, All;
      ghost var q := entries;
      var entry := NewEntry(entrySize, blank);
      assert Used(All(q)) == old(Used(All(entries)));
      entries := entries + [entry];
      size := size + entrySize;
      assert Used(All(q)) == old(Used(All(entries)));
    }

    /** `increase`: adds an entry when nine tenths of the units are really in use. */
    method Increase(blank: Packet) returns (grown: bool)
      requires Valid()
      modifies this`entries, this`count, this`size
      ensures Valid() && count == old(Used(All(entries))) == Used(All(old(entries)))
      ensures grown <==> count * 10 >= old(size) * 9
      ensures if grown then |entries| == |old(entries)| + 1 && entries[..|old(entries)|] == old(entries) else entries == old(entries)
      ensures forall i :: |old(entries)| <= i < |entries| ==> forall j :: 0 <= j < entrySize ==> fresh(entries[i][j]) && entries[i][j].flag == 0
    {
      hide Used, All;
      Recount();
      if count * 10 < size * 9 {
        return false;
      }
      AddEntry(blank);
      return true;
    }

    /** There is always a unit left by the time `getNextAvailUnit` compares the count with the size. */
    lemma CountBelowSize()
      requires Valid() && size > 0
      ensures Used(All(entries)) <= size
    {
      AllLength(entries, entrySize);
      UsedBound(All(entries));
    }

    /** The search of one entry, from the remembered place up to its last unit but one, and then the
        first unit. */
    method SearchEntry() returns (unit: CUnit?)
      requires Valid()
      modifies this`avail
      ensures Valid()
      ensures unit == null <==> Busy(entries[curr], old(avail))
      ensures unit != null ==> unit.flag == 0 && unit == entries[curr][avail] && (old(avail) <= avail < entrySize - 1 || avail == 0)
    {
      while avail != entrySize - 1
        invariant Valid() && old(avail) <= avail
        invariant forall j :: old(avail) <= j < avail ==> entries[curr][j].flag != 0
        decreases entrySize - avail
      {
        if entries[curr][avail].flag == 0 {
          return entries[curr][avail];
        }
        avail := avail + 1;
      }
      if entries[curr][0].flag == 0 {
        avail := 0;
        return entries[curr][0];
      }
      return null;
    }

    /** The loop over the entries, once around. */
    method Search() returns (unit: CUnit?)
      requires Valid()
      modifies this`avail, this`curr
      ensures Valid()
      ensures unit == null <==> Exhausted(entries, old(curr), old(avail))
      ensures unit == null ==> curr == old(curr) && avail == 0
      ensures unit != null ==> unit.flag == 0 && unit == entries[curr][avail] && (avail < entrySize - 1 || avail == 0)
    {
      hide Busy;
      var entrance := curr;
      unit := SearchEntry();
      if unit != null {
        return;
      }
      curr := Next(curr);
      avail := 0;
      while curr != entrance
        invariant Valid() && entrance == old(curr) && unit == null && avail == 0
        invariant forall i :: 0 <= i < |entries| && Between(entrance, i, curr, |entries|) ==> Busy(entries[i], 0)
        decreases if curr > entrance then |entries| - curr + entrance else entrance - curr
      {
        unit := SearchEntry();
        if unit != null {
          return;
        }
        curr := Next(curr);
        avail := 0;
      }
    }

    function Next(i: int): int
      reads this
      requires 0 <= i < |entries|
    {
      if i + 1 < |entries| then i + 1 else 0
    }

    /** `getNextAvailUnit`: a unit that comes out is a free one of the pool, and never the last one of an
        entry with others.  None comes out exactly when there is no reason to grow and the search, which
        skips those last units and what lies before the remembered place, finds nothing. */
    method GetNextAvailUnit(blank: Packet) returns (unit: CUnit?)
      requires Valid()
      modifies this
      ensures Valid()
      ensures unit == null <==> old(!Grows() && Exhausted(entries, curr, avail))
      ensures unit != null ==> unit.flag == 0 && unit == entries[curr][avail] && (avail < entrySize - 1 || avail == 0)
      ensures unit == null ==> curr == old(curr) && avail == 0
      ensures if old(Grows()) || (unit == null && old(NearlyUsed(entries, size))) then
                |entries| == |old(entries)| + 1 && entries[..|old(entries)|] == old(entries)
              else entries == old(entries)
    {
      hide Busy, Used, All, Exhausted, UnitQueue.Grows;
      MakeRoom(blank);
      if count >= size {
        return null;
      }
      unit := Search();
      assert Used(All(old(entries))) == old(Used(All(entries)));
      if unit == null {
        LastTry(blank);
      }
    }

    /** The first step.  It leaves more units than the count says are used. */
    method MakeRoom(blank: Packet)
      requires Valid()
      modifies this`entries, this`count, this`size
      ensures Valid() && count < size
      ensures if old(Grows()) then
                && |entries| == |old(entries)| + 1 && entries[..|old(entries)|] == old(entries)
                && !Exhausted(entries, curr, avail)
              else entries == old(entries)
      ensures Used(All(old(entries))) == old(Used(All(entries)))
      ensures Exhausted(old(entries), curr, avail) == old(Exhausted(entries, curr, avail))
    {
      hide Used, All, Busy, Exhausted;
      CountBelowSize();
      if count * 10 > size * 9 {
        var grown := Increase(blank);
        if grown {
          GrownNotExhausted(entries, curr, avail);
        }
      }
    }

    /** The last step: no unit comes out of the entry that it may add. */
    method LastTry(blank: Packet)
      requires Valid()
      modifies this`entries, this`count, this`size
      ensures Valid()
      ensures if old(NearlyUsed(entries, size)) then |entries| == |old(entries)| + 1 && entries[..|old(entries)|] == old(entries)
              else entries == old(entries)
    {
      hide Used, All;
      var grown := Increase(blank);
    }
  }

  method NewEntry(size: int, blank: Packet) returns (entry: seq<CUnit>)
    requires size > 0
    ensures |entry| == size && forall j :: 0 <= j < size ==> fresh(entry[j]) && entry[j].flag == 0
    ensures forall i, j :: 0 <= i < j < size ==> entry[i] != entry[j]
  {
    entry := [];
    for i := 0 to size
      invariant |entry| == i && forall j :: 0 <= j < i ==> fresh(entry[j]) && entry[j].flag == 0
      invariant forall k, j :: 0 <= k < j < i ==> entry[k] != entry[j]
    {
      var unit := new CUnit(blank);
      entry := entry + [unit];
    }
  }

  /** Strictly between a and c, going up around a circle of n. */
  predicate Between(a: int, i: int, c: int, n: int) {
    if a < c then a < i < c else a < i < n || 0 <= i < c
  }

  /** A unit that holds a packet nobody has read yet is not handed out again: handed-out units are
      free, and stored ones are not. */
  lemma StoredIsNotFree(b: RcvBuffer, unit: CUnit)
    requires b.Valid() && unit.flag == 0
    ensures forall i :: 0 <= i < b.units.Length ==> b.units[i] != unit
  {
    forall i | 0 <= i < b.units.Length ensures b.units[i] != unit {
      var k := if i >= b.startPos then i - b.startPos else i - b.startPos + b.units.Length;
      b.SlotAt(b.ring.slots, b.startPos, k);
    }
  }
}
