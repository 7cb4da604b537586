/** The receive buffer of buffer.cpp over its array of unit pointers, and the pool the units
    come from.  The ghost field `ring` is the value the array stands for. */
module RcvBuffers {
  import opened Arithmetic
  import opened Records
  import opened RcvRing
  import opened Wrappers

  class CUnit {
    var flag: int        // 0: free, 1: occupied
    var packet: Packet
    ghost var place: int // where a stored unit sits in the array

    constructor (p: Packet)
      ensures flag == 0 && packet == p
    {
      flag, packet := 0, p;
    }
  }

  /** The pointer at array index i stands for slot s; a stored unit is marked occupied, and
      its ghost place makes sure that no unit is stored twice. */
  ghost predicate Holds(u: CUnit?, i: int, s: Option<Packet>)
    reads if u == null then {} else {u}
  {
    if u == null then s.None? else s == Some(u.packet) && u.flag == 1 && u.place == i
  }

  /** The array index k places after position p. */
  function Pos(p: int, k: int, size: int): int {
    if p + k < size then p + k else p + k - size
  }

  lemma PosIsMod(p: int, k: int, size: int)
    requires 0 <= p < size && 0 <= k <= size
    ensures (p + k) % size == if p + k < 2 * size then Pos(p, k, size) else 0
  {
  }

  lemma PosAdds(p: int, a: int, b: int, size: int)
    requires 0 <= p < size && 0 <= a && 0 <= b && a + b < size
    ensures 0 <= Pos(p, a, size) < size
    ensures (Pos(p, a, size) + b) % size == Pos(p, a + b, size)
  {
    PosIsMod(Pos(p, a, size), b, size);
  }

  class RcvBuffer {
    const units: array<CUnit?>
    var startPos: int
    var lastAckPos: int
    var maxPos: int
    var notch: int
    var unitCount: int   // units taken from the shared pool, up to a constant
    ghost var ring: Ring
    ghost var stored: set<CUnit>   // includes every unit in the array

    /** The array, listed from `start` on, stores these slots. */
    ghost predicate Shape(slots: seq<Option<Packet>>, start: int, stored: set<CUnit>)
      reads units, stored
    {
      && |slots| == units.Length && 0 <= start < units.Length
      && (forall i :: 0 <= i < units.Length && units[i] != null ==> units[i] in stored)
      && forall k :: 0 <= k < units.Length ==> Holds(units[Pos(start, k, units.Length)], Pos(start, k, units.Length), slots[k])
    }

    lemma SlotAt(slots: seq<Option<Packet>>, start: int, k: int)
      requires Shape(slots, start, stored) && 0 <= k < |slots|
      ensures 0 <= Pos(start, k, units.Length) < units.Length
      ensures Holds(units[Pos(start, k, units.Length)], Pos(start, k, units.Length), slots[k])
    {
    }

    lemma ShapeSize(slots: seq<Option<Packet>>, start: int)
      requires Shape(slots, start, stored)
      ensures |slots| == units.Length && 0 <= start < units.Length
    {
    }

    ghost predicate Valid()
      reads this, units, stored
    {
      && ring.Valid() && Shape(ring.slots, startPos, stored)
      && lastAckPos == Pos(startPos, ring.ready, units.Length)
      && maxPos == ring.maxPos && notch == ring.notch
    }

    constructor (size: nat)
      requires size > 0
      ensures Valid() && fresh(units)
      ensures ring == Ring(seq(size, _ => None), 0, 0, 0)
    {
      units := new CUnit?[size](_ => null);
      startPos, lastAckPos, maxPos, notch, unitCount := 0, 0, 0, 0, 0;
      ring, stored := Ring(seq(size, _ => None), 0, 0, 0), {};
    }

    method GetRcvDataSize() returns (n: int)
      requires Valid()
      ensures n == ring.ready
    {
      n := if lastAckPos >= startPos then lastAckPos - startPos else units.Length + lastAckPos - startPos;
    }

    method GetAvailBufSize() returns (n: int)
      requires Valid()
      ensures n == ring.Avail() == units.Length - ring.ready - 1
    {
      var d := GetRcvDataSize();
      n := units.Length - d - 1;
    }

    /** Store a unit `offset` places after the acknowledged position.  Returns -1 for a
        duplicate, and otherwise the length of the newly contiguous run. */
    method AddData(unit: CUnit, offset: nat) returns (n: int)
      requires Valid() && unit.flag == 0 && offset < ring.Avail()
      modifies this`lastAckPos, this`maxPos, this`unitCount, this`ring, this`stored, units, unit`flag, unit`place
      ensures Valid()
      ensures n == -1 <==> old(ring).slots[old(ring).ready + offset].Some?
      ensures n == -1 ==> ring == old(ring) && unit.flag == 0
      ensures n != -1 ==>
                && ring == Added(old(ring), unit.packet, offset) && n == ring.ready - old(ring).ready >= 0
                && unit.flag == 1
    {
      hide Shape, Added, Run, Ring.Valid, Pos;
      ShapeSize(ring.slots, startPos);
      SlotAt(ring.slots, startPos, ring.ready + offset);
      PosAdds(startPos, ring.ready, offset, units.Length);
      FarSlotsEmpty(ring, offset);
      var pos := (lastAckPos + offset) % units.Length;
      if offset > maxPos {
        maxPos := offset;
      }
      if units[pos] != null {
        return -1;
      }
      Store(unit, pos, offset);
      n := FindRun(unit.packet, offset);
    }

    /** Put the unit in its empty slot. */
    method Store(unit: CUnit, pos: int, offset: nat)
      requires Shape(ring.slots, startPos, stored) && ring.ready + offset < |ring.slots|
      requires pos == Pos(startPos, ring.ready + offset, units.Length) && units[pos] == null
      requires unit.flag == 0
      modifies this`unitCount, this`stored, units, unit`flag, unit`place
      ensures unit.flag == 1
      ensures Shape(ring.slots[ring.ready + offset := Some(unit.packet)], startPos, stored)
    {
      units[pos] := unit;
      unit.flag, unit.place := 1, pos;
      unitCount := unitCount + 1;
      stored := stored + {unit};
    }

    /** Scan from the acknowledged position to the first empty slot.  The scan always meets
        one: the message "Full Buffer" after the loop is unreachable. */
    method FirstEmpty(ghost slots: seq<Option<Packet>>, ghost ready: nat) returns (i: int, pos: int)
      requires Shape(slots, startPos, stored) && lastAckPos == Pos(startPos, ready, units.Length)
      requires 0 <= maxPos && ready + maxPos + 1 < |slots| && slots[ready + maxPos + 1].None?
      ensures i == Run(slots, ready) && pos == Pos(startPos, ready + i, units.Length)
    {
      hide Shape, Pos;
      ShapeSize(slots, startPos);
      RunStops(slots, ready, maxPos + 1);
      i := 0;
      while i <= maxPos + 1
        invariant 0 <= i <= Run(slots, ready) <= maxPos + 1
      {
        PosAdds(startPos, ready, i, units.Length);
        pos := (lastAckPos + i) % units.Length;
        SlotAt(slots, startPos, ready + i);
        if units[pos] == null {
          return;
        }
        i := i + 1;
      }
      assert false;
      pos := 0;
    }

    /** A packet has been stored, and the acknowledged position not yet moved. */
    ghost predicate Pending(p: Packet, offset: int)
      reads this, units, stored
    {
      && ring.Valid() && 0 <= offset < ring.Avail() && ring.slots[ring.ready + offset].None?
      && Shape(ring.slots[ring.ready + offset := Some(p)], startPos, stored)
      && lastAckPos == Pos(startPos, ring.ready, units.Length)
      && maxPos == Max(ring.maxPos, offset) && notch == ring.notch
    }

    /** Advance the acknowledged position past the contiguous run. */
    method FindRun(ghost p: Packet, ghost offset: nat) returns (n: int)
      requires Pending(p, offset)
      modifies this`lastAckPos, this`maxPos, this`ring
      ensures Valid() && ring == Added(old(ring), p, offset) && n == ring.ready - old(ring).ready >= 0
    {
      hide Shape, Ring.Valid, Added, Run, Pos;
      AddedFields(ring, p, offset);
      var pos: int;
      n, pos := FirstEmpty(ring.slots[ring.ready + offset := Some(p)], ring.ready);
      Acknowledge(pos, n, p, offset);
    }

    method Acknowledge(pos: int, i: int, ghost p: Packet, ghost offset: nat)
      requires Pending(p, offset) && i == Run(ring.slots[ring.ready + offset := Some(p)], ring.ready)
      requires pos == Pos(startPos, ring.ready + i, units.Length)
      modifies this`lastAckPos, this`maxPos, this`ring
      ensures Valid() && ring == Added(old(ring), p, offset) && i == ring.ready - old(ring).ready >= 0
    {
      hide Shape, Ring.Valid, Added, Run, Pos;
      AddedFields(ring, p, offset);
      AddedIsValid(ring, p, offset);
      lastAckPos := pos;
      maxPos := maxPos - i;
      if maxPos < 0 {
        maxPos := 0;
      }
      ring := Added(ring, p, offset);
    }

    /** Copy at most `len` ready bytes out, freeing the slots that are used up. */
    method ReadBuffer(len: int) returns (data: Payload)
      requires Valid()
      modifies this`startPos, this`notch, this`unitCount, this`ring, units, stored
      ensures Valid() && old(ring).Valid() && ring == Taken(old(ring), len)
      ensures old(ring).ReadyBytes() == data + ring.ReadyBytes()
      ensures |data| == Min(Max(len, 0), |old(ring).ReadyBytes()|)
    {
      hide Ring.Valid, Ring.ReadyBytes, Shape, Taken;
      data := [];
      var rs := len;
      ghost var r0 := ring;
      while startPos != lastAckPos && rs > 0
        invariant Valid() && r0.Valid() && Taken(ring, rs) == Taken(r0, len)
        invariant r0.ReadyBytes() == data + ring.ReadyBytes()
        invariant if len < 0 then data == [] && rs == len else |data| + rs == len && rs >= 0
        decreases ring.ready, rs
      {
        var chunk := ReadOne(rs);
        data, rs := data + chunk, rs - |chunk|;
      }
      ReadEnds(rs);
    }

    /** When the loop of `readBuffer` stops, the request is filled or nothing is ready. */
    lemma ReadEnds(rs: int)
      requires Valid() && (startPos == lastAckPos || rs <= 0)
      ensures Taken(ring, rs) == ring && (rs > 0 ==> ring.ReadyBytes() == [])
    {
    }

    /** One round of the loop of `readBuffer`, on the first ready packet. */
    method ReadOne(rs: int) returns (chunk: Payload)
      requires Valid() && startPos != lastAckPos && rs > 0
      modifies this`startPos, this`notch, this`unitCount, this`ring, units, stored
      ensures Valid() && old(ring).Valid() && Taken(old(ring), rs) == Taken(ring, rs - |chunk|)
      ensures old(ring).ReadyBytes() == chunk + ring.ReadyBytes() && |chunk| <= rs
      ensures ring.ready < old(ring).ready || (ring.ready == old(ring).ready && |chunk| == rs)
    {
      hide Shape, Popped, Notched, Ring.Valid, Ring.ReadyBytes, Taken, Pos;
      var whole: bool;
      chunk, whole := FirstBytes(rs);
      if whole {
        FreeFirst();
      } else {
        TakePart(rs);
      }
    }

    /** The bytes to copy from the first packet, and whether they use it up. */
    method FirstBytes(rs: int) returns (chunk: Payload, whole: bool)
      requires Valid() && startPos != lastAckPos && rs > 0
      ensures ring.ready > 0 && |ring.slots| > 0 && |chunk| <= rs
      ensures whole ==>
                && Popped(ring).Valid() && Popped(ring).ready < ring.ready
                && ring.ReadyBytes() == chunk + Popped(ring).ReadyBytes()
                && Taken(ring, rs) == Taken(Popped(ring), rs - |chunk|)
      ensures !whole ==>
                && |chunk| == rs && Notched(ring, rs).Valid() && Notched(ring, rs).ready == ring.ready
                && Taken(ring, rs) == Taken(Notched(ring, rs), 0)
                && ring.ReadyBytes() == chunk + Notched(ring, rs).ReadyBytes()
    {
      hide Shape, Ring.ReadyBytes, Pos;
      ReadyNonempty();
      PoppedReads(ring);
      var payload := units[startPos].packet.payload;
      var unitSize := |payload| - notch;
      if unitSize > rs {
        unitSize := rs;
      }
      chunk := payload[notch..notch + unitSize];
      whole := rs > unitSize || rs == |payload| - notch;
      if whole {
        assert chunk == payload[notch..];
      } else {
        NotchedReads(ring, rs);
        assert chunk == payload[notch..][..rs];
      }
    }

    method TakePart(n: nat)
      requires Valid() && Notched(ring, n).Valid()
      modifies this`notch, this`ring
      ensures Valid() && ring == Notched(old(ring), n)
    {
      hide Shape, Ring.Valid, Pos;
      notch := notch + n;
      ring := Notched(ring, n);
    }

    lemma ReadyNonempty()
      requires Valid() && startPos != lastAckPos
      ensures ring.ready > 0 && |ring.slots| == units.Length && 0 <= startPos < units.Length
      ensures units[startPos] != null && 0 <= ring.notch <= |units[startPos].packet.payload|
      ensures notch == ring.notch && ring.slots[0] == Some(units[startPos].packet) 
    {
      SlotAt(ring.slots, startPos, 0);
    }

    /** Give the first unit back to the pool and step to the next slot. */
    method FreeFirst()
      requires Valid() && ring.ready > 0 && Popped(ring).Valid()
      modifies this`startPos, this`notch, this`unitCount, this`ring, units, stored
      ensures Valid() && ring == Popped(old(ring))
      ensures old(units[startPos]) != null && old(units[startPos]).flag == 0
    {
      hide Ring.Valid, Shape;
      ShapeSize(ring.slots, startPos);
      FirstSlot(ring);
      ClearFirst();
      unitCount := unitCount - 1;
      startPos := if startPos + 1 == units.Length then 0 else startPos + 1;
      notch := 0;
      ring := Popped(ring);
    }

    method ClearFirst()
      requires Shape(ring.slots, startPos, stored) && |ring.slots| > 0 && ring.slots[0].Some?
      modifies units, stored
      ensures old(units[startPos]) != null && old(units[startPos]).flag == 0
      ensures Shape(ring.slots[1..] + [None], if startPos + 1 == units.Length then 0 else startPos + 1, stored)
    {
      SlotAt(ring.slots, startPos, 0);
      var unit := units[startPos];
      units[startPos] := null;
      unit.flag := 0;
      ghost var next, slots := if startPos + 1 == units.Length then 0 else startPos + 1, ring.slots[1..] + [None];
      forall k | 0 <= k < units.Length
        ensures Holds(units[Pos(next, k, units.Length)], Pos(next, k, units.Length), slots[k])
      {
        if k + 1 < units.Length {
          assert Pos(next, k, units.Length) == Pos(startPos, k + 1, units.Length);
        }
      }
    }
  }
}
