/** The receive ring of buffer.cpp as a value: its slots listed from the read position on. */
module RcvRing {
  import opened Arithmetic
  import opened Records
  import opened Wrappers

  datatype Packet = Packet(seqNo: int, msgNo: int, payload: Payload)

  /** `slots[..ready]` wait to be read, `slots[ready..]` are out-of-order arrivals and holes;
      `maxPos` is the offset of the furthest arrival, `notch` counts the bytes already
      read from the first packet. */
  datatype Ring = Ring(slots: seq<Option<Packet>>, ready: nat, maxPos: int, notch: nat) {

    ghost predicate Valid() {
      && ready < |slots|
      && (forall k :: 0 <= k < ready ==> slots[k].Some?)
      && slots[ready].None? && slots[|slots| - 1].None?
      && (maxPos == 0 || (0 < maxPos < Avail() && slots[ready + maxPos].Some?))
      && (forall k :: ready + maxPos < k < |slots| ==> slots[k].None?)
      && (if ready == 0 then notch == 0 else notch <= |slots[0].value.payload|)
    }

    function Avail(): int {
      |slots| - ready - 1
    }

    /** The bytes a reader can take now, in order. */
    ghost function ReadyBytes(): Payload
      requires Valid()
    {
      Bytes(slots[..ready])[notch..]
    }
  }

  function Bytes(slots: seq<Option<Packet>>): Payload {
    if slots == [] then []
    else (if slots[0].Some? then slots[0].value.payload else []) + Bytes(slots[1..])
  }

  /** How many consecutive slots are occupied from position i on. */
  function Run(slots: seq<Option<Packet>>, i: nat): (n: nat)
    requires i <= |slots|
    ensures i + n <= |slots|
    ensures forall k :: i <= k < i + n ==> slots[k].Some?
    ensures i + n < |slots| ==> slots[i + n].None?
    decreases |slots| - i
  {
    if i == |slots| || slots[i].None? then 0 else 1 + Run(slots, i + 1)
  }

  /** The effect of `addData` on an empty slot inside the available window. */
  function Added(r: Ring, p: Packet, offset: nat): Ring
    requires r.ready + offset < |r.slots|
  {
    var slots := r.slots[r.ready + offset := Some(p)];
    var n := Run(slots, r.ready);
    Ring(slots, r.ready + n, Max(Max(r.maxPos, offset) - n, 0), r.notch)
  }

  lemma AddedIsValid(r: Ring, p: Packet, offset: nat)
    requires r.Valid() && offset < r.Avail() && r.slots[r.ready + offset].None?
    ensures Added(r, p, offset).Valid()
  {
    RunStops(Added(r, p, offset).slots, r.ready, Max(r.maxPos, offset) + 1);
  }

  /** Arrivals keep the ring well formed, never fill it, and move only newly contiguous
      packets to the ready part. */
  lemma AddedValid(r: Ring, p: Packet, offset: nat)
    requires r.Valid() && offset < r.Avail() && r.slots[r.ready + offset].None?
    ensures Added(r, p, offset).Valid()
    ensures offset == 0 || Added(r, p, offset).ready == r.ready
    ensures Added(r, p, offset).ready - r.ready <= Max(r.maxPos, offset) + 1
    ensures Added(r, p, offset).ReadyBytes() ==
            r.ReadyBytes() + Bytes(Added(r, p, offset).slots[r.ready..Added(r, p, offset).ready])
  {
    var r' := Added(r, p, offset);
    AddedIsValid(r, p, offset);
    RunStops(r'.slots, r.ready, Max(r.maxPos, offset) + 1);
    AddedBytes(r, p, offset);
  }

  lemma AddedBytes(r: Ring, p: Packet, offset: nat)
    requires r.Valid() && offset < r.Avail() && r.slots[r.ready + offset].None?
    ensures var r' := Added(r, p, offset);
            && r.notch <= |Bytes(r.slots[..r.ready])|
            && Bytes(r'.slots[..r'.ready])[r.notch..] ==
               Bytes(r.slots[..r.ready])[r.notch..] + Bytes(r'.slots[r.ready..r'.ready])
  {
    var r' := Added(r, p, offset);
    assert r'.slots[..r'.ready] == r.slots[..r.ready] + r'.slots[r.ready..r'.ready];
    BytesConcat(r.slots[..r.ready], r'.slots[r.ready..r'.ready]);
    if r.ready > 0 {
      BytesAtLeast(r.slots[..r.ready]);
    }
  }

  lemma RunStops(slots: seq<Option<Packet>>, i: nat, k: nat)
    requires i + k < |slots| && slots[i + k].None?
    ensures Run(slots, i) <= k
  {
  }

  lemma {:induction false} BytesConcat(a: seq<Option<Packet>>, b: seq<Option<Packet>>)
    ensures Bytes(a + b) == Bytes(a) + Bytes(b)
  {
    if a == [] {
      assert a + b == b;
    } else {
      assert (a + b)[1..] == a[1..] + b;
      BytesConcat(a[1..], b);
    }
  }

  lemma BytesAtLeast(a: seq<Option<Packet>>)
    requires a != [] && a[0].Some?
    ensures |a[0].value.payload| <= |Bytes(a)|
  {
  }

  /** Reading part of the first packet. */
  function Notched(r: Ring, n: nat): Ring {
    r.(notch := r.notch + n)
  }

  /** Reading the rest of the first packet and freeing its slot. */
  function Popped(r: Ring): Ring
    requires |r.slots| > 0 && r.ready > 0
  {
    Ring(r.slots[1..] + [None], r.ready - 1, r.maxPos, 0)
  }

  lemma NotchedReads(r: Ring, n: nat)
    requires r.Valid() && r.ready > 0 && r.notch + n <= |r.slots[0].value.payload|
    ensures Notched(r, n).Valid()
    ensures |r.ReadyBytes()| >= n && Notched(r, n).ReadyBytes() == r.ReadyBytes()[n..]
    ensures r.ReadyBytes()[..n] == r.slots[0].value.payload[r.notch..][..n]
  {
    BytesAtLeast(r.slots[..r.ready]);
  }

  lemma PoppedReads(r: Ring)
    requires r.Valid() && r.ready > 0
    ensures Popped(r).Valid()
    ensures var rest := r.slots[0].value.payload[r.notch..];
            r.ReadyBytes() == rest + Popped(r).ReadyBytes()
  {
    BytesAtLeast(r.slots[..r.ready]);
    assert r.slots[..r.ready][1..] == Popped(r).slots[..r.ready - 1];
  }

  /** The ring after at most `rs` bytes have been read. */
  function Taken(r: Ring, rs: int): Ring
    requires r.Valid()
    decreases r.ready
  {
    if rs <= 0 || r.ready == 0 then r
    else
      var rest := |r.slots[0].value.payload| - r.notch;
      if rest <= rs then (PoppedReads(r); Taken(Popped(r), rs - rest)) else Notched(r, rs)
  }

  /** Reading takes exactly the next bytes: as many as were asked for or were there. */
  lemma {:induction false} TakenReads(r: Ring, rs: int) returns (data: Payload)
    requires r.Valid()
    ensures Taken(r, rs).Valid() && |Taken(r, rs).slots| == |r.slots|
    ensures r.ReadyBytes() == data + Taken(r, rs).ReadyBytes()
    ensures |data| == Min(Max(rs, 0), |r.ReadyBytes()|)
    decreases r.ready
  {
    hide Ring.ReadyBytes, Bytes, Popped, Notched;
    data := [];
    if rs > 0 && r.ready > 0 {
      FirstSlot(r);
      var rest := r.slots[0].value.payload[r.notch..];
      PoppedReads(r);
      PoppedSize(r);
      if |rest| <= rs {
        var more := TakenReads(Popped(r), rs - |rest|);
        data := rest + more;
      } else {
        NotchedReads(r, rs);
        data := rest[..rs];
      }
    } else {
      NothingReady(r);
    }
  }

  lemma PoppedSize(r: Ring)
    requires r.Valid() && r.ready > 0
    ensures |r.slots| > 0 && |Popped(r).slots| == |r.slots| && Popped(r).ready == r.ready - 1
    ensures forall n: nat :: |Notched(r, n).slots| == |r.slots|
  {
  }

  lemma AddedFields(r: Ring, p: Packet, offset: nat)
    requires r.Valid() && offset < r.Avail() && r.slots[r.ready + offset].None?
    ensures var r', m := Added(r, p, offset), Max(r.maxPos, offset);
            && r'.slots == r.slots[r.ready + offset := Some(p)] && r'.notch == r.notch
            && r'.ready == r.ready + Run(r'.slots, r.ready)
            && r'.maxPos == Max(m - Run(r'.slots, r.ready), 0)
            && 0 <= m && r.ready + m + 1 < |r'.slots| && r'.slots[r.ready + m + 1].None?
  {
  }

  lemma NothingReady(r: Ring)
    requires r.Valid()
    ensures r.ready == 0 ==> r.ReadyBytes() == []
  {
  }

  lemma FarSlotsEmpty(r: Ring, offset: nat)
    requires r.Valid() && offset < r.Avail()
    ensures r.slots[r.ready + offset].Some? ==> offset <= r.maxPos
  {
  }

  lemma FirstSlot(r: Ring)
    requires r.Valid() && r.ready > 0
    ensures |r.slots| > 0 && r.slots[0].Some? && r.ready < |r.slots|
  {
  }
}
