/** The receiving side of one socket (`processData` and `recv` in core.cpp). */
module Receiver {
  import opened Arithmetic
  import opened Records
  import opened SeqNo
  import opened RcvRing
  import opened RcvBuffers
  import opened Wrappers

  /** `lastAck` is the number of the next packet expected in order. */
  datatype ReceiverState = ReceiverState(ring: Ring, lastAck: SeqNum)

  predicate Storable(st: ReceiverState, p: Packet)
    requires 0 <= p.seqNo < MODULUS
  {
    var offset := SeqOff(st.lastAck, p.seqNo);
    && 0 <= offset < st.ring.Avail()
    && (assert st.ring.ready + offset < |st.ring.slots|; st.ring.slots[st.ring.ready + offset].None?)
  }

  /** The effect of one arrival. */
  function Arrived(st: ReceiverState, p: Packet): ReceiverState
    requires 0 <= p.seqNo < MODULUS && |st.ring.slots| <= MAX_SEQ_NO
  {
    if Storable(st, p) then
      var ring := Added(st.ring, p, SeqOff(st.lastAck, p.seqNo));
      ReceiverState(ring, IncSeqBy(st.lastAck, ring.ready - st.ring.ready))
    else st
  }

  class UdtReceiver {
    const buffer: RcvBuffer
    var rcvLastAck: SeqNum

    ghost function State(): ReceiverState
      reads this, buffer
    {
      ReceiverState(buffer.ring, rcvLastAck)
    }

    ghost predicate Valid()
      reads this, buffer, buffer.units, buffer.stored
    {
      buffer.Valid() && |buffer.ring.slots| <= MAX_SEQ_NO
    }

    constructor (isn: SeqNum, size: nat)
      requires 0 < size <= MAX_SEQ_NO
      ensures Valid() && State() == ReceiverState(Ring(seq(size, _ => None), 0, 0, 0), isn)
    {
      buffer := new RcvBuffer(size);
      rcvLastAck := isn;
    }

    /** Handle an arriving unit: acknowledge this very transmission of the packet, before anything is
        checked, and then store it if there is room for it.  Returns the acknowledgement sent and
        whether the unit was kept. */
    method ProcessData(unit: CUnit) returns (ack: (int, int), code: int)
      requires Valid() && unit.flag == 0 && 0 <= unit.packet.seqNo < MODULUS
      modifies this, buffer, buffer.units, unit
      ensures Valid() && unit.packet == old(unit.packet)
      ensures ack.0 == unit.packet.seqNo && ack.1 == unit.packet.msgNo
      ensures State() == Arrived(old(State()), unit.packet)
      ensures code == if Storable(old(State()), unit.packet) then 0 else -1
      ensures unit.flag == if code == 0 then 1 else 0
    {
      hide RcvBuffer.Valid, Added, Ring.Valid;
      ack := (unit.packet.seqNo, unit.packet.msgNo);
      var offset := SeqOff(rcvLastAck, unit.packet.seqNo);
      var avail := buffer.GetAvailBufSize();
      if offset < 0 || offset >= avail {
        return ack, -1;
      }
      AddedSize(buffer.ring, unit.packet, offset);
      var n := buffer.AddData(unit, offset);
      if n < 0 {
        return ack, -1;
      }
      rcvLastAck := IncSeqBy(rcvLastAck, n);
      code := 0;
    }

    method Recv(len: int) returns (data: Payload)
      requires Valid()
      modifies buffer, buffer.units, buffer.stored
      ensures Valid() && old(buffer.ring).Valid()
      ensures State() == old(State()).(ring := Taken(old(buffer.ring), len))
      ensures old(buffer.ring).ReadyBytes() == data + buffer.ring.ReadyBytes()
      ensures |data| == Min(Max(len, 0), |old(buffer.ring).ReadyBytes()|)
    {
      hide RcvBuffer.Valid, Added, Ring.Valid, Ring.ReadyBytes, Taken;
      TakenSize(buffer.ring, len);
      data := buffer.ReadBuffer(len);
    }
  }

  lemma AddedSize(r: Ring, p: Packet, offset: nat)
    requires offset < r.Avail()
    ensures |Added(r, p, offset).slots| == |r.slots|
    ensures 0 <= Added(r, p, offset).ready - r.ready <= |r.slots|
  {
  }

  lemma TakenSize(r: Ring, len: int)
    ensures r.Valid() ==> |Taken(r, len).slots| == |r.slots|
  {
    if r.Valid() {
      var data := TakenReads(r, len);
    }
  }
}
