/** Circular packet sequence numbers (`CSeqNo`): 31-bit numbers compared through a
    half-range threshold.  The proofs elsewhere reason about plain integers; `Wrap`
    names the number a plain position has on the wire, and the lemmas here say when the
    circular operations agree with the plain ones. */
module SeqNo {

  const MAX_SEQ_NO: int := 0x7FFF_FFFF
  const SEQ_NO_TH: int := 0x3FFF_FFFF
  const MODULUS: int := 0x8000_0000

  /** A sequence number as it is stored in an `int32_t`. */
  type SeqNum = x: int | 0 <= x < MODULUS

  function Abs(x: int): int {
    if x < 0 then -x else x
  }

  function SeqCmp(a: SeqNum, b: SeqNum): int {
    if Abs(a - b) < SEQ_NO_TH then a - b else b - a
  }

  /** Numbers at least half the circle apart compare the other way round, and the comparison never ties. */
  lemma SeqCmpTurns(a: SeqNum, b: SeqNum)
    ensures SeqCmp(a, b) > 0 <==> 0 < a - b < SEQ_NO_TH || b - a >= SEQ_NO_TH
    ensures SeqCmp(a, b) == -SeqCmp(b, a) && (SeqCmp(a, b) == 0 <==> a == b)
  {
  }

  function SeqLen(a: SeqNum, b: SeqNum): int {
    if a <= b then b - a + 1 else b - a + MAX_SEQ_NO + 2
  }

  function SeqOff(a: SeqNum, b: SeqNum): int {
    if Abs(a - b) < SEQ_NO_TH then b - a
    else if a < b then b - a - MAX_SEQ_NO - 1
    else b - a + MAX_SEQ_NO + 1
  }

  function IncSeq(a: SeqNum): SeqNum {
    if a == MAX_SEQ_NO then 0 else a + 1
  }

  function DecSeq(a: SeqNum): SeqNum {
    if a == 0 then MAX_SEQ_NO else a - 1
  }

  function IncSeqBy(a: SeqNum, inc: nat): SeqNum
    requires inc <= MAX_SEQ_NO
  {
    if MAX_SEQ_NO - a >= inc then a + inc else a - MAX_SEQ_NO + inc - 1
  }

  /** The number on the wire of position x in an unbounded stream of packets. */
  function Wrap(x: int): SeqNum {
    x % MODULUS
  }

  /** Two wrapped positions differ by the plain difference, up to one turn of the circle. */
  lemma WrapDifference(x: int, y: int)
    requires Abs(y - x) < MODULUS
    ensures Wrap(y) - Wrap(x) in {y - x, y - x - MODULUS, y - x + MODULUS}
  {
    var qx, qy := x / MODULUS, y / MODULUS;
    assert Wrap(y) - Wrap(x) == (y - x) - (qy - qx) * MODULUS;
    assert -2 < qy - qx < 2;
  }

  /** Within the half range the circular order is the order of positions. */
  lemma SeqCmpOrders(x: int, y: int)
    requires Abs(y - x) < SEQ_NO_TH
    ensures SeqCmp(Wrap(x), Wrap(y)) < 0 <==> x < y
    ensures SeqCmp(Wrap(x), Wrap(y)) > 0 <==> x > y
    ensures SeqCmp(Wrap(x), Wrap(y)) == 0 <==> x == y
    ensures Wrap(x) == Wrap(y) <==> x == y
  {
    WrapDifference(x, y);
  }

  /** `SeqOff` recovers a plain distance inside the half range.  A packet further back than
      that looks as if it came from far ahead. */
  lemma SeqOffRecovers(x: int, y: int)
    requires Abs(y - x) < MODULUS
    ensures Abs(y - x) < SEQ_NO_TH ==> SeqOff(Wrap(x), Wrap(y)) == y - x
    ensures y - x <= -SEQ_NO_TH ==> SeqOff(Wrap(x), Wrap(y)) in {y - x, y - x + MODULUS}
    ensures y - x >= SEQ_NO_TH ==> SeqOff(Wrap(x), Wrap(y)) in {y - x, y - x - MODULUS}
  {
    WrapDifference(x, y);
  }

  lemma SeqLenCounts(x: int, y: int)
    requires x <= y < x + MODULUS
    ensures SeqLen(Wrap(x), Wrap(y)) == y - x + 1
  {
    WrapDifference(x, y);
  }

  lemma IncSeqAdvances(x: int)
    ensures IncSeq(Wrap(x)) == Wrap(x + 1)
    ensures DecSeq(Wrap(x + 1)) == Wrap(x)
  {
    WrapDifference(x, x + 1);
  }

  lemma IncSeqByAdvances(x: int, inc: nat)
    requires inc <= MAX_SEQ_NO
    ensures IncSeqBy(Wrap(x), inc) == Wrap(x + inc)
  {
    WrapDifference(x, x + inc);
  }
}
