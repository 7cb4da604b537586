/** The send buffer (`CSndBuffer` in buffer.cpp): a circular list of blocks with a second circular
    list of buffers that point at every `unit`-th block, so that long walks can jump. */
module SndBuffers {
  import opened Arithmetic
  import opened Records
  import opened SenderModel

  /** What a block stores of a packet: its bytes, and its message number with flags. */
  datatype Segment = Segment(payload: Payload, msgNo: bv32)

  /** A new block is not filled: what it stores is arbitrary. */
  class Block {
    var next: Block?
    var bufferNo: int
    var payload: Payload
    var msgNo: bv32

    constructor (bufferNo: int)
      ensures this.bufferNo == bufferNo && next == null
    {
      this.bufferNo, next := bufferNo, null;
    }
  }

  class Buffer {
    var firstBlock: Block
    var next: Buffer?

    constructor (first: Block)
      ensures firstBlock == first && next == null
    {
      firstBlock, next := first, null;
    }
  }

  /** Whole buffers before a position, and the rest. */
  function Whole(pos: int, unit: int): int
    requires unit > 0
  {
    pos / unit
  }

  function Rest(pos: int, unit: int): int
    requires unit > 0
  {
    pos % unit
  }

  // ---------- circular lists ----------

  /** The index after k on a circle of n. */
  function Wrapped(k: int, n: int): int {
    if k < n then k else k - n
  }

  ghost predicate DistinctBlocks(ring: seq<Block>) {
    forall i, j :: 0 <= i < j < |ring| ==> ring[i] != ring[j]
  }

  ghost predicate Chained(ring: seq<Block>)
    reads ring`next
  {
    forall i :: 0 <= i < |ring| ==> ring[i].next == ring[Wrapped(i + 1, |ring|)]
  }

  /** Blocks in a row, without the link of the last one. */
  ghost predicate Lined(blocks: seq<Block>)
    reads blocks`next
  {
    forall i :: 0 <= i < |blocks| - 1 ==> blocks[i].next == blocks[i + 1]
  }

  /** Blocks carry their place within a buffer. */
  ghost predicate InPlace(ring: seq<Block>, unit: int)
    reads ring`bufferNo
  {
    unit > 0 && forall i :: 0 <= i < |ring| ==> ring[i].bufferNo == Rest(i, unit)
  }

  ghost predicate DistinctBuffers(bufs: seq<Buffer>) {
    forall i, j :: 0 <= i < j < |bufs| ==> bufs[i] != bufs[j]
  }

  ghost predicate BuffersChained(bufs: seq<Buffer>)
    reads bufs`next
  {
    forall i :: 0 <= i < |bufs| ==> bufs[i].next == bufs[Wrapped(i + 1, |bufs|)]
  }

  /** Buffer j starts at block j * unit. */
  ghost predicate Heads(bufs: seq<Buffer>, ring: seq<Block>, unit: int)
    reads bufs`firstBlock
  {
    && |ring| == |bufs| * unit
    && forall j :: 0 <= j < |bufs| ==> 0 <= j * unit < |ring| && bufs[j].firstBlock == ring[j * unit]
  }

  /** The segments sit in the blocks from index `from` on, around the circle. */
  ghost predicate Holds(ring: seq<Block>, from: int, segs: seq<Segment>)
    reads ring`payload, ring`msgNo
  {
    && 0 <= from < |ring| && |segs| < |ring|
    && forall i :: 0 <= i < |segs| ==> Stored(At(ring, from, i)) == segs[i]
  }

  /** The block circle. */
  ghost predicate Circle(ring: seq<Block>, unit: int)
    reads ring`next, ring`bufferNo
  {
    DistinctBlocks(ring) && Chained(ring) && InPlace(ring, unit)
  }

  /** The buffer circle that indexes it. */
  ghost predicate Jumps(bufs: seq<Buffer>, ring: seq<Block>, unit: int)
    reads bufs`next, bufs`firstBlock
  {
    DistinctBuffers(bufs) && BuffersChained(bufs) && Heads(bufs, ring, unit)
  }

  function Rotated<T>(s: seq<T>, k: int): (r: seq<T>)
    requires 0 <= k <= |s|
    ensures |r| == |s| && forall i :: 0 <= i < |s| ==> r[i] == s[Wrapped(i + k, |s|)]
  {
    s[k..] + s[..k]
  }

  lemma ChainedRotated(ring: seq<Block>, k: int)
    requires Chained(ring) && DistinctBlocks(ring) && 0 <= k <= |ring|
    ensures Chained(Rotated(ring, k)) && DistinctBlocks(Rotated(ring, k))
  {
    var r := Rotated(ring, k);
    forall i | 0 <= i < |r| ensures r[i].next == r[Wrapped(i + 1, |r|)] {
      assert ring[Wrapped(i + k, |ring|)].next == ring[Wrapped(Wrapped(i + k, |ring|) + 1, |ring|)];
    }
    forall i, j | 0 <= i < j < |r| ensures r[i] != r[j] {
      assert Wrapped(i + k, |ring|) != Wrapped(j + k, |ring|);
    }
  }

  lemma BuffersRotated(bufs: seq<Buffer>, k: int)
    requires BuffersChained(bufs) && DistinctBuffers(bufs) && 0 <= k <= |bufs|
    ensures BuffersChained(Rotated(bufs, k)) && DistinctBuffers(Rotated(bufs, k))
  {
    var r := Rotated(bufs, k);
    forall i | 0 <= i < |r| ensures r[i].next == r[Wrapped(i + 1, |r|)] {
      assert bufs[Wrapped(i + k, |bufs|)].next == bufs[Wrapped(Wrapped(i + k, |bufs|) + 1, |bufs|)];
    }
    forall i, j | 0 <= i < j < |r| ensures r[i] != r[j] {
      assert Wrapped(i + k, |bufs|) != Wrapped(j + k, |bufs|);
    }
  }

  // ---------- increasing ----------

  /** The circle with new blocks in front of index f. */
  function Spliced<T>(ring: seq<T>, f: int, blocks: seq<T>): (r: seq<T>)
    requires 0 <= f <= |ring|
    ensures |r| == |ring| + |blocks|
    ensures forall i :: 0 <= i < |r| ==>
              r[i] == if i < f then ring[i] else if i < f + |blocks| then blocks[i - f] else ring[i - |blocks|]
  {
    ring[..f] + blocks + ring[f..]
  }

  /** The same circle read from its first full buffer on. */
  function Grown<T>(ring: seq<T>, f: int, blocks: seq<T>): (r: seq<T>)
    requires 0 <= f <= |ring| && f <= |blocks|
    ensures |r| == |ring| + |blocks|
    ensures forall i :: 0 <= i < |r| ==>
              r[i] == if i < f then blocks[|blocks| - f + i] else if i < |ring| then ring[i]
                      else if i < |ring| + f then ring[i - |ring|] else blocks[i - |ring| - f]
  {
    Rotated(Spliced(ring, f, blocks), |blocks|)
  }

  /** Linking new blocks in: the two changed links suffice. */
  method Splice(prev: Block, first: Block, last: Block, ghost ring: seq<Block>, ghost f: int, ghost blocks: seq<Block>)
    requires Chained(ring) && DistinctBlocks(ring) && 0 <= f < |ring| && prev == ring[if f == 0 then |ring| - 1 else f - 1]
    requires blocks != [] && Lined(blocks) && DistinctBlocks(blocks) && first == blocks[0] && last == blocks[|blocks| - 1]
    requires forall i, j :: 0 <= i < |ring| && 0 <= j < |blocks| ==> ring[i] != blocks[j]
    modifies prev`next, last`next
    ensures Chained(Spliced(ring, f, blocks)) && DistinctBlocks(Spliced(ring, f, blocks))
  {
    last.next := prev.next;
    prev.next := first;
    ghost var s := Spliced(ring, f, blocks);
    forall i | 0 <= i < |s| ensures s[i].next == s[Wrapped(i + 1, |s|)] {
      if i < f {
        assert s[i] == ring[i] && ring[i] != last;
        assert i != f - 1 ==> ring[i] != prev;
      } else if i < f + |blocks| {
        assert s[i] == blocks[i - f] && blocks[i - f] != prev;
        assert i != f + |blocks| - 1 ==> blocks[i - f] != last;
      } else {
        assert s[i] == ring[i - |blocks|] && ring[i - |blocks|] != last;
        assert !(f == 0 && i == |s| - 1) ==> ring[i - |blocks|] != prev;
      }
    }
  }

  function NextNo(no: int, unit: int): int
    requires unit > 0
  {
    (no + 1) % unit
  }

  lemma NextNoWraps(no: int, unit: int)
    requires 0 <= no < unit
    ensures NextNo(no, unit) == Wrapped(no + 1, unit)
  {
    if no + 1 < unit {
      SmallRemainder(no + 1, unit);
    } else {
      Remainder(1, 0, unit);
    }
  }

  lemma SmallRemainder(r: int, unit: int)
    requires 0 <= r < unit
    ensures r % unit == r && r / unit == 0
  {
  }

  /** One more block at the end of a row. */
  method AddBlock(last: Block, no: int, ghost blocks: seq<Block>) returns (block: Block)
    requires Lined(blocks) && DistinctBlocks(blocks) && blocks != [] && last == blocks[|blocks| - 1]
    modifies last`next
    ensures fresh(block) && block.bufferNo == no
    ensures Lined(blocks + [block]) && DistinctBlocks(blocks + [block])
  {
    block := new Block(no);
    last.next := block;
  }

  /** The numbers of a row go round from a given one. */
  ghost predicate NumberedFrom(blocks: seq<Block>, no: int, unit: int)
    reads blocks`bufferNo
  {
    forall k :: 0 <= k < |blocks| ==> blocks[k].bufferNo == Wrapped(no + k, unit)
  }

  /** A run of new blocks. */
  method NewBlocks(bufferNo: int, unit: int) returns (first: Block, last: Block, zero: Block?, ghost blocks: seq<Block>)
    requires 0 <= bufferNo < unit
    ensures |blocks| == unit && Lined(blocks) && DistinctBlocks(blocks) && first == blocks[0] && last == blocks[unit - 1]
    ensures NumberedFrom(blocks, bufferNo, unit) && forall k :: 0 <= k < unit ==> fresh(blocks[k])
    ensures zero == blocks[if bufferNo == 0 then 0 else unit - bufferNo]
  {
    hide Lined, DistinctBlocks, NextNo;
    var no := bufferNo;
    first := new Block(no);
    last := first;
    blocks := [first];
    OneBlock(first);
    zero := if no == 0 then first else null;
    for i := 1 to unit
      invariant |blocks| == i && blocks[0] == first && blocks[i - 1] == last && no == Wrapped(bufferNo + i - 1, unit)
      invariant forall k :: 0 <= k < i ==> fresh(blocks[k])
      invariant NumberedFrom(blocks, bufferNo, unit)
      invariant Lined(blocks) && DistinctBlocks(blocks)
      invariant zero == if bufferNo == 0 then blocks[0] else if bufferNo + i - 1 < unit then null else blocks[unit - bufferNo]
    {
      ghost var was := no;
      no := NextNo(no, unit);
      NextNoWraps(was, unit);
      var block := AddBlock(last, no, blocks);
      if no == 0 {
        zero := block;
      }
      last := block;
      blocks := blocks + [block];
    }
  }

  lemma OneBlock(b: Block)
    ensures Lined([b]) && DistinctBlocks([b])
  {
  }

  /** A new buffer behind the last one. */
  method LinkBuffer(nbuf: Buffer, ender: Buffer, ghost bufs: seq<Buffer>)
    requires bufs != [] && DistinctBuffers(bufs) && BuffersChained(bufs) && ender == bufs[|bufs| - 1]
    requires forall j :: 0 <= j < |bufs| ==> bufs[j] != nbuf
    modifies nbuf`next, ender`next
    ensures DistinctBuffers(bufs + [nbuf]) && BuffersChained(bufs + [nbuf])
  {
    nbuf.next := ender.next;
    ender.next := nbuf;
  }

  lemma BeforeBuffers(bufs: seq<Buffer>)
    requires bufs != [] && DistinctBuffers(bufs)
    ensures forall j :: 0 < j < |bufs| ==> bufs[j] != bufs[0]
  {
  }

  // ---------- walking ----------

  /** Steps along the blocks. */
  method Walk(start: Block, steps: int, ghost ring: seq<Block>, ghost k: int) returns (p: Block)
    requires Chained(ring) && 0 <= k < |ring| && start == ring[k] && 0 <= steps
    ensures p in ring && (steps <= |ring| ==> p == ring[Wrapped(k + steps, |ring|)])
  {
    p := start;
    ghost var j := k;
    for i := 0 to steps
      invariant 0 <= j < |ring| && p == ring[j] && (i <= |ring| ==> j == Wrapped(k + i, |ring|))
    {
      assert ring[j].next == ring[Wrapped(j + 1, |ring|)];
      p := p.next;
      j := Wrapped(j + 1, |ring|);
    }
  }

  /** Steps along the buffers. */
  method WalkBuffers(start: Buffer, steps: int, ghost bufs: seq<Buffer>) returns (b: Buffer)
    requires BuffersChained(bufs) && bufs != [] && start == bufs[0] && 0 <= steps
    ensures b in bufs && (steps <= |bufs| ==> b == bufs[Wrapped(steps, |bufs|)])
  {
    b := start;
    ghost var j := 0;
    for i := 0 to steps
      invariant 0 <= j < |bufs| && b == bufs[j] && (i <= |bufs| ==> j == Wrapped(i, |bufs|))
    {
      assert bufs[j].next == bufs[Wrapped(j + 1, |bufs|)];
      b := b.next;
      j := Wrapped(j + 1, |bufs|);
    }
  }

  /** Steps along the blocks up to the one in front of a given block. */
  method WalkBefore(start: Block, target: Block, ghost ring: seq<Block>, ghost k: int, ghost t: int) returns (p: Block)
    requires Chained(ring) && DistinctBlocks(ring) && 0 <= k <= t < |ring| && start == ring[k]
    requires target == ring[Wrapped(t + 1, |ring|)]
    ensures p == ring[t]
  {
    p := start;
    ghost var i := k;
    while p.next != target
      invariant k <= i <= t && p == ring[i] && p.next == ring[Wrapped(i + 1, |ring|)]
      decreases t - i
    {
      p := p.next;
      i := i + 1;
    }
    if i < t {
      NotYet(ring, i, t);
    }
  }

  lemma NotYet(ring: seq<Block>, i: int, t: int)
    requires DistinctBlocks(ring) && 0 <= i < t < |ring|
    ensures ring[i + 1] != ring[Wrapped(t + 1, |ring|)]
  {
  }

  /** The first block is inside the first buffer. */
  ghost predicate Anchored(ring: seq<Block>, bufs: seq<Buffer>, unit: int, size: int, firstIndex: int, first: Block, buffer: Buffer) {
    && bufs != [] && 0 <= firstIndex < unit <= |ring| == size
    && buffer == bufs[0] && first == ring[firstIndex]
  }

  /** A block is the one `count` places behind the first. */
  ghost predicate EndsAt(ring: seq<Block>, firstIndex: int, count: int, last: Block) {
    0 <= firstIndex < |ring| && 0 <= count < |ring| && last == At(ring, firstIndex, count)
  }

  class SndBuffer {
    const unit: int
    var mss: nat
    var firstBlock: Block
    var currBlock: Block
    var lastBlock: Block
    var firstIndex: int
    var firstBuffer: Buffer
    var bufferEnder: Buffer
    var count: int
    var size: int
    var nextMsgNo: bv32
    ghost var ring: seq<Block>
    ghost var bufs: seq<Buffer>
    ghost var segs: seq<Segment>
    ghost var ahead: int   // how many blocks behind the first one the read position is, around the circle

    /** Both circular lists and their agreement: jumping whole buffers lands where walking would. */
    ghost predicate Indexed()
      reads this, ring, bufs
    {
      && Circle(ring, unit) && Jumps(bufs, ring, unit) && bufferEnder in bufs
      && Anchored(ring, bufs, unit, size, firstIndex, firstBlock, firstBuffer)
    }

    /** The buffer is the queue `segs`. */
    ghost predicate Valid()
      reads this, ring, bufs
    {
      && Indexed() && mss > 0 && Holds(ring, firstIndex, segs) && count == |segs|
      && EndsAt(ring, firstIndex, count, lastBlock) && EndsAt(ring, firstIndex, ahead, currBlock)
    }

    constructor (size: int, mss: nat)
      requires size > 0 && mss > 0
      ensures Valid() && segs == [] && ahead == 0 && nextMsgNo == 1 && this.mss == mss && fresh(ring) && fresh(bufs)
    {
      unit, this.mss, this.size := size, mss, size;
      var first, buffer;
      ghost var blocks;
      first, buffer, blocks := NewCircle(size);
      firstBlock, currBlock, lastBlock, firstIndex, ahead := first, first, first, 0, 0;
      firstBuffer, bufferEnder, count := buffer, buffer, 0;
      ring, bufs, segs := blocks, [buffer], [];
      nextMsgNo := 1;
    }

    // ---------- increase ----------

    /** `bufferEnder` moves to the last buffer. */
    method FindEnder()
      requires Indexed()
      modifies this`bufferEnder
      ensures Indexed() && bufs != [] && bufferEnder == bufs[|bufs| - 1]
    {
      hide Circle, Heads;
      ghost var j :| 0 <= j < |bufs| && bufs[j] == bufferEnder;
      while bufferEnder.next != firstBuffer
        invariant 0 <= j < |bufs| && bufs[j] == bufferEnder && Indexed()
        decreases |bufs| - j
      {
        assert bufs[j].next == bufs[Wrapped(j + 1, |bufs|)];
        assert j + 1 < |bufs|;
        bufferEnder := bufferEnder.next;
        j := j + 1;
      }
      assert bufs[j].next == bufs[Wrapped(j + 1, |bufs|)];
    }

    /** The block in front of the first one, found by walking through one buffer only. */
    method FindBeforeFirst() returns (prev: Block)
      requires Indexed() && bufferEnder == bufs[|bufs| - 1]
      ensures prev == ring[if firstIndex == 0 then |ring| - 1 else firstIndex - 1]
      ensures firstBlock.bufferNo == firstIndex
    {
      SmallRemainder(firstIndex, unit);
      HeadsAt(bufs, ring, unit);
      if firstBlock.bufferNo != 0 {
        prev := WalkBefore(firstBuffer.firstBlock, firstBlock, ring, 0, firstIndex - 1);
      } else {
        prev := WalkBefore(bufferEnder.firstBlock, firstBlock, ring, (|bufs| - 1) * unit, |ring| - 1);
      }
    }

    /** The new buffer goes behind the last one.  In mid-buffer it takes the old start of the first
        buffer, which takes the new block numbered 0. */
    method AttachBuffer(no: int, zero: Block, ghost q: seq<Block>, ghost blocks: seq<Block>)
      requires Jumps(bufs, q, unit) && Anchored(ring, bufs, unit, size + unit, firstIndex, firstBlock, firstBuffer)
      requires bufs != [] && bufferEnder == bufs[|bufs| - 1]
      requires 0 <= no < unit == |blocks| && no <= |q| && zero == blocks[if no == 0 then 0 else unit - no]
      modifies this`bufferEnder, this`bufs, bufs`next, bufs`firstBlock
      ensures bufferEnder in bufs && forall i :: 0 <= i < |bufs| ==> bufs[i] in old(bufs) || fresh(bufs[i])
      ensures Anchored(ring, bufs, unit, size + unit, firstIndex, firstBlock, firstBuffer)
      ensures Jumps(bufs, Grown(q, no, blocks), unit)
    {
      hide BuffersChained, DistinctBuffers, Heads, Grown;
      HeadsBehind(bufs, q, unit);
      var nbuf := new Buffer(zero);
      BeforeBuffers(bufs);
      LinkBuffer(nbuf, bufferEnder, bufs);
      bufferEnder := nbuf;
      if no != 0 {
        bufferEnder.firstBlock := firstBuffer.firstBlock;
        firstBuffer.firstBlock := zero;
      } else {
        bufferEnder.firstBlock := zero;
      }
      HeadsGrown(bufs, nbuf, q, no, blocks, unit);
      bufs := bufs + [nbuf];
    }

    /** New blocks, numbered on from the first block's number, go in front of it. */
    method SpliceBlocks() returns (no: int, zero: Block, ghost blocks: seq<Block>)
      requires Indexed() && bufferEnder == bufs[|bufs| - 1]
      modifies this`ring, ring`next
      ensures no == firstIndex && 0 <= no < unit == |blocks| && no <= |old(ring)| && zero == blocks[if no == 0 then 0 else unit - no]
      ensures ring == Grown(old(ring), no, blocks) && forall i :: 0 <= i < |ring| ==> ring[i] in old(ring) || fresh(ring[i])
      ensures Circle(ring, unit) && Kept(old(ring), ring, firstIndex)
      ensures Anchored(ring, bufs, unit, size + unit, firstIndex, firstBlock, firstBuffer)
    {
      hide Chained, DistinctBlocks, InPlace, Heads, Grown, Spliced, NumberedFrom, Lined, BuffersChained, DistinctBuffers, Kept;
      ghost var q := ring;
      HeadsBehind(bufs, q, unit);
      var prev := FindBeforeFirst();
      no := firstBlock.bufferNo;
      var first, last, start;
      first, last, start, blocks := NewBlocks(no, unit);
      zero := start;
      Splice(prev, first, last, q, firstIndex, blocks);
      JoinGrown(q, firstIndex, blocks, |bufs|, unit);
      KeptGrown(q, firstIndex, blocks);
      GrownMembers(q, firstIndex, blocks);
      ring := Grown(q, firstIndex, blocks);
    }

    /** `increase`: one more buffer of blocks, spliced in front of the first block.  No block moves
        when counted from there. */
    method Increase()
      requires Indexed()
      modifies this`ring, this`bufs, this`bufferEnder, this`size, ring`next, bufs`next, bufs`firstBlock
      ensures Indexed() && size == old(size) + unit && Kept(old(ring), ring, firstIndex)
      ensures forall i :: 0 <= i < |ring| ==> ring[i] in old(ring) || fresh(ring[i])
      ensures forall i :: 0 <= i < |bufs| ==> bufs[i] in old(bufs) || fresh(bufs[i])
    {
      hide Circle, Jumps, Grown, Anchored, Kept;
      ghost var q := ring;
      FindEnder();
      var no, zero;
      ghost var blocks;
      no, zero, blocks := SpliceBlocks();
      AttachBuffer(no, zero, q, blocks);
      size := size + unit;
    }

    // ---------- jumping ----------

    /** The block `offset` places behind the first one, and the buffer it is in, found by jumping
        whole buffers. */
    method Jump(offset: int) returns (buffer: Buffer, p: Block)
      requires Indexed() && 0 <= offset
      ensures p in ring && buffer in bufs && unit > 0
      ensures offset < |ring| ==>
                && p == ring[Wrapped(firstIndex + offset, |ring|)]
                && 0 <= Whole(firstIndex + offset, unit) <= |bufs| && buffer == bufs[Wrapped(Whole(firstIndex + offset, unit), |bufs|)]
    {
      hide Chained, DistinctBlocks, InPlace, Heads, DistinctBuffers, BuffersChained, Whole, Rest;
      JumpFacts(bufs, ring, unit, firstIndex + offset);
      WholePositive(firstIndex + offset, unit);
      var movement, blockOffset := Whole(firstIndex + offset, unit), Rest(firstIndex + offset, unit);
      buffer := WalkBuffers(firstBuffer, movement, bufs);
      ghost var k := HeadIndex(bufs, ring, unit, buffer);
      if movement != 0 {
        p := Walk(buffer.firstBlock, blockOffset, ring, k);
      } else {
        p := Walk(firstBlock, offset, ring, firstIndex);
      }
    }

    /** `readData` with an offset: the segment that many places into the queue. */
    method ReadData(offset: int) returns (payload: Payload, msgNo: bv32)
      requires Valid() && 0 <= offset < count
      ensures Segment(payload, msgNo) == segs[offset]
    {
      hide Circle, Jumps;
      var buffer, p := Jump(offset);
      return p.payload, p.msgNo;
    }

    /** `ackData`: drops `offset` segments from the front of the queue.  What they leave behind the read
        position stays in the blocks.  Nothing checks that there are as many: the count goes below zero
        exactly when there are not. */
    method AckData(offset: int) returns (held: bool)
      requires Valid() && 0 <= offset
      modifies this`firstBuffer, this`firstIndex, this`firstBlock, this`count, this`ring, this`bufs, this`segs, this`ahead
      ensures count == old(count) - offset && (held <==> offset <= old(count))
      ensures held ==>
                && Valid() && segs == old(segs)[offset..] && |ring| == |old(ring)|
                && ahead == (if old(ahead) >= offset then old(ahead) - offset else old(ahead) - offset + |ring|)
                && Passed() == if old(ahead > count) then old(Passed()) + old(segs)[..offset]
                               else if offset > old(ahead) then old(segs)[old(ahead)..offset] else []
      ensures !held ==> ring == old(ring) && bufs == old(bufs) && firstBlock in ring && firstBuffer in bufs
      ensures forall i :: 0 <= i < |ring| ==> ring[i] in old(ring)
      ensures forall i :: 0 <= i < |bufs| ==> bufs[i] in old(bufs)
    {
      hide Circle, Jumps, Holds, EndsAt, Anchored, Whole, Rest, Slice, Wrapped;
      BehindReader();
      var buffer, p := Jump(offset);
      held := offset <= count;
      if held {
        ghost var r, b, t := FrontMoves(offset);
        MoveFirst(buffer, Rest(firstIndex + offset, unit), p, count - offset, r, b, segs[offset..], t);
      } else {
        SetFront(buffer, Rest(firstIndex + offset, unit), p, count - offset);
      }
    }

    /** Both circles turned to the new front. */
    lemma FrontMoves(offset: int) returns (r: seq<Block>, b: seq<Buffer>, t: int)
      requires Valid() && 0 <= offset <= count
      ensures unit > 0 && offset < |ring| == |r| && 0 <= Wrapped(firstIndex + offset, |ring|) < |ring|
      ensures 0 <= Wrapped(Whole(firstIndex + offset, unit), |bufs|) < |bufs|
      ensures Circle(r, unit) && Jumps(b, r, unit) && bufferEnder in b
      ensures Anchored(r, b, unit, size, Rest(firstIndex + offset, unit), ring[Wrapped(firstIndex + offset, |ring|)],
                       bufs[Wrapped(Whole(firstIndex + offset, unit), |bufs|)])
      ensures var f := Rest(firstIndex + offset, unit);
              && Holds(r, f, segs[offset..]) && EndsAt(r, f, count - offset, lastBlock) && EndsAt(r, f, t, currBlock)
              && 0 <= f < |r| && 0 <= t < |r| && Left(r, f, t, count - offset) == PassedBy(ring, firstIndex, ahead, segs, offset)
      ensures t == Turned(ahead, offset, |ring|)
      ensures (forall i :: 0 <= i < |r| ==> r[i] in ring) && (forall i :: 0 <= i < |b| ==> b[i] in bufs)
    {
      hide Circle, Jumps, Holds, EndsAt, Rotated, Anchored, Whole, Rest, Slice, Turned, Wrapped, Left, PassedBy;
      BehindReader();
      var pos, k, j := PositionFacts(offset);
      RotateIndex(ring, bufs, unit, j, k);
      RotateFront(ring, firstIndex, segs, offset, k, Rest(pos, unit), ahead, lastBlock, currBlock);
      RotateAnchor(ring, bufs, unit, size, pos, j, k);
      RotatedKeeps(bufs, j, bufferEnder);
      RotatedSame(ring, k);
      RotatedSame(bufs, j);
      r, b, t := Rotated(ring, k), Rotated(bufs, j), Turned(ahead, offset, |ring|);
    }

    /** The front of the queue moves. */
    method MoveFirst(buffer: Buffer, index: int, first: Block, n: int, ghost r: seq<Block>, ghost b: seq<Buffer>, ghost s: seq<Segment>,
                     ghost t: int)
      requires Circle(r, unit) && Jumps(b, r, unit) && bufferEnder in b && Anchored(r, b, unit, size, index, first, buffer)
      requires mss > 0 && Holds(r, index, s) && EndsAt(r, index, n, lastBlock) && EndsAt(r, index, t, currBlock) && n == |s|
      requires 0 <= index < |r| && 0 <= t < |r|
      modifies this`firstBuffer, this`firstIndex, this`firstBlock, this`count, this`ring, this`bufs, this`segs, this`ahead
      ensures Valid() && ring == r && bufs == b && segs == s && ahead == t && firstIndex == index && count == n
      ensures Passed() == if t <= n then [] else Slice(r, index, t, |r|)
    {
      hide Circle, Jumps, Holds, EndsAt, Anchored, Slice;
      SetFront(buffer, index, first, n);
      SetView(r, b, s, t);
    }

    method SetFront(buffer: Buffer, index: int, first: Block, n: int)
      modifies this`firstBuffer, this`firstIndex, this`firstBlock, this`count
      ensures firstBuffer == buffer && firstIndex == index && firstBlock == first && count == n
    {
      firstBuffer, firstIndex, firstBlock, count := buffer, index, first, n;
    }

    ghost method SetView(r: seq<Block>, b: seq<Buffer>, s: seq<Segment>, t: int)
      modifies this`ring, this`bufs, this`segs, this`ahead
      ensures ring == r && bufs == b && segs == s && ahead == t
    {
      ring, bufs, segs, ahead := r, b, s, t;
    }

    lemma PositionFacts(offset: int) returns (pos: int, k: int, j: int)
      requires Valid() && 0 <= offset <= count
      ensures unit > 0 && unit <= size == |ring| && offset <= |segs| == count && 0 <= firstIndex < |ring|
      ensures pos == firstIndex + offset && offset < |ring| && 0 <= pos < |ring| + unit
      ensures 0 <= Whole(pos, unit) <= |bufs| && j == Wrapped(Whole(pos, unit), |bufs|) && k == j * unit
      ensures 0 <= j < |bufs| && 0 <= k < |ring| && 0 <= Rest(pos, unit) < unit
      ensures 0 <= Wrapped(k + Rest(pos, unit), |ring|) == Wrapped(pos, |ring|) < |ring|
    {
      pos := firstIndex + offset;
      j, k := Wrapped(pos / unit, |bufs|), Wrapped(pos / unit * unit, |ring|);
      SplitPosition(|bufs|, unit, |ring|, pos);
    }

    // ---------- adding ----------

    /** Fills one block with segment i of cs.  The block is `at` places behind the first one. */
    method WriteBlock(s: Block, payload: Payload, msgNo: bv32, ghost cs: seq<Segment>, ghost i: nat, ghost at: int, ghost kept: seq<Segment>)
      requires Circle(ring, unit) && EndsAt(ring, firstIndex, at, s) && Wrote(ring, firstIndex, cs, i, at)
      requires i < |cs| && cs[i] == Segment(payload, msgNo) && (|kept| <= at ==> Holds(ring, firstIndex, kept))
      modifies s`payload, s`msgNo
      ensures Circle(ring, unit)
      ensures s.next != null && EndsAt(ring, firstIndex, Step(at, |ring|), s.next) && Wrote(ring, firstIndex, cs, i + 1, Step(at, |ring|))
      ensures |kept| <= at ==> Holds(ring, firstIndex, kept)
    {
      hide InPlace;
      NextBehind(ring, firstIndex, at, s);
      s.payload := payload;
      s.msgNo := msgNo;
    }

    /** One round of the packetising loop. */
    method WriteNext(s: Block, payload: Payload, msgNo: bv32, ghost cs: seq<Segment>, ghost i: nat, ghost at: int, ghost e: int,
                     ghost laps: int, ghost kept: seq<Segment>)
      returns (last: Block, ghost e': int, ghost laps': int)
      requires Circle(ring, unit) && EndsAt(ring, firstIndex, e, s) && Wrote(ring, firstIndex, cs, i, e)
      requires i < |cs| && cs[i] == Segment(payload, msgNo) && 0 <= e && laps >= 0 && at + i == e + laps * |ring|
      requires laps == 0 ==> |kept| <= e && Holds(ring, firstIndex, kept)
      modifies s`payload, s`msgNo
      ensures Circle(ring, unit) && EndsAt(ring, firstIndex, e', last) && Wrote(ring, firstIndex, cs, i + 1, e')
      ensures last in ring && 0 <= e' < |ring| && laps' >= 0 && at + i + 1 == e' + laps' * |ring|
      ensures laps' == 0 ==> |kept| <= e' && Holds(ring, firstIndex, kept)
    {
      hide InPlace, DistinctBlocks, Chained, EndsAt, Wrote, Holds, Step;
      EndsInside(ring, firstIndex, e, s);
      HoldsNone(ring, firstIndex, e, s);
      WriteBlock(s, payload, msgNo, cs, i, e, if laps == 0 then kept else []);
      last := s.next;
      NextLap(e, laps, |ring|);
      e', laps' := Step(e, |ring|), Lap(e, laps, |ring|);
      EndsInside(ring, firstIndex, e', last);
    }

    /** The i-th packet of the data. */
    method Piece(data: Payload, i: int, n: int, order: bool, ghost no: bv32) returns (payload: Payload, msgNo: bv32)
      requires mss > 0 && 0 <= i < n == |Chunks(data, mss)| && nextMsgNo == Advanced(no, i)
      ensures i < |Segments(data, mss, no, order)| && Segments(data, mss, no, order)[i] == Segment(payload, msgNo)
      ensures nextMsgNo + 1 == Advanced(no, i + 1)
    {
      hide Chunks, Segments, Message, Advanced;
      ChunkAt(data, mss, i);
      SegmentAt(data, mss, no, order, i);
      AdvanceOne(no, i);
      var from := i * mss;
      var len := |data| - from;
      if len > mss {
        len := mss;
      }
      payload, msgNo := data[from..from + len], Message(nextMsgNo, i == 0, i == n - 1, order);
    }

    /** The packetising loop: the segments go into the blocks from `start` on, and round the circle if
        there are more of them than blocks. */
    method WriteBlocks(start: Block, data: Payload, n: int, order: bool, ghost at: int, ghost kept: seq<Segment>)
      returns (last: Block, ghost e: int, ghost laps: int)
      requires Indexed() && mss > 0 && n == |Chunks(data, mss)| && EndsAt(ring, firstIndex, at, start)
      requires |kept| <= at && Holds(ring, firstIndex, kept)
      modifies this`nextMsgNo, ring`payload, ring`msgNo
      ensures Indexed() && EndsAt(ring, firstIndex, e, last) && laps >= 0 && at + n == e + laps * |ring|
      ensures Wrote(ring, firstIndex, Segments(data, mss, old(nextMsgNo), order), n, e)
      ensures laps == 0 ==> Holds(ring, firstIndex, kept)
      ensures nextMsgNo == Advanced(old(nextMsgNo), n)
    {
      hide Circle, Jumps, Holds, EndsAt, Anchored, Chunks, Wrote, Segments, Message, Step, Advanced;
      last, e, laps := start, at, 0;
      EndsInside(ring, firstIndex, at, start);
      ghost var cs, no := Segments(data, mss, nextMsgNo, order), nextMsgNo;
      AnchoredSize();
      WroteNone(ring, firstIndex, cs, last, at);
      AdvanceOne(no, 0);
      for i := 0 to n
        invariant Indexed() && |ring| == size > 0 && last in ring && 0 <= e < |ring| && laps >= 0
        invariant at + i == e + laps * |ring|
        invariant EndsAt(ring, firstIndex, e, last) && Wrote(ring, firstIndex, cs, i, e)
        invariant laps == 0 ==> |kept| <= e && Holds(ring, firstIndex, kept)
        invariant nextMsgNo == Advanced(no, i)
      {
        var payload, msgNo := Piece(data, i, n, order, no);
        last, e, laps := WriteNext(last, payload, msgNo, cs, i, at, e, laps, kept);
        nextMsgNo := nextMsgNo + 1;
      }
    }

    lemma AnchoredSize()
      requires Indexed()
      ensures |ring| == size > 0 && 0 <= firstIndex < |ring| && DistinctBlocks(ring) && Circle(ring, unit)
    {
      hide Jumps;
    }

    /** Grows the buffer until n more blocks fit with one to spare. */
    method MakeRoom(n: int)
      requires Indexed()
      modifies this`ring, this`bufs, this`bufferEnder, this`size, ring`next, bufs`next, bufs`firstBlock
      ensures Indexed() && n + count < size && Kept(old(ring), ring, firstIndex)
      ensures if n + count < old(size) then ring == old(ring) && size == old(size) else size > old(size)
      ensures forall i :: 0 <= i < |ring| ==> ring[i] in old(ring) || fresh(ring[i])
      ensures forall i :: 0 <= i < |bufs| ==> bufs[i] in old(bufs) || fresh(bufs[i])
    {
      hide Indexed, Kept;
      PositiveUnit();
      AnchoredSize();
      KeptSame(ring, firstIndex);
      while n + count >= size
        invariant Indexed() && unit > 0 && Kept(old(ring), ring, firstIndex)
        invariant if size == old(size) then ring == old(ring) else size > old(size) && n + count >= old(size)
        invariant forall i :: 0 <= i < |ring| ==> ring[i] in old(ring) || fresh(ring[i])
        invariant forall i :: 0 <= i < |bufs| ==> bufs[i] in old(bufs) || fresh(bufs[i])
        decreases n + count - size
      {
        ghost var q := ring;
        Increase();
        KeptTwice(old(ring), q, ring, firstIndex);
      }
    }

    /** The common part of `addBuffer` and `resizeMSS`: cuts the data and writes it from the last block on. */
    method Append(data: Payload, order: bool, ghost at: int, ghost kept: seq<Segment>) returns (ghost e: int, ghost laps: int)
      requires Indexed() && mss > 0 && EndsAt(ring, firstIndex, at, lastBlock) && EndsAt(ring, firstIndex, ahead, currBlock)
      requires |kept| <= at && Holds(ring, firstIndex, kept)
      modifies this`ring, this`bufs, this`bufferEnder, this`size, this`nextMsgNo, this`lastBlock, this`count
      modifies ring`next, ring`payload, ring`msgNo, bufs`next, bufs`firstBlock
      ensures Indexed() && EndsAt(ring, firstIndex, e, lastBlock) && EndsAt(ring, firstIndex, ahead, currBlock)
      ensures |ring| == size && 0 <= e < |ring| && count == old(count) + |Chunks(data, mss)| < size
      ensures laps >= 0 && at + |Chunks(data, mss)| == e + laps * |ring|
      ensures if count < old(size) then size == old(size) else size > old(size)
      ensures Wrote(ring, firstIndex, Segments(data, mss, old(nextMsgNo), order), |Chunks(data, mss)|, e)
      ensures laps == 0 ==> Holds(ring, firstIndex, kept)
      ensures nextMsgNo == Advanced(old(nextMsgNo), |Chunks(data, mss)|)
      ensures forall i :: 0 <= i < |ring| ==> ring[i] in old(ring) || fresh(ring[i])
      ensures forall i :: 0 <= i < |bufs| ==> bufs[i] in old(bufs) || fresh(bufs[i])
    {
      hide Indexed, Holds, EndsAt, Chunks, Kept, Wrote, Segments;
      ghost var q := ring;
      var n := |data| / mss;
      if |data| % mss != 0 {
        n := n + 1;
      }
      ChunksCount(data, mss);
      MakeRoom(n);
      HoldsKept(q, ring, firstIndex, kept);
      EndsKept(q, ring, firstIndex, at, lastBlock);
      EndsKept(q, ring, firstIndex, ahead, currBlock);
      var last;
      last, e, laps := WriteBlocks(lastBlock, data, n, order, at, kept);
      AnchoredSize();
      EndsInside(ring, firstIndex, e, last);
      MoveLast(last, n);
    }

    method MoveLast(last: Block, n: int)
      requires Indexed()
      modifies this`lastBlock, this`count
      ensures Indexed() && lastBlock == last && count == old(count) + n
    {
      hide Circle, Jumps, Anchored;
      lastBlock, count := last, count + n;
    }

    /** What the buffer stores from now on. */
    ghost method Store(s: seq<Segment>)
      requires Indexed() && mss > 0 && Holds(ring, firstIndex, s) && count == |s|
      requires EndsAt(ring, firstIndex, count, lastBlock) && EndsAt(ring, firstIndex, ahead, currBlock)
      modifies this`segs
      ensures Indexed() && Valid() && segs == s && Stores(Bytes(s))
    {
      hide Circle, Jumps, Bytes, Anchored;
      segs := s;
      assert Slice(ring, firstIndex, 0, count) == segs;
    }

    /** `addBuffer`: puts the data, cut into packets, at the end of the queue. */
    method AddBuffer(data: Payload, order: bool)
      requires Valid()
      modifies this, ring`next, ring`payload, ring`msgNo, bufs`next, bufs`firstBlock
      ensures Valid() && segs == old(segs) + Segments(data, mss, old(nextMsgNo), order)
      ensures mss == old(mss) && ahead == old(ahead) && nextMsgNo == Advanced(old(nextMsgNo), |Chunks(data, mss)|)
      ensures forall i :: 0 <= i < |ring| ==> ring[i] in old(ring) || fresh(ring[i])
      ensures forall i :: 0 <= i < |bufs| ==> bufs[i] in old(bufs) || fresh(bufs[i])
    {
      hide Indexed, Holds, EndsAt, Chunks, Wrote, Segments;
      ghost var cs := Segments(data, mss, nextMsgNo, order);
      SegmentsSize(data, mss, nextMsgNo, order);
      BehindReader();
      ghost var e, laps := Append(data, order, count, segs);
      NoLap(laps, e, |ring|);
      WroteBehind(ring, firstIndex, segs, cs, e);
      Store(segs + cs);
    }

    // ---------- the read position ----------

    /** `readData` without an offset: what is at the read position, until the end of the queue is reached.
        That is the next segment, unless acknowledgments have moved the front past the read position. */
    method ReadNext() returns (read: bool, payload: Payload, msgNo: bv32)
      requires Valid()
      modifies this`currBlock, this`ahead
      ensures Valid() && (read <==> old(ahead) != count)
      ensures read && old(ahead) < count ==> Segment(payload, msgNo) == segs[old(ahead)]
      ensures old(ahead) > count ==> Segment(payload, msgNo) == old(Passed())[0]
      ensures ahead == if read then Step(old(ahead), |ring|) else old(ahead)
    {
      hide Circle, Jumps, Anchored, Holds;
      AnchoredSize();
      AtEnd(ring, firstIndex, count, lastBlock, ahead, currBlock);
      HeldAt(ring, firstIndex, segs, ahead);
      if currBlock == lastBlock {
        return false, [], 0;
      }
      read, payload, msgNo := true, currBlock.payload, currBlock.msgNo;
      NextInCircle(ring, unit, firstIndex, ahead, currBlock);
      currBlock := currBlock.next;
      ahead := Step(ahead, |ring|);
    }

    /** The blocks from an overtaken read position up to the first block.  They have been acknowledged,
        or were never filled. */
    ghost function Passed(): seq<Segment>
      reads this, ring
    {
      if count < ahead < |ring| && 0 <= firstIndex < |ring| && 0 <= count then Slice(ring, firstIndex, ahead, |ring|) else []
    }

    /** The copying loop of `resizeMSS`: everything from the read position to the end. */
    method CollectUnsent() returns (data: Payload, n: int)
      requires Valid()
      ensures if ahead <= count then n == count - ahead && data == Bytes(segs[ahead..])
              else n == |ring| - ahead + count && data == Bytes(Passed()) + Bytes(segs)
    {
      hide Circle, Jumps, Anchored, Holds, Bytes, Unread, EndsAt, Slice;
      BehindReader();
      AnchoredSize();
      ghost var t := Unread(ring, firstIndex, count, ahead);
      UnreadFacts(ring, firstIndex, count, ahead, segs);
      data, n := [], 0;
      BytesNone();
      assert t[..0] == [];
      var p: Block := currBlock;
      while p != lastBlock
        invariant 0 <= n <= |t| && EndsAt(ring, firstIndex, Wrapped(ahead + n, |ring|), p) && data == Bytes(t[..n])
        decreases |t| - n
      {
        UnreadNext(t, n, p);
        data := data + p.payload;
        p := p.next;
        n := n + 1;
      }
      UnreadAt(ring, firstIndex, count, ahead, n, p, lastBlock);
      assert t[..n] == t;
    }

    /** One round of that loop. */
    lemma UnreadNext(t: seq<Segment>, n: nat, p: Block)
      requires Valid() && 0 <= firstIndex < |ring| && 0 <= count < |ring| && 0 <= ahead < |ring|
      requires t == Unread(ring, firstIndex, count, ahead) && n <= |t| && p != lastBlock
      requires EndsAt(ring, firstIndex, Wrapped(ahead + n, |ring|), p)
      ensures n < |t| && Bytes(t[..n + 1]) == Bytes(t[..n]) + p.payload
      ensures p.next != null && EndsAt(ring, firstIndex, Wrapped(ahead + (n + 1), |ring|), p.next)
    {
      hide Circle, Jumps, Anchored, Holds, Bytes, Unread, EndsAt, Slice;
      AnchoredSize();
      UnreadAt(ring, firstIndex, count, ahead, n, p, lastBlock);
      NextInCircle(ring, unit, firstIndex, Wrapped(ahead + n, |ring|), p);
      BytesNext(t, n);
    }

    /** What the source keeps through `resizeMSS`: the count of blocks from the first one, up to the last
        one, hold these bytes. */
    ghost predicate Stores(bytes: Payload)
      reads this, ring
    {
      EndsAt(ring, firstIndex, count, lastBlock) && Bytes(Slice(ring, firstIndex, 0, count)) == bytes
    }

    /** The packet size can change: the read position has not been overtaken, or what has passed it
        makes up the same number of packets again. */
    ghost predicate Resizable(newSize: nat)
      reads this, ring
      requires newSize > 0
    {
      ahead <= count || Refits(Passed(), segs, |ring|, newSize)
    }

    /** `resizeMSS`: everything from the read position on is cut again, into packets of the new size.  The
        bytes of the queue survive exactly when the buffer is `Resizable`.  Otherwise the bytes of
        acknowledged blocks come back or others are lost, or the count and the last block disagree. */
    method ResizeMss(newSize: nat)
      requires Valid() && newSize > 0
      modifies this, ring`next, ring`payload, ring`msgNo, bufs`next, bufs`firstBlock
      ensures Indexed() && mss == newSize && ahead == old(ahead)
      ensures Stores(Bytes(old(segs))) <==> old(Resizable(newSize))
      ensures Stores(Bytes(old(segs))) ==> Valid() && Bytes(segs) == Bytes(old(segs))
      ensures old(ahead <= count) ==>
                segs == old(segs)[..ahead] + Segments(Bytes(old(segs)[ahead..]), newSize, old(nextMsgNo), false)
      ensures !old(ahead <= count) && Stores(Bytes(old(segs))) ==>
                var cs := Segments(old(Bytes(Passed())) + Bytes(old(segs)), newSize, old(nextMsgNo), false);
                |cs| >= |old(Passed())| && segs == cs[|old(Passed())|..]
    {
      hide Valid, Indexed, Holds, EndsAt, Chunks, Bytes, Wrote, Segments, Slice, Refits, Stores;
      ghost var s, k, c, m, no := segs, ahead, count, |ring|, nextMsgNo;
      BehindReader();
      ghost var passed := Passed();
      var data, n := CollectUnsent();
      Rewind(newSize, n);
      SegmentsSize(data, newSize, no, false);
      ghost var kept := if k <= c then s[..k] else [];
      HoldsPart(ring, firstIndex, s, |kept|);
      ghost var e, laps := Append(data, false, k, kept);
      if k <= c {
        FrontKept(s, k, no, e, laps);
      } else {
        FrontOvertaken(passed, s, k, m, no, e, laps);
      }
    }

    /** The view after a resize that left the front alone. */
    ghost method FrontKept(s: seq<Segment>, k: int, no: bv32, e: int, laps: int)
      requires Indexed() && mss > 0 && 0 <= k <= |s| && |ring| == size && laps >= 0
      requires var cs := Segments(Bytes(s[k..]), mss, no, false);
               && k + |cs| == count == e + laps * |ring| && count < |ring|
               && Wrote(ring, firstIndex, cs, |cs|, e) && (laps == 0 ==> Holds(ring, firstIndex, s[..k]))
      requires EndsAt(ring, firstIndex, e, lastBlock) && EndsAt(ring, firstIndex, ahead, currBlock)
      modifies this`segs
      ensures Indexed() && Valid() && Stores(Bytes(s)) && Bytes(segs) == Bytes(s) && segs == s[..k] + Segments(Bytes(s[k..]), mss, no, false)
    {
      hide Valid, Indexed, Holds, EndsAt, Chunks, Bytes, Wrote, Segments, Stores;
      ghost var cs := Segments(Bytes(s[k..]), mss, no, false);
      EndsInside(ring, firstIndex, e, lastBlock);
      NoLap(laps, e, |ring|);
      WroteBehind(ring, firstIndex, s[..k], cs, e);
      Recut(s, k, mss, no);
      Store(s[..k] + cs);
    }

    /** The view after a resize that rewrote acknowledged blocks, and whether it shows the queue. */
    ghost method FrontOvertaken(passed: seq<Segment>, s: seq<Segment>, k: int, m: int, no: bv32, e: int, laps: int)
      requires Indexed() && mss > 0 && |ring| == size && laps >= 0 && 0 <= k < m <= |ring| && |passed| == m - k
      requires var cs := Segments(Bytes(passed) + Bytes(s), mss, no, false);
               && k + |cs| == e + laps * |ring| && count == |cs| - |passed| < |ring| && (|ring| == m <==> count < m)
               && Wrote(ring, firstIndex, cs, |cs|, e)
      requires EndsAt(ring, firstIndex, e, lastBlock) && EndsAt(ring, firstIndex, ahead, currBlock)
      modifies this`segs
      ensures Indexed() && (Stores(Bytes(s)) <==> Refits(passed, s, m, mss))
      ensures Stores(Bytes(s)) ==>
                var cs := Segments(Bytes(passed) + Bytes(s), mss, no, false);
                Valid() && Bytes(segs) == Bytes(s) && |cs| >= |passed| && segs == cs[|passed|..]
    {
      hide Circle, Jumps, Anchored, Holds, Chunks, Bytes, Wrote, Segments, Refits;
      AnchoredSize();
      ghost var cs := Segments(Bytes(passed) + Bytes(s), mss, no, false);
      Overtaken(ring, firstIndex, cs, e, laps, passed, s, mss, no, m, k, count, lastBlock);
      if Stores(Bytes(s)) {
        assert Slice(ring, firstIndex, 0, count) == cs[|passed|..];
        Store(cs[|passed|..]);
      }
    }

    /** The buffer ends at the read position, with the new packet size. */
    method Rewind(newSize: nat, n: int)
      requires Indexed()
      modifies this`mss, this`lastBlock, this`count
      ensures Indexed() && mss == newSize && lastBlock == currBlock && count == old(count) - n
    {
      hide Circle, Jumps, Anchored;
      mss := newSize;
      lastBlock := currBlock;
      count := count - n;
    }

    /** What is known before a resize. */
    lemma BehindReader()
      requires Valid()
      ensures Indexed() && mss > 0 && Holds(ring, firstIndex, segs) && count == |segs| && |ring| == size
      ensures EndsAt(ring, firstIndex, count, lastBlock) && EndsAt(ring, firstIndex, ahead, currBlock)
      ensures 0 <= firstIndex < |ring| && 0 <= ahead < |ring| && 0 <= count < |ring|
      ensures Passed() == if ahead <= count then [] else Slice(ring, firstIndex, ahead, |ring|)
    {
      hide Circle, Jumps;
    }

    lemma PositiveUnit()
      requires Indexed()
      ensures unit > 0
    {
    }
  }

  // ---------- segments ----------

  function Stored(b: Block): Segment
    reads b`payload, b`msgNo
  {
    Segment(b.payload, b.msgNo)
  }

  function Bytes(segs: seq<Segment>): Payload {
    if segs == [] then [] else Bytes(segs[..|segs| - 1]) + segs[|segs| - 1].payload
  }

  lemma BytesNone()
    ensures Bytes([]) == []
  {
  }

  lemma BytesNext(t: seq<Segment>, n: nat)
    requires n < |t|
    ensures Bytes(t[..n + 1]) == Bytes(t[..n]) + t[n].payload
  {
    assert t[..n + 1][..n] == t[..n];
  }

  lemma BytesOneMore(a: seq<Segment>, x: Segment)
    ensures Bytes(a + [x]) == Bytes(a) + x.payload
  {
    assert (a + [x])[..|a|] == a;
  }

  lemma {:induction false} BytesConcat(a: seq<Segment>, b: seq<Segment>)
    ensures Bytes(a + b) == Bytes(a) + Bytes(b)
    decreases |b|
  {
    hide Bytes;
    if b == [] {
      BytesNone();
      assert a + b == a;
    } else {
      var front, x := b[..|b| - 1], b[|b| - 1];
      BytesConcat(a, front);
      BytesOneMore(a + front, x);
      BytesOneMore(front, x);
      assert a + b == a + front + [x] && b == front + [x];
    }
  }

  lemma {:induction false} BytesOfChunks(a: seq<Segment>, cs: seq<Payload>)
    requires |a| == |cs| && forall i :: 0 <= i < |a| ==> a[i].payload == cs[i]
    ensures Bytes(a) == Flatten(cs)
  {
    if a != [] {
      BytesOfChunks(a[..|a| - 1], cs[..|cs| - 1]);
    }
  }

  /** The message number i places on; it wraps at 32 bits. */
  function Advanced(no: bv32, i: nat): bv32 {
    if i == 0 then no else Advanced(no, i - 1) + 1
  }

  lemma AdvanceOne(no: bv32, i: nat)
    ensures Advanced(no, 0) == no && Advanced(no, i + 1) == Advanced(no, i) + 1
  {
  }

  /** The word stored with a packet: its number, and flags for in-order delivery and for both ends. */
  function Message(no: bv32, first: bool, last: bool, order: bool): bv32 {
    no | (if order then 0x2000_0000 else 0) | (if first then 0x8000_0000 else 0) | (if last then 0x4000_0000 else 0)
  }

  /** A number that leaves room for the flags. */
  predicate Below29Bits(no: bv32) {
    no & 0xE000_0000 == 0
  }

  /** What a reader of the word finds: the number in the lower 29 bits, and a bit for each flag. */
  predicate Reads(m: bv32, no: bv32, first: bool, last: bool, order: bool) {
    && m & 0x1FFF_FFFF == no && (m & 0x2000_0000 != 0 <==> order)
    && (m & 0x8000_0000 != 0 <==> first) && (m & 0x4000_0000 != 0 <==> last)
  }

  /** The flags can be read off, and so can a number below 2^29. */
  lemma MessageParts(no: bv32, first: bool, last: bool, order: bool)
    requires Below29Bits(no)
    ensures Reads(Message(no, first, last, order), no, first, last, order)
  {
  }

  /** What cutting and numbering a user buffer gives. */
  function Segments(data: Payload, size: nat, no: bv32, order: bool): (r: seq<Segment>)
    requires size > 0
  {
    var cs := Chunks(data, size);
    seq(|cs|, i requires 0 <= i < |cs| => Segment(cs[i], Message(Advanced(no, i), i == 0, i == |cs| - 1, order)))
  }

  lemma SegmentAt(data: Payload, size: nat, no: bv32, order: bool, i: int)
    requires size > 0 && 0 <= i < |Chunks(data, size)|
    ensures |Segments(data, size, no, order)| == |Chunks(data, size)|
    ensures Segments(data, size, no, order)[i] ==
            Segment(Chunks(data, size)[i], Message(Advanced(no, i), i == 0, i == |Chunks(data, size)| - 1, order))
  {
  }

  /** Packet i of a user buffer carries its number and the flags of its place. */
  lemma SegmentFlags(data: Payload, size: nat, no: bv32, order: bool, i: int)
    requires size > 0 && 0 <= i < |Segments(data, size, no, order)|
    requires Below29Bits(Advanced(no, i))
    ensures var cs := Segments(data, size, no, order); Reads(cs[i].msgNo, Advanced(no, i), i == 0, i == |cs| - 1, order)
  {
    hide Chunks, Message, Advanced, Reads, Below29Bits;
    MessageParts(Advanced(no, i), i == 0, i == |Chunks(data, size)| - 1, order);
  }

  /** It carries the bytes at its place. */
  lemma SegmentBytes(data: Payload, size: nat, no: bv32, order: bool, i: int)
    requires size > 0 && 0 <= i < |Segments(data, size, no, order)|
    ensures |Segments(data, size, no, order)| == BlocksFor(|data|, size) && 0 <= i * size < |data|
    ensures Segments(data, size, no, order)[i].payload == data[i * size..Min(i * size + size, |data|)]
  {
    hide Chunks, Message, Advanced, BlocksFor;
    ChunkBytes(data, size, i);
  }

  lemma ChunkBytes(data: Payload, size: nat, i: int)
    requires size > 0 && 0 <= i < |Chunks(data, size)|
    ensures |Chunks(data, size)| == BlocksFor(|data|, size) && 0 <= i * size < |data|
    ensures Chunks(data, size)[i] == data[i * size..Min(i * size + size, |data|)]
  {
    hide Chunks, BlocksFor;
    ChunksCount(data, size);
    ChunkAt(data, size, i);
  }

  lemma SegmentsSize(data: Payload, size: nat, no: bv32, order: bool)
    requires size > 0
    ensures |Segments(data, size, no, order)| == |Chunks(data, size)| && Bytes(Segments(data, size, no, order)) == data
  {
    hide Chunks, Bytes, Flatten, Message, Advanced;
    ChunksFlatten(data, size);
    BytesOfChunks(Segments(data, size, no, order), Chunks(data, size));
  }

  // ---------- places around the circle ----------

  function Step(at: int, n: int): int {
    if at + 1 < n then at + 1 else 0
  }

  lemma TurnedIs(at: int, offset: int, n: int)
    ensures Turned(at, offset, n) == if at >= offset then at - offset else at - offset + n
  {
  }

  /** A place counted from a front that has moved by offset. */
  function Turned(at: int, offset: int, n: int): int {
    if at >= offset then at - offset else at - offset + n
  }

  /** The i-th element counted from index f. */
  function At<T>(s: seq<T>, f: int, i: int): T
    requires 0 <= f < |s| && 0 <= i < |s|
  {
    s[Wrapped(f + i, |s|)]
  }

  /** No block has moved, counted from index f. */
  ghost predicate Kept(q: seq<Block>, r: seq<Block>, f: int) {
    && 0 <= f < |q| <= |r|
    && forall i :: 0 <= i < |q| ==> At(r, f, i) == At(q, f, i)
  }

  lemma KeptSame(q: seq<Block>, f: int)
    requires 0 <= f < |q|
    ensures Kept(q, q, f)
  {
  }

  lemma KeptTwice(q: seq<Block>, r: seq<Block>, s: seq<Block>, f: int)
    requires Kept(q, r, f) && Kept(r, s, f)
    ensures Kept(q, s, f)
  {
  }

  lemma KeptGrown(q: seq<Block>, f: int, blocks: seq<Block>)
    requires 0 <= f < |q| && f <= |blocks|
    ensures Kept(q, Grown(q, f, blocks), f)
  {
    hide Grown;
    SameAt(q, f, blocks, 0);
    forall i | 0 <= i < |q| ensures At(Grown(q, f, blocks), f, i) == At(q, f, i) {
      SameAt(q, f, blocks, i);
    }
  }

  lemma HoldsKept(q: seq<Block>, r: seq<Block>, f: int, segs: seq<Segment>)
    requires Kept(q, r, f) && Holds(q, f, segs)
    ensures Holds(r, f, segs)
  {
  }

  lemma EndsKept(q: seq<Block>, r: seq<Block>, f: int, at: int, b: Block)
    requires Kept(q, r, f) && EndsAt(q, f, at, b)
    ensures EndsAt(r, f, at, b)
  {
  }

  lemma HoldsNone(ring: seq<Block>, f: int, at: int, b: Block)
    requires EndsAt(ring, f, at, b)
    ensures Holds(ring, f, [])
  {
  }

  lemma HoldsPart(ring: seq<Block>, f: int, segs: seq<Segment>, m: int)
    requires Holds(ring, f, segs) && 0 <= m <= |segs|
    ensures Holds(ring, f, segs[..m])
  {
  }

  /** The first i segments of cs have been written, the last of them just in front of place e. */
  ghost predicate Wrote(ring: seq<Block>, f: int, cs: seq<Segment>, i: int, e: int)
    reads ring`payload, ring`msgNo
  {
    && 0 <= f < |ring| && 0 <= e < |ring| && 0 <= i <= |cs|
    && forall d :: 0 <= d < e && i - e + d >= 0 ==> Stored(At(ring, f, d)) == cs[i - e + d]
  }

  lemma WroteNone(ring: seq<Block>, f: int, cs: seq<Segment>, b: Block, at: int)
    requires EndsAt(ring, f, at, b)
    ensures Wrote(ring, f, cs, 0, at)
  {
  }

  lemma WroteBehind(ring: seq<Block>, f: int, kept: seq<Segment>, cs: seq<Segment>, e: int)
    requires Holds(ring, f, kept) && Wrote(ring, f, cs, |cs|, e) && e == |kept| + |cs|
    ensures Holds(ring, f, kept + cs)
  {
  }

  /** How often the circle has been left behind after one more step. */
  function Lap(e: int, laps: int, n: int): int {
    if e + 1 < n then laps else laps + 1
  }

  lemma NextLap(e: int, laps: int, n: int)
    requires 0 <= e < n
    ensures Step(e, n) + Lap(e, laps, n) * n == e + laps * n + 1
    ensures laps <= Lap(e, laps, n) && (Lap(e, laps, n) == laps ==> Step(e, n) == e + 1)
  {
    assert (laps + 1) * n == laps * n + n;
  }

  lemma NoLap(laps: int, e: int, n: int)
    requires laps >= 0 && e >= 0 && n > 0 && e + laps * n < n
    ensures laps == 0
  {
    if laps >= 1 {
      MulAtLeast(laps, n);
    }
  }

  // ---------- what the read position still sees ----------

  /** What the blocks from place a up to place b store. */
  ghost function Slice(ring: seq<Block>, f: int, a: int, b: int): (r: seq<Segment>)
    reads ring`payload, ring`msgNo
    requires 0 <= f < |ring| && 0 <= a <= b <= |ring|
    ensures |r| == b - a && forall i :: 0 <= i < |r| ==> r[i] == Stored(At(ring, f, a + i))
    decreases b - a
  {
    if a == b then [] else Slice(ring, f, a, b - 1) + [Stored(At(ring, f, b - 1))]
  }

  /** From place `ahead` to the end of the queue, through the front if need be. */
  ghost function Unread(ring: seq<Block>, f: int, count: int, ahead: int): (r: seq<Segment>)
    reads ring`payload, ring`msgNo
    requires 0 <= f < |ring| && 0 <= count < |ring| && 0 <= ahead < |ring|
    ensures |r| == if ahead <= count then count - ahead else |ring| - ahead + count
  {
    if ahead <= count then Slice(ring, f, ahead, count) else Slice(ring, f, ahead, |ring|) + Slice(ring, f, 0, count)
  }

  lemma UnreadFacts(ring: seq<Block>, f: int, count: int, ahead: int, segs: seq<Segment>)
    requires Holds(ring, f, segs) && count == |segs| && 0 <= ahead < |ring|
    ensures ahead <= count ==> Unread(ring, f, count, ahead) == segs[ahead..]
    ensures ahead > count ==> Bytes(Unread(ring, f, count, ahead)) == Bytes(Slice(ring, f, ahead, |ring|)) + Bytes(segs)
  {
    hide Bytes;
    assert Slice(ring, f, 0, count) == segs;
    BytesConcat(Slice(ring, f, ahead, |ring|), segs);
  }

  /** The copying walk has read i segments and stands at p. */
  lemma UnreadAt(ring: seq<Block>, f: int, count: int, ahead: int, i: int, p: Block, last: Block)
    requires DistinctBlocks(ring) && EndsAt(ring, f, count, last) && 0 <= ahead < |ring|
    requires 0 <= i <= |Unread(ring, f, count, ahead)| && EndsAt(ring, f, Wrapped(ahead + i, |ring|), p)
    ensures p == last <==> i == |Unread(ring, f, count, ahead)|
    ensures p != last ==> i < |Unread(ring, f, count, ahead)| && Stored(p) == Unread(ring, f, count, ahead)[i]
    ensures p != last ==> Step(Wrapped(ahead + i, |ring|), |ring|) == Wrapped(ahead + i + 1, |ring|)
  {
    AtEnd(ring, f, count, last, Wrapped(ahead + i, |ring|), p);
  }

  lemma AtEnd(ring: seq<Block>, f: int, count: int, last: Block, ahead: int, curr: Block)
    requires DistinctBlocks(ring) && EndsAt(ring, f, count, last) && EndsAt(ring, f, ahead, curr)
    ensures curr == last <==> ahead == count
  {
  }

  lemma HeldAt(ring: seq<Block>, f: int, segs: seq<Segment>, k: int)
    requires Holds(ring, f, segs) && 0 <= k
    ensures k < |segs| ==> Stored(At(ring, f, k)) == segs[k]
  {
  }

  lemma NextInCircle(ring: seq<Block>, unit: int, f: int, k: int, b: Block)
    requires Circle(ring, unit) && EndsAt(ring, f, k, b)
    ensures b.next != null && EndsAt(ring, f, Step(k, |ring|), b.next)
  {
    hide InPlace, DistinctBlocks;
    NextBehind(ring, f, k, b);
  }

  // ---------- changing the packet size ----------

  lemma DropMore(data: Payload, size: nat, a: nat)
    requires size <= |data|
    ensures data[size..][Min(a, |data| - size)..] == data[Min(a + size, |data|)..]
  {
  }

  lemma DropAll(data: Payload, size: nat, a: nat)
    requires size >= |data|
    ensures data[Min(a + size, |data|)..] == [] && [data][1..] == []
  {
  }

  lemma TimesLess(k: nat, size: nat) returns (a: nat)
    requires k > 0 && size > 0
    ensures a == (k - 1) * size && k * size == a + size
  {
    MulLess(0, k - 1, size);
    a := (k - 1) * size;
  }

  /** The bytes behind the first k packets. */
  lemma {:induction false} ChunksDrop(data: Payload, size: nat, k: nat)
    requires size > 0 && k <= |Chunks(data, size)|
    ensures k * size >= 0 && Flatten(Chunks(data, size)[k..]) == data[Min(k * size, |data|)..]
    decreases k
  {
    hide Chunks, Flatten;
    if k == 0 {
      ChunksFlatten(data, size);
      assert Chunks(data, size)[0..] == Chunks(data, size);
    } else {
      ChunksStep(data, size);
      var a := TimesLess(k, size);
      if |data| > size {
        ChunksDrop(data[size..], size, k - 1);
        ConsDrop(data[..size], Chunks(data[size..], size), k);
        DropMore(data, size, a);
      } else {
        FlattenOne([]);
        DropAll(data, size, a);
      }
    }
  }

  /** What is left when as many packets as there were passed blocks are dropped again. */
  lemma OvertakenBytes(passed: Payload, live: Payload, size: nat, lag: nat)
    requires size > 0
    ensures var n := |Chunks(passed + live, size)|;
            && (n >= lag ==>
                  (Flatten(Chunks(passed + live, size)[lag..]) == live <==> |passed| == lag * size || (live == [] && n == lag)))
            && (|passed| == lag * size ==> n == lag + BlocksFor(|live|, size))
            && (live == [] ==> n == BlocksFor(|passed|, size))
  {
    hide Chunks, Flatten;
    var data := passed + live;
    var n := |Chunks(data, size)|;
    ChunksCount(data, size);
    if n >= lag {
      ChunksDrop(data, size, lag);
      assert data[|passed|..] == live;
      PacketsHold(|data|, size, lag);
    }
    if |passed| == lag * size {
      BlocksForMore(lag, |live|, size);
    }
  }

  lemma PacketsHold(len: nat, size: nat, lag: nat)
    requires size > 0 && lag <= BlocksFor(len, size)
    ensures lag * size >= len <==> lag == BlocksFor(len, size)
  {
    var q, r := len / size, len % size;
    assert len == q * size + r;
    if lag <= q {
      MulLess(lag, q, size);
      if lag < q {
        MulLess(lag + 1, q, size);
        assert (lag + 1) * size == lag * size + size;
      }
    } else {
      assert lag == q + 1 && lag * size == q * size + size;
    }
  }

  lemma BlocksForMore(lag: nat, len: nat, size: nat)
    requires size > 0
    ensures lag * size >= 0 && BlocksFor(lag * size + len, size) == lag + BlocksFor(len, size)
  {
    MulLess(0, lag, size);
    var q, r := len / size, len % size;
    assert lag * size + len == (lag + q) * size + r;
    Remainder(lag + q, r, size);
  }

  /** Cutting the unread part again keeps the bytes. */
  lemma Recut(s: seq<Segment>, k: int, size: nat, no: bv32)
    requires 0 <= k <= |s| && size > 0
    ensures Bytes(s[..k] + Segments(Bytes(s[k..]), size, no, false)) == Bytes(s)
  {
    hide Bytes, Segments, Chunks;
    SegmentsSize(Bytes(s[k..]), size, no, false);
    BytesConcat(s[..k], Segments(Bytes(s[k..]), size, no, false));
    BytesConcat(s[..k], s[k..]);
    SplitAt(s, k);
  }

  /** Where a rewrite from an overtaken read position ends, n being the former number of blocks: the
      count and the last block agree exactly when the circle did not have to grow and no packet is missing. */
  lemma OvertakenEnd(n: int, m: int, k: int, lag: int, blocks: int, e: int, laps: int)
    requires 0 <= k < n <= m && lag == n - k && blocks >= 0 && laps >= 0 && 0 <= e < m
    requires k + blocks == e + laps * m && blocks - lag < m && (m == n <==> blocks - lag < n)
    ensures e == blocks - lag <==> 0 <= blocks - lag < n
  {
    if e == blocks - lag {
      if laps >= 2 {
        MulAtLeast(laps - 1, m);
        assert laps * m == (laps - 1) * m + m;
      }
      assert laps == 0 ==> laps * m == 0;
      assert laps == 1 ==> laps * m == m;
    }
    if 0 <= blocks - lag < n {
      assert (1 - laps) * n == n - laps * n;
      NoMultiple(1 - laps, n);
    }
  }

  /** What the resize of an overtaken buffer depends on: the passed blocks hold exactly as many bytes as
      that many packets of the new size, and the queue cut anew fits into the n blocks; or the queue
      is empty, and the bytes of the passed blocks still fill that many packets. */
  ghost predicate Refits(passed: seq<Segment>, s: seq<Segment>, n: int, size: nat)
    requires size > 0
  {
    || (|Bytes(passed)| == |passed| * size && BlocksFor(|Bytes(s)|, size) < n)
    || (Bytes(s) == [] && BlocksFor(|Bytes(passed)|, size) == |passed|)
  }

  /** Rewriting from an overtaken read position. */
  lemma Overtaken(ring: seq<Block>, f: int, cs: seq<Segment>, e: int, laps: int, passed: seq<Segment>, s: seq<Segment>,
                  size: nat, no: bv32, n: int, k: int, count: int, last: Block)
    requires DistinctBlocks(ring) && EndsAt(ring, f, e, last) && Wrote(ring, f, cs, |cs|, e)
    requires size > 0 && cs == Segments(Bytes(passed) + Bytes(s), size, no, false)
    requires 0 <= k < n <= |ring| && |passed| == n - k && laps >= 0 && k + |cs| == e + laps * |ring|
    requires count == |cs| - |passed| < |ring| && (|ring| == n <==> count < n)
    ensures (EndsAt(ring, f, count, last) && Bytes(Slice(ring, f, 0, count)) == Bytes(s)) <==> Refits(passed, s, n, size)
    ensures EndsAt(ring, f, count, last) ==>
              count >= 0 && Holds(ring, f, cs[|passed|..]) && Slice(ring, f, 0, count) == cs[|passed|..]
  {
    hide Bytes, Segments, Chunks, Flatten, BlocksFor;
    var data, lag := Bytes(passed) + Bytes(s), |passed|;
    SegmentsSize(data, size, no, false);
    OvertakenEnd(n, |ring|, k, lag, |cs|, e, laps);
    OvertakenBytes(Bytes(passed), Bytes(s), size, lag);
    BlocksForNat(|Bytes(s)|, size);
    if 0 <= count < n {
      assert Slice(ring, f, 0, count) == cs[lag..];
      SegmentChunks(data, size, no);
      BytesOfChunks(cs[lag..], Chunks(data, size)[lag..]);
    } else if 0 <= count {
      AtEnd(ring, f, e, last, count, ring[Wrapped(f + count, |ring|)]);
    }
  }

  lemma BlocksForNat(len: nat, size: nat)
    requires size > 0
    ensures BlocksFor(len, size) >= 0
  {
    ChunksCount(seq(len, _ => 0), size);
  }

  lemma SegmentChunks(data: Payload, size: nat, no: bv32)
    requires size > 0
    ensures var cs := Segments(data, size, no, false);
            |cs| == |Chunks(data, size)| && forall i :: 0 <= i < |cs| ==> cs[i].payload == Chunks(data, size)[i]
  {
    hide Chunks, Message, Advanced;
  }

  /** The blocks and the buffer of an empty send buffer. */
  method NewCircle(size: int) returns (first: Block, buffer: Buffer, ghost ring: seq<Block>)
    requires size > 0
    ensures |ring| == size && first == ring[0] && fresh(ring) && fresh(buffer)
    ensures DistinctBlocks(ring) && Chained(ring) && InPlace(ring, size)
    ensures BuffersChained([buffer]) && Heads([buffer], ring, size)
  {
    hide InPlace, NumberedFrom;
    var last, zero;
    first, last, zero, ring := NewBlocks(0, size);
    NumberedStart(ring, size);
    CloseCircle(first, last, ring);
    buffer := new Buffer(first);
    buffer.next := buffer;
  }

  method CloseCircle(first: Block, last: Block, ghost ring: seq<Block>)
    requires ring != [] && Lined(ring) && DistinctBlocks(ring) && first == ring[0] && last == ring[|ring| - 1]
    modifies last`next
    ensures Chained(ring)
  {
    last.next := first;
  }

  /** Where the first and the last buffer start. */
  lemma HeadsAt(bufs: seq<Buffer>, ring: seq<Block>, unit: int)
    requires unit > 0 && bufs != [] && Heads(bufs, ring, unit)
    ensures ring != [] && bufs[0].firstBlock == ring[0]
    ensures 0 <= (|bufs| - 1) * unit == |ring| - unit && bufs[|bufs| - 1].firstBlock == ring[(|bufs| - 1) * unit]
  {
    assert 0 * unit == 0;
    assert (|bufs| - 1) * unit == |bufs| * unit - unit;
  }

  lemma SmallRest(i: int, unit: int)
    requires 0 <= i < unit
    ensures Rest(i, unit) == i
  {
    SmallRemainder(i, unit);
  }

  lemma RestBehind(m: nat, unit: int, n: int, i: int)
    requires n == m * unit && 0 <= i - n < unit
    ensures Rest(i, unit) == i - n
  {
    Remainder(m, i - n, unit);
  }

  /** The new blocks continue the numbering on both sides of the join. */
  lemma InPlaceGrown(ring: seq<Block>, f: int, blocks: seq<Block>, m: nat, unit: int)
    requires 0 <= f < unit == |blocks| && |ring| == m * unit && InPlace(ring, unit) && NumberedFrom(blocks, f, unit)
    requires m > 0
    ensures f <= |ring| && InPlace(Grown(ring, f, blocks), unit)
  {
    hide Rest, Grown;
    MulAtLeast(m, unit);
    var r, n := Grown(ring, f, blocks), |ring|;
    forall i | 0 <= i < |r| ensures r[i].bufferNo == Rest(i, unit) {
      GrownPlace(ring, f, blocks, i);
      if i < f {
        SmallRest(i, unit);
      } else if i >= n {
        RestBehind(m, unit, n, i);
        if i < n + f {
          SmallRest(i - n, unit);
        }
      }
    }
  }

  /** Where an element of the grown circle comes from. */
  lemma GrownPlace<T>(ring: seq<T>, f: int, blocks: seq<T>, i: int)
    requires 0 <= f <= |ring| && f <= |blocks| && 0 <= i < |ring| + |blocks|
    ensures |Grown(ring, f, blocks)| == |ring| + |blocks|
    ensures Grown(ring, f, blocks)[i] == if i < f then blocks[|blocks| - f + i] else if i < |ring| then ring[i]
                                         else if i < |ring| + f then ring[i - |ring|] else blocks[i - |ring| - f]
  {
  }

  /** Positions counted from the first block do not change. */
  lemma SameAt<T>(ring: seq<T>, f: int, blocks: seq<T>, i: int)
    requires 0 <= f <= |blocks| && f < |ring| && 0 <= i < |ring|
    ensures |Grown(ring, f, blocks)| == |ring| + |blocks|
    ensures Grown(ring, f, blocks)[Wrapped(f + i, |ring| + |blocks|)] == ring[Wrapped(f + i, |ring|)]
  {
  }

  lemma JoinGrown(ring: seq<Block>, f: int, blocks: seq<Block>, m: nat, unit: int)
    requires 0 <= f < unit == |blocks| && |ring| == m * unit && m > 0 && InPlace(ring, unit) && NumberedFrom(blocks, f, unit)
    requires f <= |ring| && Chained(Spliced(ring, f, blocks)) && DistinctBlocks(Spliced(ring, f, blocks))
    ensures Chained(Grown(ring, f, blocks)) && DistinctBlocks(Grown(ring, f, blocks)) && InPlace(Grown(ring, f, blocks), unit)
    ensures |Grown(ring, f, blocks)| == |ring| + unit && Grown(ring, f, blocks)[f] == (if f < |ring| then ring[f] else blocks[0])
  {
    hide Chained, DistinctBlocks, InPlace, NumberedFrom;
    InPlaceGrown(ring, f, blocks, m, unit);
    ChainedRotated(Spliced(ring, f, blocks), unit);
  }

  lemma GrownMembers(ring: seq<Block>, f: int, blocks: seq<Block>)
    requires 0 <= f <= |ring| && f <= |blocks|
    ensures var r := Grown(ring, f, blocks); forall i :: 0 <= i < |r| ==> r[i] in ring || r[i] in blocks
  {
  }

  lemma HeadsBehind(bufs: seq<Buffer>, ring: seq<Block>, unit: int)
    requires bufs != [] && Heads(bufs, ring, unit)
    ensures |ring| == |bufs| * unit
    ensures forall j :: 0 < j < |bufs| ==> 0 <= j * unit < |ring| && bufs[j].firstBlock == ring[j * unit]
    ensures |ring| > 0 && bufs[0].firstBlock == ring[0]
  {
    assert bufs[0].firstBlock == ring[0 * unit];
  }

  /** The buffers' starts after the join: the first buffer takes the new block numbered 0, the new
      buffer takes the old start. */
  lemma HeadsGrown(bufs: seq<Buffer>, nbuf: Buffer, ring: seq<Block>, f: int, blocks: seq<Block>, unit: int)
    requires 0 <= f < unit == |blocks| && bufs != [] && |ring| == |bufs| * unit
    requires DistinctBuffers(bufs + [nbuf])
    requires forall j :: 0 < j < |bufs| ==> 0 <= j * unit < |ring| && bufs[j].firstBlock == ring[j * unit]
    requires f <= |ring| && ring != [] && bufs[0].firstBlock == (if f == 0 then ring[0] else blocks[unit - f])
    requires nbuf.firstBlock == if f == 0 then blocks[0] else ring[0]
    ensures Heads(bufs + [nbuf], Grown(ring, f, blocks), unit)
  {
    var b, r := bufs + [nbuf], Grown(ring, f, blocks);
    assert |r| == |bufs| * unit + unit == |b| * unit;
    forall j | 0 <= j < |b| ensures 0 <= j * unit < |r| && b[j].firstBlock == r[j * unit] {
      if j == 0 {
        assert 0 * unit == 0;
      } else if j < |bufs| {
        MulAtLeast(j, unit);
      } else {
        assert j * unit == |ring|;
      }
    }
  }

  /** A position splits into whole buffers and a rest, around a circle of m buffers. */
  lemma SplitPosition(m: int, unit: int, n: int, pos: int)
    requires unit > 0 && m > 0 && n == m * unit && 0 <= pos < n + unit
    ensures var q, r := Whole(pos, unit), Rest(pos, unit);
            && 0 <= r < unit && 0 <= q <= m && pos == q * unit + r && n >= unit
            && (q == 0 ==> r == pos) && 0 <= Wrapped(q, m) < m
            && Wrapped(q * unit, n) == Wrapped(q, m) * unit
            && 0 <= Wrapped(q * unit, n) < n && Wrapped(Wrapped(q * unit, n) + r, n) == Wrapped(pos, n)
  {
    var q, r := Whole(pos, unit), Rest(pos, unit);
    MulAtLeast(m, unit);
    assert (m + 1) * unit == n + unit;
    if q > m {
      MulLess(m + 1, q, unit);
    }
    if q < m {
      MulLess(q + 1, m, unit);
      assert (q + 1) * unit == q * unit + unit;
    }
    assert 0 * unit == 0;
  }

  lemma JumpFacts(bufs: seq<Buffer>, ring: seq<Block>, unit: int, pos: int)
    requires unit > 0 && bufs != [] && Heads(bufs, ring, unit) && 0 <= pos
    ensures pos < |ring| + unit ==>
            var q, r := Whole(pos, unit), Rest(pos, unit);
            && 0 <= r < unit && 0 <= q <= |bufs| && pos == q * unit + r && |ring| >= unit && |ring| == |bufs| * unit
            && (q == 0 ==> r == pos)
            && 0 <= Wrapped(q, |bufs|) < |bufs| && 0 <= Wrapped(q * unit, |ring|) < |ring|
            && bufs[Wrapped(q, |bufs|)].firstBlock == ring[Wrapped(q * unit, |ring|)]
            && Wrapped(q * unit, |ring|) == Wrapped(q, |bufs|) * unit
            && Wrapped(Wrapped(q * unit, |ring|) + r, |ring|) == Wrapped(pos, |ring|)
  {
    if pos < |ring| + unit {
      SplitPosition(|bufs|, unit, |ring|, pos);
    }
  }

  lemma WholePositive(pos: int, unit: int)
    requires pos >= 0 && unit > 0
    ensures Whole(pos, unit) >= 0 && 0 <= Rest(pos, unit) < unit
  {
  }

  /** Where a buffer starts. */
  lemma HeadIndex(bufs: seq<Buffer>, ring: seq<Block>, unit: int, buffer: Buffer) returns (k: int)
    requires unit > 0 && Heads(bufs, ring, unit) && buffer in bufs
    ensures 0 <= k < |ring| && buffer.firstBlock == ring[k] && unit <= |ring|
    ensures forall j :: 0 <= j < |bufs| && bufs[j] == buffer && DistinctBuffers(bufs) ==> k == j * unit
  {
    var j :| 0 <= j < |bufs| && bufs[j] == buffer;
    k := j * unit;
    MulAtLeast(|bufs|, unit);
  }

  lemma MulLess(a: int, b: int, unit: int)
    requires a <= b && unit > 0
    ensures a * unit <= b * unit
  {
  }

  lemma RotatedSame<T>(s: seq<T>, k: int)
    requires 0 <= k <= |s|
    ensures forall i :: 0 <= i < |s| ==> Rotated(s, k)[i] in s
  {
    assert s == s[..k] + s[k..];
  }

  lemma RotatedKeeps<T>(s: seq<T>, k: int, x: T)
    requires 0 <= k <= |s| && x in s
    ensures x in Rotated(s, k)
  {
    assert s == s[..k] + s[k..];
  }

  /** Turning both circles to another buffer keeps their agreement. */
  lemma RotateIndex(ring: seq<Block>, bufs: seq<Buffer>, unit: int, j: int, k: int)
    requires Circle(ring, unit) && Jumps(bufs, ring, unit) && 0 <= j < |bufs| && k == j * unit && 0 <= k < |ring|
    ensures Circle(Rotated(ring, k), unit) && Jumps(Rotated(bufs, j), Rotated(ring, k), unit)
  {
    hide Chained, DistinctBlocks, InPlace, Heads, DistinctBuffers, BuffersChained, Rotated;
    HeadsBehind(bufs, ring, unit);
    ChainedRotated(ring, k);
    BuffersRotated(bufs, j);
    RotateInPlace(ring, bufs, unit, j, k);
    RotateHeads(ring, bufs, unit, j, k);
  }

  lemma RotateInPlace(ring: seq<Block>, bufs: seq<Buffer>, unit: int, j: int, k: int)
    requires InPlace(ring, unit) && |ring| == |bufs| * unit && k == j * unit && 0 <= k < |ring|
    ensures InPlace(Rotated(ring, k), unit)
  {
    var r := Rotated(ring, k);
    forall i | 0 <= i < |r| ensures r[i].bufferNo == Rest(i, unit) {
      ModShift(i, j, unit);
      ModShift(i + k - |ring|, |bufs|, unit);
    }
  }

  lemma RotateHeads(ring: seq<Block>, bufs: seq<Buffer>, unit: int, j: int, k: int)
    requires unit > 0 && Heads(bufs, ring, unit) && 0 <= j < |bufs| && k == j * unit && 0 <= k < |ring|
    ensures Heads(Rotated(bufs, j), Rotated(ring, k), unit)
  {
    var b, r, m := Rotated(bufs, j), Rotated(ring, k), |bufs|;
    forall i | 0 <= i < m ensures 0 <= i * unit < |r| && b[i].firstBlock == r[i * unit] {
      var t := Wrapped(i + j, m);
      assert bufs[t].firstBlock == ring[t * unit];
      HeadTurn(i, j, m, unit);
    }
  }

  lemma HeadTurn(i: int, j: int, m: int, unit: int)
    requires unit > 0 && 0 <= i < m && 0 <= j < m
    ensures 0 <= i * unit < m * unit && Wrapped(i + j, m) * unit == Wrapped(i * unit + j * unit, m * unit)
  {
    MulLess(i + 1, m, unit);
    assert (i + 1) * unit == i * unit + unit;
    assert (i + j) * unit == i * unit + j * unit;
    assert (i + j - m) * unit == i * unit + j * unit - m * unit;
    if i + j < m {
      MulLess(i + j + 1, m, unit);
      assert (i + j + 1) * unit == i * unit + j * unit + unit;
    } else {
      MulLess(m, i + j, unit);
    }
  }

  lemma RotateHolds(ring: seq<Block>, f: int, segs: seq<Segment>, offset: int, k: int, r: int)
    requires Holds(ring, f, segs) && 0 <= offset <= |segs|
    requires 0 <= k < |ring| && 0 <= r < |ring| && Wrapped(k + r, |ring|) == Wrapped(f + offset, |ring|)
    ensures Holds(Rotated(ring, k), r, segs[offset..])
  {
    hide Rotated;
    var s, n := Rotated(ring, k), |ring|;
    TurnedAt(ring, f, offset, k, r, 0);
    forall i | 0 <= i < |segs| - offset ensures Stored(At(s, r, i)) == segs[offset..][i] {
      TurnedAt(ring, f, offset, k, r, i);
    }
  }

  lemma RotateEnds(ring: seq<Block>, f: int, offset: int, k: int, r: int, at: int, b: Block)
    requires EndsAt(ring, f, at, b) && 0 <= offset < |ring|
    requires 0 <= k < |ring| && 0 <= r < |ring| && Wrapped(k + r, |ring|) == Wrapped(f + offset, |ring|)
    ensures EndsAt(Rotated(ring, k), r, Turned(at, offset, |ring|), b)
  {
    hide Rotated;
    TurnedAt(ring, f, offset, k, r, Turned(at, offset, |ring|));
  }

  /** What is left of earlier segments from a read position t places behind the front, if n segments
      have not reached it. */
  ghost function Left(ring: seq<Block>, f: int, t: int, n: int): seq<Segment>
    requires 0 <= f < |ring| && 0 <= t < |ring|
    reads ring`payload, ring`msgNo
  {
    if t <= n then [] else Slice(ring, f, t, |ring|)
  }

  /** What an acknowledgment of `offset` segments leaves behind the read position. */
  ghost function PassedBy(ring: seq<Block>, f: int, ahead: int, segs: seq<Segment>, offset: int): seq<Segment>
    requires 0 <= f < |ring| && 0 <= ahead < |ring| && 0 <= offset <= |segs|
    reads ring`payload, ring`msgNo
  {
    if ahead > |segs| then Slice(ring, f, ahead, |ring|) + segs[..offset]
    else if offset > ahead then segs[ahead..offset] else []
  }

  /** The queue counted from its new front. */
  lemma RotateFront(ring: seq<Block>, f: int, segs: seq<Segment>, offset: int, k: int, r: int, ahead: int, last: Block, curr: Block)
    requires Holds(ring, f, segs) && EndsAt(ring, f, |segs|, last) && EndsAt(ring, f, ahead, curr)
    requires 0 <= offset <= |segs| < |ring| && 0 <= ahead < |ring| && 0 <= f < |ring|
    requires 0 <= k < |ring| && 0 <= r < |ring| && Wrapped(k + r, |ring|) == Wrapped(f + offset, |ring|)
    ensures |Rotated(ring, k)| == |ring| && 0 <= Turned(ahead, offset, |ring|) < |ring|
    ensures var s, t := Rotated(ring, k), Turned(ahead, offset, |ring|);
            && Holds(s, r, segs[offset..]) && EndsAt(s, r, |segs| - offset, last) && EndsAt(s, r, t, curr)
            && Left(s, r, t, |segs| - offset) == PassedBy(ring, f, ahead, segs, offset)
  {
    hide Holds, EndsAt, Rotated, Slice, Turned, Wrapped;
    RotateHolds(ring, f, segs, offset, k, r);
    RotateEnds(ring, f, offset, k, r, |segs|, last);
    RotateEnds(ring, f, offset, k, r, ahead, curr);
    RotatePassed(ring, f, offset, k, r, |segs|, segs, ahead);
    TurnedIs(|segs|, offset, |ring|);
  }

  /** Acknowledged segments stay in their blocks, behind the new front. */
  lemma RotatePassed(ring: seq<Block>, f: int, offset: int, k: int, r: int, count: int, segs: seq<Segment>, ahead: int)
    requires Holds(ring, f, segs) && count == |segs| && 0 <= offset <= count && 0 <= ahead < |ring|
    requires 0 <= k < |ring| && 0 <= r < |ring| && Wrapped(k + r, |ring|) == Wrapped(f + offset, |ring|)
    ensures |Rotated(ring, k)| == |ring| && 0 <= Turned(ahead, offset, |ring|) < |ring|
    ensures var t, s := Turned(ahead, offset, |ring|), Rotated(ring, k);
            (if t <= count - offset then [] else Slice(s, r, t, |s|)) ==
            if ahead > count then Slice(ring, f, ahead, |ring|) + segs[..offset]
            else if offset > ahead then segs[ahead..offset] else []
  {
    hide Rotated;
    var t, s, n := Turned(ahead, offset, |ring|), Rotated(ring, k), |ring|;
    TurnedAt(ring, f, offset, k, r, 0);
    forall i | t <= i < n ensures At(s, r, i) == ring[Wrapped(Wrapped(f + offset, n) + i, n)] {
      TurnedAt(ring, f, offset, k, r, i);
    }
    hide Slice;
    PassedAt(ring, s, f, r, offset, count, segs, ahead, t);
  }

  lemma PassedAt(ring: seq<Block>, s: seq<Block>, f: int, r: int, offset: int, count: int, segs: seq<Segment>, ahead: int, t: int)
    requires Holds(ring, f, segs) && 0 <= f < |ring| && count == |segs| < |ring| == |s| && 0 <= offset <= count
    requires 0 <= ahead < |ring| && 0 <= r < |s|
    requires 0 <= t < |s| && t == if ahead >= offset then ahead - offset else ahead - offset + |ring|
    requires forall i :: t <= i < |s| ==> At(s, r, i) == ring[Wrapped(Wrapped(f + offset, |ring|) + i, |ring|)]
    ensures (if t <= count - offset then [] else Slice(s, r, t, |s|)) ==
            if ahead > count then Slice(ring, f, ahead, |ring|) + segs[..offset]
            else if offset > ahead then segs[ahead..offset] else []
  {
    hide Slice, Stored, Holds;
    if t > count - offset {
      var now, was := Slice(s, r, t, |s|), if ahead > count then Slice(ring, f, ahead, |ring|) + segs[..offset] else segs[ahead..offset];
      forall i | 0 <= i < |now| ensures now[i] == was[i] {
        assert now[i] == Stored(At(s, r, t + i));
        SameTurned(ring, f, offset, ahead, t, i);
        var j := if ahead + i < |ring| then ahead + i else ahead + i - |ring|;
        HeldAt(ring, f, segs, j);
      }
      assert now == was;
    }
  }

  lemma SameTurned<T>(ring: seq<T>, f: int, offset: int, ahead: int, t: int, i: int)
    requires 0 <= f < |ring| && 0 <= offset < |ring| && 0 <= ahead < |ring| && 0 <= i && t + i < |ring|
    requires t == if ahead >= offset then ahead - offset else ahead - offset + |ring|
    ensures ring[Wrapped(Wrapped(f + offset, |ring|) + (t + i), |ring|)] ==
            At(ring, f, if ahead + i < |ring| then ahead + i else ahead + i - |ring|)
  {
  }

  /** The same place counted from both fronts. */
  lemma TurnedAt<T>(ring: seq<T>, f: int, offset: int, k: int, r: int, i: int)
    requires 0 <= f < |ring| && 0 <= offset < |ring| && 0 <= i < |ring|
    requires 0 <= k < |ring| && 0 <= r < |ring| && Wrapped(k + r, |ring|) == Wrapped(f + offset, |ring|)
    ensures |Rotated(ring, k)| == |ring|
    ensures Rotated(ring, k)[Wrapped(r + i, |ring|)] == ring[Wrapped(Wrapped(f + offset, |ring|) + i, |ring|)]
  {
  }

  lemma RotateAnchor(ring: seq<Block>, bufs: seq<Buffer>, unit: int, size: int, pos: int, j: int, k: int)
    requires unit > 0 && size == |ring| && 0 <= j < |bufs| && 0 <= k < |ring| && unit <= |ring| && 0 <= pos < |ring| + unit
    requires 0 <= Rest(pos, unit) < unit && Wrapped(k + Rest(pos, unit), |ring|) == Wrapped(pos, |ring|)
    ensures Anchored(Rotated(ring, k), Rotated(bufs, j), unit, size, Rest(pos, unit), ring[Wrapped(pos, |ring|)], bufs[j])
  {
    hide Rest;
  }

  lemma NextBehind(ring: seq<Block>, f: int, at: int, b: Block)
    requires Chained(ring) && EndsAt(ring, f, at, b)
    ensures b.next != null && EndsAt(ring, f, Step(at, |ring|), b.next)
  {
    assert ring[Wrapped(f + at, |ring|)].next == ring[Wrapped(Wrapped(f + at, |ring|) + 1, |ring|)];
  }

  lemma ConsDrop<T>(x: T, s: seq<T>, k: nat)
    requires 0 < k <= |s| + 1
    ensures ([x] + s)[k..] == s[k - 1..]
  {
  }

  lemma SplitAt<T>(s: seq<T>, k: int)
    requires 0 <= k <= |s|
    ensures s[..k] + s[k..] == s
  {
  }

  lemma EndsInside(ring: seq<Block>, f: int, at: int, b: Block)
    requires EndsAt(ring, f, at, b)
    ensures b in ring && 0 <= at < |ring| && 0 <= f < |ring|
  {
  }

  /** Packet i of the cut data. */
  lemma {:induction false} ChunkAt(data: Payload, size: nat, i: int)
    requires size > 0 && 0 <= i < |Chunks(data, size)|
    ensures 0 <= i * size < |data|
    ensures Chunks(data, size)[i] == data[i * size..if (i + 1) * size < |data| then (i + 1) * size else |data|]
    ensures (i + 1) * size == i * size + size
  {
    hide Chunks;
    ChunksStep(data, size);
    if i > 0 {
      var j := i - 1;
      assert Chunks(data, size)[i] == Chunks(data[size..], size)[j];
      ChunkAt(data[size..], size, j);
      assert i * size == j * size + size;
    }
  }

  lemma NumberedStart(ring: seq<Block>, unit: int)
    requires 0 < unit && |ring| == unit && NumberedFrom(ring, 0, unit)
    ensures InPlace(ring, unit)
  {
    forall i | 0 <= i < |ring| ensures ring[i].bufferNo == Rest(i, unit) {
      SmallRemainder(i, unit);
    }
  }
}
