/** The buffering of md5.cpp: how appends of any size are cut into 64-byte blocks, counted and
    padded.  The compression of one block is any function. */
module Md5 {
  import opened Arithmetic
  import opened Records

  const WORD: int := 0x1_0000_0000
  const BLOCK: int := 64
  const INT_LIMIT: int := 0x8000_0000

  type Word = x: int | 0 <= x < WORD

  /** The four words of the state, and the values they start from (section 3.3 of RFC 1321). */
  datatype Digest = Digest(a: Word, b: Word, c: Word, d: Word)

  const INITIAL := Digest(0x6745_2301, 0xefcd_ab89, 0x98ba_dcfe, 0x1032_5476)

  /** What compressing the full blocks of a message from the front gives. */
  function Absorbed(compress: (Digest, seq<byte>) -> Digest, d: Digest, m: seq<byte>): Digest
    decreases |m|
  {
    if |m| < BLOCK then d else Absorbed(compress, compress(d, m[..BLOCK]), m[BLOCK..])
  }

  /** Whole blocks can be absorbed separately. */
  lemma {:induction false} AbsorbConcat(compress: (Digest, seq<byte>) -> Digest, d: Digest, a: seq<byte>, b: seq<byte>)
    requires |a| % BLOCK == 0
    ensures Absorbed(compress, d, a + b) == Absorbed(compress, Absorbed(compress, d, a), b)
    decreases |a|
  {
    if |a| == 0 {
      assert a + b == b;
    } else {
      assert |a| >= BLOCK;
      assert (a + b)[..BLOCK] == a[..BLOCK] && (a + b)[BLOCK..] == a[BLOCK..] + b;
      AbsorbConcat(compress, compress(d, a[..BLOCK]), a[BLOCK..], b);
    }
  }

  /** One more block. */
  lemma AbsorbBlock(compress: (Digest, seq<byte>) -> Digest, d: Digest, a: seq<byte>, block: seq<byte>)
    requires |a| % BLOCK == 0 && |block| == BLOCK
    ensures Absorbed(compress, d, a + block) == compress(Absorbed(compress, d, a), block)
  {
    AbsorbConcat(compress, d, a, block);
    assert block[..BLOCK] == block && block[BLOCK..] == [];
  }

  // ---------- padding ----------

  function Zeros(n: nat): (s: seq<byte>)
    ensures |s| == n && forall i :: 0 <= i < n ==> s[i] == 0
  {
    seq(n, _ => 0 as byte)
  }

  /** Section 3.1 of RFC 1321: a one bit, then zeros up to 56 bytes modulo 64. */
  function PadLength(n: nat): (k: nat)
    ensures 1 <= k <= BLOCK && (n + k) % BLOCK == 56
  {
    (55 - n) % BLOCK + 1
  }

  function Padding(n: nat): (s: seq<byte>)
    ensures |s| == PadLength(n)
  {
    [0x80 as byte] + Zeros(PadLength(n) - 1)
  }

  /** Section 3.2: the length in bits as eight bytes, low-order first, modulo 2^64. */
  function LengthBytes(n: nat): (s: seq<byte>)
    ensures |s| == 8
  {
    Bytes4(8 * n % WORD) + Bytes4(8 * n / WORD % WORD)
  }

  function Bytes4(w: int): (s: seq<byte>)
    requires 0 <= w < WORD
    ensures |s| == 4
  {
    [(w % 0x100) as byte, (w / 0x100 % 0x100) as byte, (w / 0x1_0000 % 0x100) as byte, (w / 0x100_0000) as byte]
  }

  /** The sixteen bytes of a digest. */
  function DigestBytes(d: Digest): (s: seq<byte>)
    ensures |s| == 16
  {
    Bytes4(d.a) + Bytes4(d.b) + Bytes4(d.c) + Bytes4(d.d)
  }

  /** Every word can be read back from the digest's bytes. */
  lemma DigestWords(d: Digest)
    ensures var s := DigestBytes(d);
            Value(s[0..4]) == d.a && Value(s[4..8]) == d.b && Value(s[8..12]) == d.c && Value(s[12..16]) == d.d
  {
    hide Value, Bytes4;
    var s := DigestBytes(d);
    NoBytes();
    assert s[0..4] == Bytes4(d.a) + [] && s[4..8] == Bytes4(d.b) + [] && s[8..12] == Bytes4(d.c) + [] && s[12..16] == Bytes4(d.d) + [];
    WordValue(d.a, []);
    WordValue(d.b, []);
    WordValue(d.c, []);
    WordValue(d.d, []);
  }

  function Value(s: seq<byte>): int {
    if s == [] then 0 else s[0] as int + 0x100 * Value(s[1..])
  }

  /** The eight bytes read low-order first are the bit count modulo 2^64. */
  lemma LengthValue(n: nat)
    ensures Value(LengthBytes(n)) == 8 * n % (WORD * WORD)
  {
    hide Value, Bytes4;
    var low, high := 8 * n % WORD, 8 * n / WORD % WORD;
    WordValue(low, Bytes4(high));
    WordValue(high, []);
    assert Bytes4(high) + [] == Bytes4(high);
    NoBytes();
    var q := 8 * n / WORD / WORD;
    assert 8 * n == q * (WORD * WORD) + high * WORD + low;
  }

  lemma NoBytes()
    ensures Value([]) == 0
  {
  }

  lemma WordValue(w: int, rest: seq<byte>)
    requires 0 <= w < WORD
    ensures Value(Bytes4(w) + rest) == w + WORD * Value(rest)
  {
    var s := Bytes4(w) + rest;
    assert s[1..][1..] == s[2..] && s[2..][1..] == s[3..] && s[3..][1..] == rest;
    assert Value(s[3..]) == s[3] as int + 0x100 * Value(rest);
    assert Value(s[2..]) == s[2] as int + 0x100 * Value(s[3..]);
    assert Value(s[1..]) == s[1] as int + 0x100 * Value(s[2..]);
    FourBytes(w);
  }

  lemma FourBytes(w: int)
    requires 0 <= w < WORD
    ensures w % 0x100 + 0x100 * (w / 0x100 % 0x100 + 0x100 * (w / 0x1_0000 % 0x100 + 0x100 * (w / 0x100_0000))) == w
  {
    var a := w / 0x100;
    var b := a / 0x100;
    assert w / 0x1_0000 == b;
    assert w / 0x100_0000 == b / 0x100;
  }

  /** The message as RFC 1321 hashes it. */
  function Padded(m: seq<byte>): seq<byte> {
    m + Padding(|m|) + LengthBytes(|m|)
  }

  lemma PaddedWhole(m: seq<byte>)
    ensures |Padded(m)| % BLOCK == 0 && m <= Padded(m)
  {
    hide Padding, LengthBytes, PadLength;
    assert |Padded(m)| == |m| + PadLength(|m|) + 8;
  }

  /** The padding byte by byte (sections 3.1 and 3.2 of RFC 1321): a one bit, the fewest zeros that leave
      room for the length, and the length in bits. */
  ghost predicate WellPadded(m: seq<byte>, p: seq<byte>) {
    && |p| % BLOCK == 0 && |m| + 9 <= |p| <= |m| + 72 && p[..|m|] == m
    && p[|m|] == 0x80 && (forall i :: |m| < i < |p| - 8 ==> p[i] == 0)
    && Value(p[|p| - 8..]) == 8 * |m| % (WORD * WORD)
  }

  lemma PaddedWell(m: seq<byte>)
    ensures WellPadded(m, Padded(m))
  {
    hide LengthBytes, Value;
    var p, k := Padded(m), PadLength(|m|);
    LengthValue(|m|);
    assert |p| == |m| + k + 8;
    assert p[|p| - 8..] == LengthBytes(|m|);
    forall i | |m| < i < |p| - 8 ensures p[i] == 0 {
      assert p[i] == Padding(|m|)[i - |m|];
    }
  }

  /** The initial words as RFC 1321 lists their bytes. */
  lemma InitialBytes()
    ensures DigestBytes(INITIAL) ==
            [0x01, 0x23, 0x45, 0x67] + [0x89, 0xab, 0xcd, 0xef] + [0xfe, 0xdc, 0xba, 0x98] + [0x76, 0x54, 0x32, 0x10]
  {
    hide Bytes4;
    assert Bytes4(INITIAL.a) == [0x01, 0x23, 0x45, 0x67] by { LowToHigh(0x6745_2301, 0x67_4523, 0x6745, 0x67); }
    assert Bytes4(INITIAL.b) == [0x89, 0xab, 0xcd, 0xef] by { LowToHigh(0xefcd_ab89, 0xef_cdab, 0xefcd, 0xef); }
    assert Bytes4(INITIAL.c) == [0xfe, 0xdc, 0xba, 0x98] by { LowToHigh(0x98ba_dcfe, 0x98_badc, 0x98ba, 0x98); }
    assert Bytes4(INITIAL.d) == [0x76, 0x54, 0x32, 0x10] by { LowToHigh(0x1032_5476, 0x10_3254, 0x1032, 0x10); }
  }

  /** The bytes of a word, given what is left of it behind each. */
  lemma LowToHigh(w: Word, w1: int, w2: int, w3: int)
    requires 0 <= w - 0x100 * w1 < 0x100 && 0 <= w1 - 0x100 * w2 < 0x100 && 0 <= w2 - 0x100 * w3 < 0x100 && 0 <= w3 < 0x100
    ensures Bytes4(w) == [(w - 0x100 * w1) as byte, (w1 - 0x100 * w2) as byte, (w2 - 0x100 * w3) as byte, w3 as byte]
  {
    Quotient(w, 0x100, w1);
    Quotient(w, 0x1_0000, w2);
    Quotient(w, 0x100_0000, w3);
    Quotient(w1, 0x100, w2);
    Quotient(w2, 0x100, w3);
  }

  lemma Quotient(w: int, d: int, q: int)
    requires d > 0 && 0 <= w - d * q < d
    ensures w / d == q && w % d == w - d * q
  {
    Remainder(q, w - d * q, d);
    assert q * d + (w - d * q) == w;
  }

  /** A single block is compressed once. */
  lemma AbsorbOne(compress: (Digest, seq<byte>) -> Digest, d: Digest, block: seq<byte>)
    requires |block| == BLOCK
    ensures Absorbed(compress, d, block) == compress(d, block)
  {
    AbsorbBlock(compress, d, [], block);
    assert [] + block == block;
  }

  // ---------- counting bits ----------

  /** The two words count bits modulo 2^64. */
  ghost predicate Counts(low: int, high: int, n: nat) {
    0 <= low < WORD && 0 <= high < WORD && low == 8 * n % WORD && high == 8 * n / WORD % WORD
  }

  /** The low word tells the place inside the block. */
  lemma PlaceInBlock(low: int, high: int, n: nat)
    requires Counts(low, high, n)
    ensures low / 8 % BLOCK == n % BLOCK
    ensures (55 - low / 8) % BLOCK == (55 - n) % BLOCK
  {
    var k := 8 * n / WORD * 0x80_0000;
    assert low == 8 * (n - k * BLOCK);
    assert low / 8 == n - k * BLOCK;
    ModShift(n, -k, BLOCK);
    ModShift(55 - n, k, BLOCK);
  }

  lemma CarryWord(q: nat, r: nat, carry: int)
    requires carry == 0 || carry == 1
    ensures (q + r + carry) % WORD == if carry == 1 then ((q % WORD + r) % WORD + 1) % WORD else (q % WORD + r) % WORD
  {
  }

  /** Carrying over keeps the count. */
  lemma CountCarries(low: int, high: int, n: nat, k: nat)
    requires Counts(low, high, n)
    ensures var nbits := 8 * k % WORD;
            var low' := (low + nbits) % WORD;
            var high' := (high + k / 0x2000_0000) % WORD;
            Counts(low', if low' < nbits then (high' + 1) % WORD else high', n + k)
  {
    var q, r := 8 * n / WORD, 8 * k / WORD;
    var nbits := 8 * k % WORD;
    assert r == k / 0x2000_0000;
    assert 8 * (n + k) == (q + r) * WORD + low + nbits;
    var carry := if low + nbits >= WORD then 1 else 0;
    Remainder(q + r + carry, low + nbits - carry * WORD, WORD);
    assert (q + r + carry) * WORD + (low + nbits - carry * WORD) == 8 * (n + k);
    CarryWord(q, r, carry);
  }

  // ---------- the state ----------

  /** How many bytes of n are in full blocks. */
  function Full(n: nat): (f: nat)
    ensures f <= n && f % BLOCK == 0 && n - f < BLOCK && n - f == n % BLOCK
  {
    n - n % BLOCK
  }

  class State {
    const compress: (Digest, seq<byte>) -> Digest
    var digest: Digest
    var count0: int
    var count1: int
    var buf: array<byte>
    ghost var message: seq<byte>

    /** Everything up to the last full block has been compressed, and the rest waits in the buffer. */
    ghost predicate Valid()
      reads this, buf
    {
      && buf.Length == BLOCK
      && Counts(count0, count1, |message|)
      && digest == Absorbed(compress, INITIAL, message[..Full(|message|)])
      && buf[..|message| % BLOCK] == message[Full(|message|)..]
    }

    /** `md5_init` */
    constructor (compress: (Digest, seq<byte>) -> Digest)
      ensures Valid() && message == [] && this.compress == compress && fresh(buf)
    {
      this.compress := compress;
      digest := INITIAL;
      count0, count1 := 0, 0;
      buf := new byte[64];
      message := [];
    }

    /** `md5_process` */
    method Process(block: seq<byte>)
      requires |block| == BLOCK
      modifies this`digest
      ensures digest == compress(old(digest), block)
    {
      digest := compress(digest, block);
    }

    /** `memcpy` into the buffer. */
    method Copy(at: int, data: seq<byte>)
      requires 0 <= at && at + |data| <= buf.Length
      modifies buf
      ensures buf[..at + |data|] == old(buf[..at]) + data
    {
      forall i | 0 <= i < |data| {
        buf[at + i] := data[i];
      }
    }

    /** The length update at the head of `md5_append`. */
    method Count(nbytes: int)
      requires 0 < nbytes && Counts(count0, count1, |message|)
      modifies this`count0, this`count1
      ensures Counts(count0, count1, |message| + nbytes)
    {
      CountCarries(count0, count1, |message|, nbytes);
      var nbits := nbytes * 8 % WORD;
      count1 := (count1 + nbytes / 0x2000_0000) % WORD;
      count0 := (count0 + nbits) % WORD;
      if count0 < nbits {
        count1 := (count1 + 1) % WORD;
      }
    }

    /** The loop over full blocks; the rest goes into the buffer. */
    method AppendBlocks(data: seq<byte>, from: int, ghost done: seq<byte>)
      requires 0 <= from <= |data| && |done| % BLOCK == 0 && digest == Absorbed(compress, INITIAL, done) && buf.Length == BLOCK
      modifies this`digest, buf
      ensures var m := done + data[from..];
              digest == Absorbed(compress, INITIAL, m[..Full(|m|)]) && buf[..|m| % BLOCK] == m[Full(|m|)..]
    {
      hide Absorbed;
      var p, left := from, |data| - from;
      ghost var d := done;
      while left >= 64
        invariant from <= p <= |data| && left == |data| - p && d == done + data[from..p] && |d| % BLOCK == 0
        invariant digest == Absorbed(compress, INITIAL, d)
      {
        AbsorbBlock(compress, INITIAL, d, data[p..p + 64]);
        Process(data[p..p + 64]);
        d := d + data[p..p + 64];
        p := p + 64;
        left := left - 64;
      }
      ghost var m := done + data[from..];
      assert m == d + data[p..] && |m| % BLOCK == left && Full(|m|) == |d|;
      assert m[..|d|] == d && m[|d|..] == data[p..];
      if left != 0 {
        Copy(0, data[p..]);
      }
    }

    /** The first `copied` bytes of data have filled the buffer. */
    method ProcessBuffer(ghost data: seq<byte>, ghost copied: int)
      requires 0 < copied <= |data| && copied < BLOCK && (|message| + copied) % BLOCK == 0 && buf.Length == BLOCK
      requires digest == Absorbed(compress, INITIAL, message[..Full(|message|)])
      requires buf[..] == message[Full(|message|)..] + data[..copied]
      modifies this`digest
      ensures digest == Absorbed(compress, INITIAL, message + data[..copied])
    {
      hide Absorbed, Full;
      CompletedBlock(message, data, copied);
      AbsorbBlock(compress, INITIAL, message[..Full(|message|)], buf[..]);
      Process(buf[..]);
    }

    /** The initial partial block of `md5_append`: data goes behind what waits in the buffer, and a
        completed block is compressed. */
    method Fill(offset: int, data: seq<byte>) returns (copied: int, full: bool)
      requires buf.Length == BLOCK && 0 < offset == |message| % BLOCK && data != []
      requires digest == Absorbed(compress, INITIAL, message[..Full(|message|)])
      requires buf[..offset] == message[Full(|message|)..]
      modifies this`digest, buf
      ensures 0 < copied <= |data| && copied < BLOCK
      ensures full ==> (|message| + copied) % BLOCK == 0 && digest == Absorbed(compress, INITIAL, message + data[..copied])
      ensures !full ==> |message| % BLOCK + |data| < BLOCK && digest == old(digest)
      ensures !full ==> buf[..offset + |data|] == message[Full(|message|)..] + data
    {
      hide Absorbed, Full;
      copied := if offset + |data| > 64 then 64 - offset else |data|;
      Copy(offset, data[..copied]);
      full := offset + copied >= 64;
      if full {
        FillsUp(|message|, copied);
        assert buf[..] == buf[..offset + copied];
        ProcessBuffer(data, copied);
      } else {
        assert data[..copied] == data;
      }
    }

    /** `md5_append`, for any length that is an `int`.  The sum of the place in the buffer and the length
        overflows exactly when it reaches 2^31. */
    method Append(data: seq<byte>) returns (overflows: bool)
      requires Valid() && |data| < INT_LIMIT
      modifies this, buf
      ensures overflows <==> Overruns(old(message), data)
      ensures !overflows ==> Valid() && message == old(message) + data
      ensures buf == old(buf)
    {
      hide Absorbed, Counts, Full;
      var nbytes := |data|;
      PlaceInBlock(count0, count1, |message|);
      var offset := count0 / 8 % 64;
      overflows := false;
      if nbytes <= 0 {
        assert message + data == message;
        return;
      }
      Count(nbytes);
      if offset != 0 && offset + nbytes >= INT_LIMIT {
        return true;
      }
      var copied, full := 0, true;
      if offset != 0 {
        copied, full := Fill(offset, data);
      }
      if !full {
        FitsInBuffer(message, data);
      } else {
        CompletedBlock(message, data, copied);
        SplitAt(message, data, copied);
        AppendBlocks(data, copied, message + data[..copied]);
      }
      Take(message + data);
    }

    /** The message so far is m. */
    ghost method Take(m: seq<byte>)
      requires buf.Length == BLOCK && Counts(count0, count1, |m|)
      requires digest == Absorbed(compress, INITIAL, m[..Full(|m|)]) && buf[..|m| % BLOCK] == m[Full(|m|)..]
      modifies this`message
      ensures Valid() && message == m
    {
      message := m;
    }

    /** `md5_finish`: pads, appends the length, and so compresses exactly the blocks of the padded
        message; the digest is written out low-order byte first. */
    method Finish() returns (bytes: seq<byte>)
      requires Valid()
      modifies this, buf
      ensures Valid() && message == Padded(old(message)) && buf == old(buf)
      ensures WellPadded(old(message), message) && bytes == DigestBytes(Absorbed(compress, INITIAL, message))
      ensures bytes == DigestBytes(Absorbed(compress, INITIAL, Padded(old(message))))
    {
      hide Absorbed, Counts, Padding, LengthBytes, PadLength, Bytes4, WellPadded;
      ghost var m := message;
      LengthWords(count0, count1, |m|);
      PadWords(count0, count1, |m|);
      var data := Bytes4(count0) + Bytes4(count1);
      var padLength := (55 - count0 / 8) % 64 + 1;
      var overflows := Append(Pad()[..padLength]);
      overflows := Append(data);
      PaddedWhole(m);
      PaddedWell(m);
      assert message == Padded(m) && message[..|message|] == message;
      bytes := WriteOut();
    }

    /** The last loop of `md5_finish`. */
    method WriteOut() returns (bytes: seq<byte>)
      ensures bytes == DigestBytes(digest)
    {
      hide Bytes4;
      var words := [digest.a, digest.b, digest.c, digest.d];
      bytes := [];
      for i := 0 to 4
        invariant bytes == if i == 0 then [] else if i == 1 then Bytes4(digest.a) else if i == 2 then Bytes4(digest.a) + Bytes4(digest.b)
                           else if i == 3 then Bytes4(digest.a) + Bytes4(digest.b) + Bytes4(digest.c) else DigestBytes(digest)
      {
        bytes := bytes + Bytes4(words[i]);
      }
    }
  }

  /** The constant block of padding. */
  function Pad(): (s: seq<byte>)
    ensures |s| == BLOCK
  {
    [0x80 as byte] + Zeros(BLOCK - 1)
  }

  lemma LengthWords(low: int, high: int, n: nat)
    requires Counts(low, high, n)
    ensures 0 <= low < WORD && 0 <= high < WORD && Bytes4(low) + Bytes4(high) == LengthBytes(n)
  {
    hide Bytes4;
  }

  lemma PadWords(low: int, high: int, n: nat)
    requires Counts(low, high, n)
    ensures 0 < (55 - low / 8) % 64 + 1 <= 64 && Pad()[..(55 - low / 8) % 64 + 1] == Padding(n)
  {
    PlaceInBlock(low, high, n);
    var k := PadLength(n);
    assert Pad()[..k] == Padding(n);
  }

  /** A short append that stays inside the block. */
  lemma FitsInBuffer(m: seq<byte>, data: seq<byte>)
    requires |m| % BLOCK + |data| < BLOCK
    ensures Full(|m + data|) == Full(|m|) && (m + data)[..Full(|m|)] == m[..Full(|m|)]
    ensures (m + data)[Full(|m|)..] == m[Full(|m|)..] + data && |m + data| % BLOCK == |m| % BLOCK + |data|
  {
  }

  lemma SplitAt(m: seq<byte>, data: seq<byte>, copied: int)
    requires 0 <= copied <= |data|
    ensures m + data[..copied] + data[copied..] == m + data
  {
  }

  lemma FillsUp(n: nat, copied: int)
    requires copied > 0 && n % BLOCK + copied == BLOCK
    ensures (n + copied) % BLOCK == 0
  {
  }

  lemma CompletedBlock(m: seq<byte>, data: seq<byte>, copied: int)
    requires 0 <= copied <= |data| && (|m| + copied) % BLOCK == 0 && copied < BLOCK
    ensures |m + data[..copied]| % BLOCK == 0
    ensures copied > 0 ==> m + data[..copied] == m[..Full(|m|)] + (m[Full(|m|)..] + data[..copied]) && |m[Full(|m|)..] + data[..copied]| == BLOCK
    ensures copied == 0 ==> m + data[..copied] == m[..Full(|m|)]
  {
  }

  function Joined(parts: seq<seq<byte>>): seq<byte> {
    if parts == [] then [] else Joined(parts[..|parts| - 1]) + parts[|parts| - 1]
  }

  /** The place in the block and the length of the data add up to more than an `int` holds. */
  ghost predicate Overruns(message: seq<byte>, data: seq<byte>) {
    |message| % BLOCK != 0 && |message| % BLOCK + |data| >= INT_LIMIT
  }

  /** Some part overflows after those before it. */
  ghost predicate AnyOverruns(parts: seq<seq<byte>>) {
    parts != [] &&
    var front := parts[..|parts| - 1];
    AnyOverruns(front) || Overruns(Joined(front), parts[|parts| - 1])
  }

  lemma {:induction false} OverrunsStay(parts: seq<seq<byte>>, n: nat)
    requires n <= |parts| && AnyOverruns(parts[..n])
    ensures AnyOverruns(parts)
    decreases |parts|
  {
    if n < |parts| {
      assert parts[..|parts| - 1][..n] == parts[..n];
      OverrunsStay(parts[..|parts| - 1], n);
    } else {
      assert parts[..n] == parts;
    }
  }

  /** Streaming equals one-shot: however a message is split into appends, the blocks compressed are
      those of the whole padded message, unless some append overflows. */
  method HashParts(compress: (Digest, seq<byte>) -> Digest, parts: seq<seq<byte>>) returns (overflows: bool, bytes: seq<byte>)
    requires forall i :: 0 <= i < |parts| ==> |parts[i]| < INT_LIMIT
    ensures overflows <==> AnyOverruns(parts)
    ensures !overflows ==> bytes == DigestBytes(Absorbed(compress, INITIAL, Padded(Joined(parts))))
    ensures !overflows ==> exists p :: WellPadded(Joined(parts), p) && bytes == DigestBytes(Absorbed(compress, INITIAL, p))
  {
    hide Absorbed, Padded, WellPadded, Full, Counts, DigestBytes, Joined, Overruns, AnyOverruns;
    var state := new State(compress);
    NoParts(parts);
    for i := 0 to |parts|
      invariant state.Valid() && state.message == Joined(parts[..i]) && fresh(state) && fresh(state.buf)
      invariant state.compress == compress && !AnyOverruns(parts[..i])
    {
      OnePart(parts, i);
      overflows := state.Append(parts[i]);
      if overflows {
        OverrunsStay(parts, i + 1);
        return true, [];
      }
    }
    assert parts[..|parts|] == parts;
    overflows := false;
    bytes := state.Finish();
    PaddedWell(Joined(parts));
  }

  lemma NoParts(parts: seq<seq<byte>>)
    ensures Joined(parts[..0]) == [] && !AnyOverruns(parts[..0])
  {
  }

  lemma OnePart(parts: seq<seq<byte>>, i: nat)
    requires i < |parts|
    ensures Joined(parts[..i + 1]) == Joined(parts[..i]) + parts[i]
    ensures AnyOverruns(parts[..i + 1]) <==> AnyOverruns(parts[..i]) || Overruns(Joined(parts[..i]), parts[i])
  {
    assert parts[..i + 1][..i] == parts[..i];
  }
}
