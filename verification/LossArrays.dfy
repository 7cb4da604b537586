/** The coding of loss reports: an interval is its first number with the top bit set followed by
    its last number, a single number stands for itself. */
module LossArrays {
  import opened SeqNo
  import opened Intervals
  import opened Wrappers

  const FLAG: int := 0x8000_0000

  /** A range of sequence numbers as a report names it. */
  datatype Range = Range(first: SeqNum, last: SeqNum)

  /** The words of one interval. */
  function Words(v: Interval): seq<int> {
    if v.lo == v.hi then [Wrap(v.lo)] else [Wrap(v.lo) + FLAG, Wrap(v.hi)]
  }

  function Encode(ns: seq<Interval>): seq<int> {
    if ns == [] then [] else Encode(ns[..|ns| - 1]) + Words(ns[|ns| - 1])
  }

  /** The words of an interval as a reader sees them: the first one names its first number, and its top
      bit says whether the last number follows. */
  lemma WordsMean(v: Interval)
    ensures var w := Words(v);
            && w != [] && w[0] % MODULUS == Wrap(v.lo) && (w[0] >= FLAG <==> |w| == 2) && (|w| == 2 <==> v.lo != v.hi)
            && (|w| == 2 ==> w[1] == Wrap(v.hi)) && |w| <= 2
  {
  }

  function Named(ns: seq<Interval>): (rs: seq<Range>)
    ensures |rs| == |ns|
  {
    seq(|ns|, i requires 0 <= i < |ns| => Range(Wrap(ns[i].lo), Wrap(ns[i].hi)))
  }

  /** Reading a report from the front; a flagged word without a plain one behind it is malformed. */
  function Decode(words: seq<int>): Option<seq<Range>> {
    if words == [] then Some([])
    else if 0 <= words[0] < MODULUS then
      match Decode(words[1..])
      case None => None
      case Some(rest) => Some([Range(words[0], words[0])] + rest)
    else if FLAG <= words[0] < FLAG + MODULUS && |words| > 1 && 0 <= words[1] < MODULUS then
      match Decode(words[2..])
      case None => None
      case Some(rest) => Some([Range(words[0] - FLAG, words[1])] + rest)
    else None
  }

  lemma {:induction false} EncodeConcat(a: seq<Interval>, b: seq<Interval>)
    ensures Encode(a + b) == Encode(a) + Encode(b)
    decreases |b|
  {
    if b == [] {
      assert a + b == a;
    } else {
      assert (a + b)[..|a + b| - 1] == a + b[..|b| - 1];
      EncodeConcat(a, b[..|b| - 1]);
    }
  }

  /** The words of one interval in front of others decode to that interval. */
  lemma DecodeOne(v: Interval, rest: seq<int>)
    requires Decode(rest).Some?
    ensures Decode(Words(v) + rest) == Some([Range(Wrap(v.lo), Wrap(v.hi))] + Decode(rest).value)
  {
    var words := Words(v) + rest;
    if v.lo == v.hi {
      assert words[1..] == rest;
    } else {
      assert words[2..] == rest;
    }
  }

  lemma EncodeFirst(v: Interval, rest: seq<Interval>)
    ensures Encode([v] + rest) == Words(v) + Encode(rest)
  {
    EncodeConcat([v], rest);
    assert [v][..0] == [];
    assert Encode([v]) == Words(v);
  }

  /** Round trip: a report decodes to the intervals it was made from, in order. */
  lemma {:induction false} DecodeEncode(ns: seq<Interval>)
    ensures Decode(Encode(ns)) == Some(Named(ns))
    decreases |ns|
  {
    hide Words, Wrap;
    if ns == [] {
      assert Named(ns) == [];
    } else {
      var v, rest := ns[0], ns[1..];
      assert ns == [v] + rest;
      EncodeFirst(v, rest);
      DecodeEncode(rest);
      DecodeOne(v, Encode(rest));
      assert Named(ns) == [Range(Wrap(v.lo), Wrap(v.hi))] + Named(rest);
    }
  }

  /** One call's words, and the offset at which the next call starts. */
  datatype Page = Page(words: seq<int>, to: nat)

  /** Pages that cover the list from an offset on, each starting where the one before stopped. */
  ghost predicate Pages(ns: seq<Interval>, pages: seq<Page>, from: nat) {
    from <= |ns| &&
    if pages == [] then from == |ns| else
      && from <= pages[0].to <= |ns| && pages[0].words == Encode(ns[from..pages[0].to])
      && Pages(ns, pages[1..], pages[0].to)
  }

  function Joined(pages: seq<Page>): seq<int> {
    if pages == [] then [] else pages[0].words + Joined(pages[1..])
  }

  lemma {:induction false} PagesJoin(ns: seq<Interval>, pages: seq<Page>, from: nat)
    requires Pages(ns, pages, from)
    ensures Joined(pages) == Encode(ns[from..])
    decreases |pages|
  {
    if pages != [] {
      var to := pages[0].to;
      PagesJoin(ns, pages[1..], to);
      EncodeConcat(ns[from..to], ns[to..]);
      assert ns[from..to] + ns[to..] == ns[from..];
    }
  }

  /** Reading all pages gives back the whole ordered list. */
  lemma PagesDecode(ns: seq<Interval>, pages: seq<Page>)
    requires Pages(ns, pages, 0)
    ensures Decode(Joined(pages)) == Some(Named(ns))
  {
    PagesJoin(ns, pages, 0);
    assert ns[0..] == ns;
    DecodeEncode(ns);
  }
}
