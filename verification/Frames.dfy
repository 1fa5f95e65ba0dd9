/** The frame stream: `[comp_size][orig_size][tid]` headers, each followed by one compressed block. */
module Frames {
  import opened Bytes
  import opened Lz4Format
  import opened Lz4Decompress

  const HEADER_SIZE: nat := 12

  datatype Frame = Frame(tid: uint32, orig: uint32, comp: seq<byte>)

  /** A frame a writer may send: its size fits a header, is not the end mark, and its block decodes. */
  ghost predicate Good(f: Frame) {
    0 < |f.comp| < TWO32 && Decode(f.comp, f.orig).Ok?
  }

  function Header(comp: uint32, orig: uint32, tid: uint32): (h: seq<byte>)
    ensures |h| == HEADER_SIZE
  {
    LeBytes(comp, 4) + LeBytes(orig, 4) + LeBytes(tid, 4)
  }

  /** The end of a TCP stream. */
  const END_FRAME: seq<byte> := Header(0, 0, 0)

  function FrameBytes(f: Frame): (s: seq<byte>)
    requires |f.comp| < TWO32
    ensures |s| == HEADER_SIZE + |f.comp|
  {
    Header(|f.comp|, f.orig, f.tid) + f.comp
  }

  ghost function Payload(f: Frame): seq<byte>
    requires Good(f)
  {
    Decode(f.comp, f.orig).value
  }

  ghost predicate AllGood(fs: seq<Frame>) {
    Sized(fs) && forall i {:trigger Good(fs[i])} :: 0 <= i < |fs| ==> Good(fs[i])
  }

  predicate Sized(fs: seq<Frame>) {
    forall i :: 0 <= i < |fs| ==> |fs[i].comp| < TWO32
  }

  function Stream(fs: seq<Frame>): seq<byte>
    requires Sized(fs)
  {
    if fs == [] then [] else FrameBytes(fs[0]) + Stream(fs[1..])
  }

  /** The three words of a header, each least significant byte first. */
  lemma HeaderLayout(comp: uint32, orig: uint32, tid: uint32)
    ensures Header(comp, orig, tid) == WordBytes(comp) + WordBytes(orig) + WordBytes(tid)
  {
    WordLayout(comp);
    WordLayout(orig);
    WordLayout(tid);
  }

  function WordBytes(v: uint32): seq<byte> {
    [v % 256, v / 256 % 256, v / 65536 % 256, v / 16777216]
  }

  lemma WordLayout(v: uint32)
    ensures LeBytes(v, 4) == WordBytes(v)
  {
    assert LeBytes(v, 4) == [v % 256] + LeBytes(v / 256, 3);
    assert LeBytes(v / 256, 3) == [v / 256 % 256] + LeBytes(v / 256 / 256, 2);
    assert LeBytes(v / 256 / 256, 2) == [v / 256 / 256 % 256] + LeBytes(v / 256 / 256 / 256, 1);
    assert LeBytes(v / 256 / 256 / 256, 1) == [v / 256 / 256 / 256 % 256] + LeBytes(v / 256 / 256 / 256 / 256, 0);
    assert v / 256 / 256 == v / 65536 && v / 256 / 256 / 256 == v / 16777216 < 256;
  }

  // ---- reading ----

  /** Why reading a stream ended. */
  datatype Stop = EndOfStream | TruncatedHeader | EndMark | TruncatedFrame | CorruptFrame

  datatype Item = Item(tid: uint32, data: seq<byte>)

  datatype Read = Ended(stop: Stop) | Got(item: Item, size: nat)

  function HeaderWord(s: seq<byte>, k: nat): (w: uint32)
    requires k < 3 && HEADER_SIZE <= |s|
  {
    var w := Le(s[4 * k..4 * k + 4]);
    Le4Bound(s[4 * k..4 * k + 4]);
    w
  }

  /** The frame at the start of s. */
  function ReadFrame(s: seq<byte>): (r: Read)
    ensures r.Got? ==> HEADER_SIZE < r.size <= |s|
  {
    if s == [] then Ended(EndOfStream)
    else if |s| < HEADER_SIZE then Ended(TruncatedHeader)
    else
      var comp := HeaderWord(s, 0);
      if comp == 0 then Ended(EndMark)
      else if |s| < HEADER_SIZE + comp then Ended(TruncatedFrame)
      else
        match Decode(s[HEADER_SIZE..HEADER_SIZE + comp], HeaderWord(s, 1))
        case Err(_) => Ended(CorruptFrame)
        case Ok(data) => Got(Item(HeaderWord(s, 2), data), HEADER_SIZE + comp)
  }

  datatype Content = Content(items: seq<Item>, stop: Stop)

  /** All the frames of a stream up to the first that cannot be read, and why it cannot. */
  function ReadFrames(s: seq<byte>): Content
    decreases |s|
  {
    match ReadFrame(s)
    case Ended(stop) => Content([], stop)
    case Got(item, size) =>
      var rest := ReadFrames(s[size..]);
      Content([item] + rest.items, rest.stop)
  }

  /** `read(n)`: at most n bytes, fewer only at the end of the stream. */
  function ReadAt(s: seq<byte>, pos: nat, n: nat): seq<byte> {
    Slice(s, pos, n)
  }

  /** Reads the header and then the block of the frame at `pos`. */
  method ReadOne(stream: seq<byte>, pos: nat) returns (r: Read)
    requires pos <= |stream|
    ensures r == ReadFrame(stream[pos..])
  {
    ghost var s := stream[pos..];
    var header := ReadAt(stream, pos, HEADER_SIZE);
    if |header| == 0 {
      return Ended(EndOfStream);
    }
    if |header| < HEADER_SIZE {
      return Ended(TruncatedHeader);
    }
    HeaderOf(s, header);
    var comp, orig, tid := HeaderWord(header, 0), HeaderWord(header, 1), HeaderWord(header, 2);
    if comp == 0 {
      return Ended(EndMark);
    }
    var compressed := ReadAt(stream, pos + HEADER_SIZE, comp);
    if |compressed| < comp {
      return Ended(TruncatedFrame);
    }
    assert compressed == s[HEADER_SIZE..HEADER_SIZE + comp];
    var data := DecompressBlock(compressed, orig);
    if data.Err? {
      return Ended(CorruptFrame);
    }
    return Got(Item(tid, data.value), HEADER_SIZE + comp);
  }

  /** The content of a stream whose first part held `items` and whose rest is s. */
  function After(items: seq<Item>, s: seq<byte>): Content {
    var rest := ReadFrames(s);
    Content(items + rest.items, rest.stop)
  }

  lemma AfterNext(items: seq<Item>, s: seq<byte>, r: Read)
    requires r == ReadFrame(s)
    ensures r.Ended? ==> After(items, s) == Content(items, r.stop)
    ensures r.Got? ==> After(items, s) == After(items + [r.item], s[r.size..])
  {
    if r.Got? {
      ConcatAssociative(items, [r.item], ReadFrames(s[r.size..]).items);
    } else {
      assert items + [] == items;
    }
  }

  /** decode_frames: yields what is good, frame by frame, and stops at the first that is not. */
  method DecodeFrames(stream: seq<byte>) returns (items: seq<Item>, stop: Stop)
    ensures Content(items, stop) == ReadFrames(stream)
  {
    items := [];
    var pos := 0;
    ghost var whole, rest := ReadFrames(stream), stream;
    while true
      invariant 0 <= pos <= |stream| && rest == stream[pos..]
      invariant After(items, rest) == whole
      decreases |rest|
    {
      var r := ReadOne(stream, pos);
      AfterNext(items, rest, r);
      if r.Ended? {
        return items, r.stop;
      }
      pos := pos + r.size;
      rest := rest[r.size..];
      items := items + [r.item];
    }
  }

  lemma HeaderOf(s: seq<byte>, header: seq<byte>)
    requires HEADER_SIZE <= |s| && header == s[..HEADER_SIZE]
    ensures forall k: nat :: k < 3 ==> HeaderWord(header, k) == HeaderWord(s, k)
  {
    forall k: nat | k < 3 ensures HeaderWord(header, k) == HeaderWord(s, k) {
      assert header[4 * k..4 * k + 4] == s[4 * k..4 * k + 4];
    }
  }

  lemma Le4Bound(s: seq<byte>)
    requires |s| == 4
    ensures Le(s) < TWO32
  {
    LeBound(s);
    assert Pow256(4) == TWO32 by {
      assert Pow256(2) == 0x1_0000;
    }
  }

  // ---- what is written is read back ----

  lemma HeaderReadsBack(comp: uint32, orig: uint32, tid: uint32, rest: seq<byte>)
    ensures var s := Header(comp, orig, tid) + rest;
            HeaderWord(s, 0) == comp && HeaderWord(s, 1) == orig && HeaderWord(s, 2) == tid
  {
    var s := Header(comp, orig, tid) + rest;
    assert s[4 * 0..4 * 0 + 4] == LeBytes(comp, 4);
    assert s[4 * 1..4 * 1 + 4] == LeBytes(orig, 4);
    assert s[4 * 2..4 * 2 + 4] == LeBytes(tid, 4);
    LeBytes4(comp);
    LeBytes4(orig);
    LeBytes4(tid);
  }

  /** A good frame at the start of a stream is read whole. */
  lemma ReadGoodFrame(f: Frame, rest: seq<byte>)
    requires Good(f)
    ensures ReadFrame(FrameBytes(f) + rest) == Got(Item(f.tid, Payload(f)), |FrameBytes(f)|)
    ensures (FrameBytes(f) + rest)[|FrameBytes(f)|..] == rest
  {
    var s := FrameBytes(f) + rest;
    assert s == Header(|f.comp|, f.orig, f.tid) + (f.comp + rest);
    HeaderReadsBack(|f.comp|, f.orig, f.tid, f.comp + rest);
    assert s[HEADER_SIZE..HEADER_SIZE + |f.comp|] == f.comp;
  }

  ghost function Items(fs: seq<Frame>): (items: seq<Item>)
    requires AllGood(fs)
    ensures |items| == |fs|
  {
    seq(|fs|, i requires 0 <= i < |fs| => Item(fs[i].tid, Payload(fs[i])))
  }

  lemma ItemsCons(fs: seq<Frame>)
    requires AllGood(fs) && fs != []
    ensures Items(fs) == [Item(fs[0].tid, Payload(fs[0]))] + Items(fs[1..])
  {
  }

  /** A block that does not decode stops the reading behind the frames before it. */
  lemma CorruptStops(fs: seq<Frame>, bad: Frame, rest: seq<byte>)
    requires AllGood(fs) && 0 < |bad.comp| < TWO32 && Decode(bad.comp, bad.orig).Err?
    ensures ReadFrames(Stream(fs) + (FrameBytes(bad) + rest)) == Content(Items(fs), CorruptFrame)
  {
    var s := FrameBytes(bad) + rest;
    assert s == Header(|bad.comp|, bad.orig, bad.tid) + (bad.comp + rest);
    HeaderReadsBack(|bad.comp|, bad.orig, bad.tid, bad.comp + rest);
    assert s[HEADER_SIZE..HEADER_SIZE + |bad.comp|] == bad.comp;
    assert ReadFrame(s) == Ended(CorruptFrame);
    ReadStream(fs, s);
    assert Items(fs) + [] == Items(fs);
  }

  /** Good frames are read back one for one, whatever follows them. */
  lemma {:induction false} ReadStream(fs: seq<Frame>, rest: seq<byte>)
    requires AllGood(fs)
    ensures ReadFrames(Stream(fs) + rest) == Content(Items(fs) + ReadFrames(rest).items, ReadFrames(rest).stop)
    decreases |fs|
  {
    if fs == [] {
      assert Stream(fs) + rest == rest;
      assert Items(fs) + ReadFrames(rest).items == ReadFrames(rest).items;
    } else {
      var tail := Stream(fs[1..]) + rest;
      ConcatAssociative(FrameBytes(fs[0]), Stream(fs[1..]), rest);
      ReadGoodFrame(fs[0], tail);
      ReadStream(fs[1..], rest);
      ItemsCons(fs);
      ConcatAssociative([Item(fs[0].tid, Payload(fs[0]))], Items(fs[1..]), ReadFrames(rest).items);
    }
  }

  /** A frame cut short anywhere yields nothing. */
  lemma ReadCutFrame(f: Frame, k: nat)
    requires Good(f) && k < |FrameBytes(f)|
    ensures var r := ReadFrame(FrameBytes(f)[..k]);
            r == Ended(if k == 0 then EndOfStream else if k < HEADER_SIZE then TruncatedHeader else TruncatedFrame)
  {
    var s := FrameBytes(f)[..k];
    if k >= HEADER_SIZE {
      assert s == Header(|f.comp|, f.orig, f.tid) + f.comp[..k - HEADER_SIZE];
      HeaderReadsBack(|f.comp|, f.orig, f.tid, f.comp[..k - HEADER_SIZE]);
    }
  }

  /** How many of the frames lie wholly within the first k bytes of the stream. */
  function WholeFrames(fs: seq<Frame>, k: nat): (m: nat)
    requires Sized(fs)
    ensures m <= |fs|
  {
    if fs == [] || k < |FrameBytes(fs[0])| then 0 else 1 + WholeFrames(fs[1..], k - |FrameBytes(fs[0])|)
  }

  lemma {:induction false} WholeFramesExact(fs: seq<Frame>, k: nat)
    requires Sized(fs)
    ensures var m := WholeFrames(fs, k);
            |Stream(fs[..m])| <= k && (m < |fs| ==> k < |Stream(fs[..m + 1])|)
  {
    if fs != [] && k >= |FrameBytes(fs[0])| {
      var l := |FrameBytes(fs[0])|;
      WholeFramesExact(fs[1..], k - l);
      var m := WholeFrames(fs[1..], k - l);
      assert fs[..m + 1][1..] == fs[1..][..m];
      if m + 1 < |fs| {
        assert fs[..m + 2][1..] == fs[1..][..m + 1];
      }
    } else if fs != [] {
      assert fs[..1][1..] == [];
    }
  }

  /** A cut after the first frame falls into the rest of the stream. */
  lemma CutAfterFirst(f: Frame, rest: seq<byte>, s: seq<byte>, k: nat)
    requires Good(f) && s == FrameBytes(f) + rest && |FrameBytes(f)| <= k <= |s|
    ensures var cut := ReadFrames(rest[..k - |FrameBytes(f)|]);
            ReadFrames(s[..k]) == Content([Item(f.tid, Payload(f))] + cut.items, cut.stop)
  {
    var tail := rest[..k - |FrameBytes(f)|];
    assert s[..k] == FrameBytes(f) + tail;
    ReadGoodFrame(f, tail);
  }

  /** A cut inside the first frame leaves nothing to read. */
  lemma CutInFirst(f: Frame, rest: seq<byte>, k: nat)
    requires Good(f) && k < |FrameBytes(f)|
    ensures var c := ReadFrames((FrameBytes(f) + rest)[..k]);
            && c.items == []
            && (c.stop == EndOfStream <==> k == 0)
            && c.stop in {EndOfStream, TruncatedHeader, TruncatedFrame}
  {
    assert (FrameBytes(f) + rest)[..k] == FrameBytes(f)[..k];
    ReadCutFrame(f, k);
  }

  /**
   A stream cut at any byte decodes to exactly the frames that lie wholly before the cut; only a cut between
   two frames looks like a proper end.
   */
  lemma {:induction false} ReadPrefix(fs: seq<Frame>, k: nat)
    requires AllGood(fs) && k <= |Stream(fs)|
    ensures PrefixRead(ReadFrames(Stream(fs)[..k]), fs, k, WholeFrames(fs, k))
  {
    if fs == [] {
      NothingRead(fs);
    } else if k < |FrameBytes(fs[0])| {
      NoneRead(fs, k);
    } else {
      var l, s, t := |FrameBytes(fs[0])|, Stream(fs), Stream(fs[1..]);
      ReadPrefix(fs[1..], k - l);
      var c, cut := ReadFrames(s[..k]), ReadFrames(t[..k - l]);
      CutPast(fs, k, c, cut);
      PrefixMore(c, cut, fs, k, WholeFrames(fs[1..], k - l));
    }
  }

  /** The first m frames and no more were read; the end was proper if and only if the cut is right behind them. */
  ghost predicate PrefixRead(c: Content, fs: seq<Frame>, k: nat, m: nat)
    requires AllGood(fs) && m <= |fs|
  {
    && c.items == Items(fs[..m])
    && (c.stop == EndOfStream <==> k == |Stream(fs[..m])|)
    && c.stop in {EndOfStream, TruncatedHeader, TruncatedFrame}
  }

  lemma NothingRead(fs: seq<Frame>)
    requires fs == []
    ensures PrefixRead(ReadFrames(Stream(fs)[..0]), fs, 0, 0)
  {
  }

  lemma NoneRead(fs: seq<Frame>, k: nat)
    requires AllGood(fs) && fs != [] && k < |FrameBytes(fs[0])| && k <= |Stream(fs)|
    ensures PrefixRead(ReadFrames(Stream(fs)[..k]), fs, k, 0)
  {
    CutInFirst(fs[0], Stream(fs[1..]), k);
  }

  lemma CutPast(fs: seq<Frame>, k: nat, c: Content, cut: Content)
    requires AllGood(fs) && fs != [] && |FrameBytes(fs[0])| <= k <= |Stream(fs)|
    requires c == ReadFrames(Stream(fs)[..k]) && cut == ReadFrames(Stream(fs[1..])[..k - |FrameBytes(fs[0])|])
    ensures c == Content([Item(fs[0].tid, Payload(fs[0]))] + cut.items, cut.stop)
  {
    CutAfterFirst(fs[0], Stream(fs[1..]), Stream(fs), k);
  }

  lemma PrefixMore(c: Content, cut: Content, fs: seq<Frame>, k: nat, m: nat)
    requires AllGood(fs) && m < |fs| && k >= |FrameBytes(fs[0])| && PrefixRead(cut, fs[1..], k - |FrameBytes(fs[0])|, m)
    requires c == Content([Item(fs[0].tid, Payload(fs[0]))] + cut.items, cut.stop)
    ensures PrefixRead(c, fs, k, m + 1)
  {
    FirstMore(fs, m);
  }

  lemma FirstMore(fs: seq<Frame>, m: nat)
    requires AllGood(fs) && m < |fs|
    ensures Items(fs[..m + 1]) == [Item(fs[0].tid, Payload(fs[0]))] + Items(fs[1..][..m])
    ensures |Stream(fs[..m + 1])| == |FrameBytes(fs[0])| + |Stream(fs[1..][..m])|
  {
    assert fs[..m + 1][1..] == fs[1..][..m];
  }
}
