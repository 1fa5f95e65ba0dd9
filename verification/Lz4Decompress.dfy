/**
 The pure Python decoder, with the language's own rules for a bytearray: a slice assignment may change its
 length, a negative index counts from the end, and an index out of range raises.
 */
module Lz4Decompress {
  import opened Bytes
  import opened Lz4Format

  datatype DecodeError = ZeroOffset | IndexError

  type Decoded = Result<seq<byte>, DecodeError>

  /** A slice from lo up to hi, with lo <= hi, gives way to the data, which may be longer or shorter. */
  function SliceAssign(dst: seq<byte>, lo: nat, hi: nat, data: seq<byte>): seq<byte>
    requires lo <= hi
  {
    dst[..Min(lo, |dst|)] + data + dst[Min(hi, |dst|)..]
  }

  /** A slice of len bytes from lo on, which stops at the end of src. */
  function Slice(src: seq<byte>, lo: nat, len: nat): seq<byte> {
    src[Min(lo, |src|)..Min(lo + len, |src|)]
  }

  /** The index in `dst` that Python means by j, if it is in range. */
  function PyIndex(dst: seq<byte>, j: int): (k: Option<nat>)
    ensures k.Some? <==> -|dst| <= j < |dst|
    ensures k.Some? ==> k.value < |dst| && (k.value == j || k.value == j + |dst|)
  {
    if 0 <= j < |dst| then Some(j) else if -|dst| <= j < 0 then Some(|dst| + j) else None
  }

  /** The bytes that carry a length on: added up to and including the first one that is not 255. */
  function ReadExt(src: seq<byte>, si: nat, len: nat): (r: (nat, nat))
    requires si <= |src|
    ensures si <= r.1 <= |src|
    decreases |src| - si
  {
    if si == |src| then (len, si)
    else if src[si] != 255 then (len + src[si], si + 1)
    else ReadExt(src, si + 1, len + 255)
  }

  /** A length whose first part came in a token's nibble. */
  function ReadLen(src: seq<byte>, si: nat, nibble: nat): (r: (nat, nat))
    requires si <= |src|
    ensures si <= r.1 <= |src|
  {
    if nibble == 15 then ReadExt(src, si, 15) else (nibble, si)
  }

  /** Bytes are copied from behind one at a time, those just copied included; Python's indexing says which exist. */
  function CopyBack(dst: seq<byte>, di: nat, offset: nat, ml: nat): Decoded
    decreases ml
  {
    if ml == 0 then Ok(dst)
    else
      match PyIndex(dst, di - offset)
      case None => Err(IndexError)
      case Some(k) => if di < |dst| then CopyBack(dst[di := dst[k]], di + 1, offset, ml - 1) else Err(IndexError)
  }

  function Offset(low: int, high: int): int {
    low + 256 * high
  }

  datatype Step = Done(result: Decoded) | More(si: nat, dst: seq<byte>, di: nat)

  /** One sequence: input position si, output position di. */
  function DecodeStep(src: seq<byte>, si: nat, dst: seq<byte>, di: nat): (st: Step)
    requires si < |src|
    ensures st.More? ==> si < st.si <= |src|
  {
    var token := src[si];
    var (lit, s1) := ReadLen(src, si + 1, token / 16);
    var d1 := SliceAssign(dst, di, di + lit, Slice(src, s1, lit));
    var s2 := s1 + lit;
    if s2 >= |src| then Done(Ok(Slice(d1, 0, di + lit)))
    else if s2 + 1 >= |src| then Done(Err(IndexError))
    else
      var offset := Offset(src[s2], src[s2 + 1]);
      if offset == 0 then Done(Err(ZeroOffset))
      else
        var (extra, s3) := ReadLen(src, s2 + 2, token % 16);
        match CopyBack(d1, di + lit, offset, extra + MIN_MATCH)
        case Err(e) => Done(Err(e))
        case Ok(d2) => More(s3, d2, di + lit + extra + MIN_MATCH)
  }

  /** The decoder from input position si and output position di on. */
  function DecodeFrom(src: seq<byte>, si: nat, dst: seq<byte>, di: nat): Decoded
    requires si <= |src|
    decreases |src| - si
  {
    if si == |src| then Ok(Slice(dst, 0, di))
    else
      match DecodeStep(src, si, dst, di)
      case Done(r) => r
      case More(s1, d1, i1) => DecodeFrom(src, s1, d1, i1)
  }

  function Zeros(n: nat): (s: seq<byte>)
    ensures |s| == n && forall i :: 0 <= i < n ==> s[i] == 0
  {
    seq(n, _ => 0)
  }

  /** What the decoder makes of any input, well-formed or not. */
  function Decode(src: seq<byte>, originalSize: nat): Decoded {
    DecodeFrom(src, 0, Zeros(originalSize), 0)
  }

  // ---- the decoder as written ----

  method ReadLength(src: seq<byte>, start: nat, nibble: nat) returns (len: nat, si: nat)
    requires start <= |src|
    ensures (len, si) == ReadLen(src, start, nibble)
  {
    len, si := nibble, start;
    if nibble == 15 {
      var more := true;
      while more && si < |src|
        invariant 0 <= si <= |src|
        invariant ReadExt(src, start, 15) == if more then ReadExt(src, si, len) else (len, si)
        decreases more, |src| - si
      {
        var b := src[si];
        si := si + 1;
        len := len + b;
        more := b == 255;
      }
    }
  }

  method CopyMatchBytes(from: seq<byte>, start: nat, offset: nat, ml: nat) returns (r: Decoded)
    ensures r == CopyBack(from, start, offset, ml)
  {
    var dst, di := from, start;
    var matchPos := start - offset;
    for i := 0 to ml
      invariant di == start + i
      invariant CopyBack(from, start, offset, ml) == CopyBack(dst, di, offset, ml - i)
    {
      var k := PyIndex(dst, matchPos + i);
      if k.None? || di >= |dst| {
        return Err(IndexError);
      }
      dst := dst[di := dst[k.value]];
      di := di + 1;
    }
    return Ok(dst);
  }

  /** The body of the decoder's loop. */
  method DecodeOne(src: seq<byte>, start: nat, from: seq<byte>, di: nat) returns (st: Step)
    requires start < |src|
    ensures st == DecodeStep(src, start, from, di)
  {
    var token := src[start];
    var lit, si := ReadLength(src, start + 1, token / 16);
    var end := di + lit;
    var dst := SliceAssign(from, di, end, Slice(src, si, lit));
    si := si + lit;
    if si >= |src| {
      return Done(Ok(Slice(dst, 0, end)));
    }
    if si + 1 >= |src| {
      return Done(Err(IndexError));
    }
    var offset := Offset(src[si], src[si + 1]);
    if offset == 0 {
      return Done(Err(ZeroOffset));
    }
    var extra, next := ReadLength(src, si + 2, token % 16);
    var copied := CopyMatchBytes(dst, end, offset, extra + 4);
    if copied.Err? {
      return Done(copied);
    }
    return More(next, copied.value, end + extra + 4);
  }

  method DecompressBlock(src: seq<byte>, originalSize: nat) returns (r: Decoded)
    ensures r == Decode(src, originalSize)
  {
    var dst, si, di := Zeros(originalSize), 0, 0;
    while si < |src|
      invariant 0 <= si <= |src| && 0 <= di
      invariant DecodeFrom(src, si, dst, di) == Decode(src, originalSize)
      decreases |src| - si
    {
      var st := DecodeOne(src, si, dst, di);
      if st.Done? {
        return st.result;
      }
      dst, si, di := st.dst, st.si, st.di;
    }
    return Ok(Slice(dst, 0, di));
  }

  // ---- input that is no block ----

  /** Python's slices: cut at the end, and lengthened or shortened by what is stored into them. */
  lemma SlicesAre(dst: seq<byte>, lo: nat, hi: nat, data: seq<byte>)
    requires lo <= hi
    ensures lo >= |dst| ==> Slice(dst, lo, hi - lo) == [] && SliceAssign(dst, lo, hi, data) == dst + data
    ensures lo < |dst| < hi ==>
                Slice(dst, lo, hi - lo) == dst[lo..] && SliceAssign(dst, lo, hi, data) == dst[..lo] + data
    ensures hi <= |dst| ==> Slice(dst, lo, hi - lo) == dst[lo..hi]
                            && SliceAssign(dst, lo, hi, data) == dst[..lo] + data + dst[hi..]
  {
    assert dst[|dst|..] == [] && dst[..|dst|] == dst;
  }

  /** Where the length bytes end, which may be the end of the input, and what they add up to. */
  lemma {:induction false} ReadExtIs(src: seq<byte>, si: nat, len: nat)
    requires si <= |src|
    ensures var (n, k) := ReadExt(src, si, len);
            && (forall i :: si <= i < k - 1 ==> src[i] == 255) && (k == |src| || (k > si && src[k - 1] != 255))
            && n == if k == si then len else len + 255 * (k - si - 1) + src[k - 1] as nat
    decreases |src| - si
  {
    if si < |src| && src[si] == 255 {
      ReadExtIs(src, si + 1, len + 255);
    }
  }

  /** Offset 0 is refused, behind any literals and whatever follows. */
  lemma ZeroOffsetFails(src: seq<byte>, si: nat, dst: seq<byte>, di: nat, lit: nat, s1: nat)
    requires si < |src| && ReadLen(src, si + 1, src[si] / 16) == (lit, s1)
    requires s1 + lit + 1 < |src| && src[s1 + lit] == 0 && src[s1 + lit + 1] == 0
    ensures DecodeStep(src, si, dst, di) == Done(Err(ZeroOffset))
  {
    ZeroStep(src, si, dst, di, lit, s1, s1 + lit);
  }

  lemma ZeroStep(src: seq<byte>, si: nat, dst: seq<byte>, di: nat, lit: nat, s1: nat, s2: nat)
    requires si < |src| && ReadLen(src, si + 1, src[si] / 16) == (lit, s1) && s2 == s1 + lit && s2 + 1 < |src|
    requires Offset(src[s2], src[s2 + 1]) == 0
    ensures DecodeStep(src, si, dst, di) == Done(Err(ZeroOffset))
  {
  }

  /** A match, from the numbers read. */
  lemma MatchCopies(src: seq<byte>, si: nat, dst: seq<byte>, di: nat, lit: nat, s1: nat, s2: nat, o: nat, extra: nat,
                    s3: nat, d: seq<byte>)
    requires si < |src| && ReadLen(src, si + 1, src[si] / 16) == (lit, s1) && s2 == s1 + lit && s2 + 1 < |src|
    requires o == Offset(src[s2], src[s2 + 1]) != 0 && ReadLen(src, s2 + 2, src[si] % 16) == (extra, s3)
    requires CopyBack(SliceAssign(dst, di, di + lit, Slice(src, s1, lit)), di + lit, o, extra + 4) == Ok(d)
    ensures DecodeStep(src, si, dst, di) == More(s3, d, di + lit + extra + 4)
  {
  }

  /** Half an offset: the index is out of range. */
  lemma HalfOffsetFails(src: seq<byte>, n: nat)
    requires |src| == 2 && src[0] < 16
    ensures Decode(src, n) == Err(IndexError)
  {
    assert DecodeStep(src, 0, Zeros(n), 0) == Done(Err(IndexError));
  }

  /** One literal of two is missing: the buffer shrinks by it, and the byte behind takes its place. */
  lemma LiteralMissing(b: byte, n: nat)
    requires n >= 3
    ensures Decode([32, b], n) == Ok([b, 0])
  {
    var src, dst := [32, b], Zeros(n);
    assert Slice(src, 1, 2) == [b];
    assert Slice(SliceAssign(dst, 0, 2, [b]), 0, 2) == [b, 0];
    assert DecodeStep(src, 0, dst, 0) == Done(Ok([b, 0]));
  }

  /** An offset from before the beginning is an index from the end, into bytes that are still zero. */
  lemma OffsetBeforeStart(n: nat)
    requires n >= 4
    ensures DecodeStep([0, 1, 0], 0, Zeros(n), 0) == More(3, Zeros(n), 4)
  {
    var src, dst := [0, 1, 0], Zeros(n);
    assert SliceAssign(dst, 0, 0, Slice(src, 1, 0)) == dst;
    CopiesZeros(dst, 0, 4);
    assert Offset(src[1], src[2]) == 1;
    MatchCopies(src, 0, dst, 0, 0, 1, 1, 1, 0, 3, dst);
  }

  lemma {:induction false} CopiesZeros(dst: seq<byte>, di: nat, ml: nat)
    requires di + ml <= |dst| && forall i :: 0 <= i < |dst| ==> dst[i] == 0
    ensures CopyBack(dst, di, 1, ml) == Ok(dst)
    decreases ml
  {
    if ml > 0 {
      var k := PyIndex(dst, di - 1).value;
      assert dst[di := dst[k]] == dst;
      CopiesZeros(dst, di + 1, ml - 1);
    }
  }

  // ---- round trip ----

  /** The bytes of src from position i on start with `part`. */
  ghost predicate At(src: seq<byte>, i: nat, part: seq<byte>) {
    i + |part| <= |src| && src[i..i + |part|] == part
  }

  lemma AtSplit(src: seq<byte>, i: nat, a: seq<byte>, b: seq<byte>)
    requires At(src, i, a + b)
    ensures At(src, i, a) && At(src, i + |a|, b)
  {
    assert src[i..i + |a|] == src[i..i + |a + b|][..|a|];
    assert src[i + |a|..i + |a| + |b|] == src[i..i + |a + b|][|a|..];
  }

  lemma {:induction false} ReadExtBack(src: seq<byte>, i: nat, n: nat, len: nat)
    requires At(src, i, ExtBytes(n))
    ensures ReadExt(src, i, len) == (len + n, i + |ExtBytes(n)|)
    decreases n
  {
    assert src[i] == src[i..i + |ExtBytes(n)|][0] == ExtBytes(n)[0];
    if n >= 255 {
      AtSplit(src, i, [255], ExtBytes(n - 255));
      ReadExtBack(src, i + 1, n - 255, len + 255);
    }
  }

  /** A length written as nibble and length bytes reads back. */
  lemma ReadLenBack(src: seq<byte>, i: nat, len: nat)
    requires i <= |src| && At(src, i, LenBytes(len))
    ensures ReadLen(src, i, Nibble(len)) == (len, i + |LenBytes(len)|)
  {
    if len >= 15 {
      ReadExtBack(src, i, len - 15, 15);
    }
  }

  /** A run reads back: token nibbles, length and literals. */
  lemma ReadRunBack(src: seq<byte>, i: nat, literals: seq<byte>, low: nat)
    requires low <= 15 && At(src, i, EncodeRun(literals, low))
    ensures i < |src| && src[i] / 16 == Nibble(|literals|) && src[i] % 16 == low
    ensures var (lit, s1) := ReadLen(src, i + 1, src[i] / 16);
            && lit == |literals|
            && s1 + lit == i + |EncodeRun(literals, low)|
            && Slice(src, s1, lit) == literals
  {
    var n := |literals|;
    AtSplit(src, i, [16 * Nibble(n) + low] + LenBytes(n), literals);
    AtSplit(src, i, [16 * Nibble(n) + low], LenBytes(n));
    assert src[i] == src[i..i + 1][0];
    ReadLenBack(src, i + 1, n);
  }

  /** Storing literals at the end of what is decoded. */
  lemma AssignExtends(dst: seq<byte>, out: seq<byte>, data: seq<byte>)
    requires IsPrefix(out, dst) && |out| + |data| <= |dst|
    ensures var d := SliceAssign(dst, |out|, |out| + |data|, data);
            |d| == |dst| && IsPrefix(out + data, d)
  {
  }

  /** Copying back in the buffer is what a match means. */
  lemma {:induction false} CopyBackIsCopyMatch(dst: seq<byte>, out: seq<byte>, offset: nat, ml: nat)
    requires IsPrefix(out, dst) && 1 <= offset <= |out| && |out| + ml <= |dst|
    ensures var r := CopyBack(dst, |out|, offset, ml);
            r.Ok? && |r.value| == |dst| && IsPrefix(CopyMatch(out, offset, ml), r.value)
    decreases ml
  {
    if ml > 0 {
      var b := dst[|out| - offset];
      assert b == out[|out| - offset];
      var d := dst[|out| := b];
      assert IsPrefix(out + [b], d);
      CopyBackIsCopyMatch(d, out + [b], offset, ml - 1);
    }
  }

  /** Everything the decoder reads of an encoded sequence at position i. */
  lemma ReadSequenceBack(src: seq<byte>, i: nat, s: Sequence)
    requires At(src, i, EncodeSequence(s))
    ensures i < |src|
    ensures var (lit, s1) := ReadLen(src, i + 1, src[i] / 16);
            var s2 := s1 + lit;
            && lit == |s.literals| && Slice(src, s1, lit) == s.literals
            && s2 + 1 < |src| && Offset(src[s2], src[s2 + 1]) == s.offset
            && ReadLen(src, s2 + 2, src[i] % 16) == (s.extra, i + |EncodeSequence(s)|)
  {
    var run, off := EncodeRun(s.literals, Nibble(s.extra)), [s.offset % 256, s.offset / 256];
    AtSplit(src, i, run + off, LenBytes(s.extra));
    AtSplit(src, i, run, off);
    ReadRunBack(src, i, s.literals, Nibble(s.extra));
    var s2 := i + |run|;
    assert src[s2] == src[s2..s2 + 2][0] && src[s2 + 1] == src[s2..s2 + 2][1];
    ReadLenBack(src, s2 + 2, s.extra);
  }

  /** What the decoder stores for a sequence. */
  lemma StoreSequence(s: Sequence, dst: seq<byte>, out: seq<byte>) returns (next: seq<byte>)
    requires 1 <= s.offset <= |out| + |s.literals|
    requires IsPrefix(out, dst) && |out| + |s.literals| + s.MatchLen() <= |dst|
    ensures |next| == |dst| && IsPrefix(CopyMatch(out + s.literals, s.offset, s.MatchLen()), next)
    ensures CopyBack(SliceAssign(dst, |out|, |out| + |s.literals|, s.literals), |out| + |s.literals|, s.offset,
                s.MatchLen())
            == Ok(next)
  {
    AssignExtends(dst, out, s.literals);
    var d1 := SliceAssign(dst, |out|, |out| + |s.literals|, s.literals);
    CopyBackIsCopyMatch(d1, out + s.literals, s.offset, s.MatchLen());
    next := CopyBack(d1, |out + s.literals|, s.offset, s.MatchLen()).value;
  }

  /** One encoded sequence at position i takes the decoder from `out` to `out` with the sequence applied. */
  lemma DecodeSequence(src: seq<byte>, i: nat, s: Sequence, dst: seq<byte>, out: seq<byte>)
    returns (next: seq<byte>)
    requires At(src, i, EncodeSequence(s)) && 1 <= s.offset <= |out| + |s.literals|
    requires IsPrefix(out, dst) && |out| + |s.literals| + s.MatchLen() <= |dst|
    ensures |next| == |dst| && IsPrefix(CopyMatch(out + s.literals, s.offset, s.MatchLen()), next)
    ensures i < |src|
    ensures DecodeStep(src, i, dst, |out|) ==
            More(i + |EncodeSequence(s)|, next, |out| + |s.literals| + s.MatchLen())
  {
    ReadSequenceBack(src, i, s);
    next := StoreSequence(s, dst, out);
  }

  lemma LastRun(src: seq<byte>, i: nat, last: seq<byte>, dst: seq<byte>, out: seq<byte>)
    requires At(src, i, EncodeRun(last, 0)) && i + |EncodeRun(last, 0)| == |src|
    requires IsPrefix(out, dst) && |out| + |last| <= |dst|
    ensures i < |src|
    ensures DecodeStep(src, i, dst, |out|) == Done(Ok(out + last))
  {
    ReadRunBack(src, i, last, 0);
    AssignExtends(dst, out, last);
    assert Slice(SliceAssign(dst, |out|, |out| + |last|, last), 0, |out| + |last|) == out + last;
  }

  lemma EncodeCons(s: Sequence, r: seq<Sequence>)
    ensures EncodeAll([s] + r) == EncodeSequence(s) + EncodeAll(r)
  {
    assert EncodeAll([s]) == EncodeSequence(s) by {
      EncodeSnoc([], s);
      assert [] + [s] == [s];
    }
    EncodeAppend([s], r);
  }

  /** The first of several encoded sequences, and the rest. */
  lemma EncodedFirst(src: seq<byte>, i: nat, s: Sequence, r: seq<byte>, last: seq<byte>)
    requires At(src, i, (EncodeSequence(s) + r) + last)
    ensures At(src, i, EncodeSequence(s))
    ensures At(src, i + |EncodeSequence(s)|, r + last)
  {
    ConcatAssociative(EncodeSequence(s), r, last);
    AtSplit(src, i, EncodeSequence(s), r + last);
  }

  /** The next sequence of a well-formed whole: its offset is good and its bytes fit. */
  lemma NextFits(all: seq<Sequence>, p: seq<Sequence>, s: Sequence, r: seq<Sequence>)
    requires WellFormed(all) && all == (p + [s]) + r
    ensures 1 <= s.offset <= |ExpandAll(p)| + |s.literals|
    ensures ExpandAll(p + [s]) == CopyMatch(ExpandAll(p) + s.literals, s.offset, s.MatchLen())
    ensures |ExpandAll(p)| + |s.literals| + s.MatchLen() <= |ExpandAll(all)|
  {
    PrefixFits(p + [s], r);
    ExpandSnoc(p, s);
  }

  /** What is left to decode: q and the last run, after p. */
  ghost predicate Resumes(src: seq<byte>, i: nat, all: seq<Sequence>, p: seq<Sequence>, q: seq<Sequence>,
                          last: seq<byte>, dst: seq<byte>)
  {
    && At(src, i, EncodeAll(q) + EncodeRun(last, 0))
    && i + |EncodeAll(q)| + |EncodeRun(last, 0)| == |src|
    && all == p + q && WellFormed(all)
    && IsPrefix(ExpandAll(p), dst) && |ExpandAll(all)| + |last| <= |dst|
  }

  lemma ResumeLast(src: seq<byte>, i: nat, all: seq<Sequence>, last: seq<byte>, dst: seq<byte>)
    requires Resumes(src, i, all, all, [], last, dst)
    ensures i < |src| && DecodeStep(src, i, dst, |ExpandAll(all)|) == Done(Ok(ExpandAll(all) + last))
  {
    var e := EncodeRun(last, 0);
    assert At(src, i, e) && i + |e| == |src| by {
      assert EncodeAll([]) + e == e;
    }
    LastRun(src, i, last, dst, ExpandAll(all));
  }

  lemma ResumeAt(src: seq<byte>, i: nat, all: seq<Sequence>, p: seq<Sequence>, s: Sequence, r: seq<Sequence>,
                 last: seq<byte>, dst: seq<byte>)
    requires Resumes(src, i, all, p, [s] + r, last, dst)
    ensures At(src, i, EncodeSequence(s))
    ensures At(src, i + |EncodeSequence(s)|, EncodeAll(r) + EncodeRun(last, 0))
    ensures i + |EncodeSequence(s)| + |EncodeAll(r)| + |EncodeRun(last, 0)| == |src|
  {
    EncodeCons(s, r);
    EncodedFirst(src, i, s, EncodeAll(r), EncodeRun(last, 0));
  }

  /** Decoding the next sequence. */
  lemma ResumeStep(src: seq<byte>, i: nat, all: seq<Sequence>, p: seq<Sequence>, s: Sequence, r: seq<Sequence>,
                   dst: seq<byte>)
    returns (next: seq<byte>)
    requires At(src, i, EncodeSequence(s))
    requires WellFormed(all) && all == (p + [s]) + r
    requires IsPrefix(ExpandAll(p), dst) && |ExpandAll(all)| <= |dst|
    ensures i < |src|
    ensures DecodeStep(src, i, dst, |ExpandAll(p)|) == More(i + |EncodeSequence(s)|, next, |ExpandAll(p + [s])|)
    ensures |next| == |dst| && IsPrefix(ExpandAll(p + [s]), next)
  {
    NextFits(all, p, s, r);
    next := DecodeSequence(src, i, s, dst, ExpandAll(p));
  }

  lemma ResumeNext(src: seq<byte>, i: nat, all: seq<Sequence>, p: seq<Sequence>, s: Sequence, r: seq<Sequence>,
                   last: seq<byte>, dst: seq<byte>)
    returns (i': nat, next: seq<byte>)
    requires Resumes(src, i, all, p, [s] + r, last, dst)
    ensures i < |src| && DecodeStep(src, i, dst, |ExpandAll(p)|) == More(i', next, |ExpandAll(p + [s])|)
    ensures Resumes(src, i', all, p + [s], r, last, next)
  {
    ResumeAt(src, i, all, p, s, r, last, dst);
    Split(all, p, s, r);
    i' := i + |EncodeSequence(s)|;
    next := ResumeStep(src, i, all, p, s, r, dst);
  }

  lemma Split(all: seq<Sequence>, p: seq<Sequence>, s: Sequence, r: seq<Sequence>)
    requires all == p + ([s] + r)
    ensures all == (p + [s]) + r
  {
  }

  lemma DecodeMore(src: seq<byte>, i: nat, dst: seq<byte>, di: nat, i': nat, next: seq<byte>, di': nat)
    requires i < |src| && DecodeStep(src, i, dst, di) == More(i', next, di')
    ensures DecodeFrom(src, i, dst, di) == DecodeFrom(src, i', next, di')
  {
  }

  lemma DecodeLast(src: seq<byte>, i: nat, dst: seq<byte>, di: nat, result: Decoded)
    requires i < |src| && DecodeStep(src, i, dst, di) == Done(result)
    ensures DecodeFrom(src, i, dst, di) == result
  {
  }

  /** From what p expands to, decoding the encoding of q and of the last run ends in the whole block. */
  lemma {:induction false} DecodeRest(src: seq<byte>, i: nat, all: seq<Sequence>, p: seq<Sequence>, q: seq<Sequence>,
                                      last: seq<byte>, dst: seq<byte>)
    requires Resumes(src, i, all, p, q, last, dst)
    ensures i <= |src| && DecodeFrom(src, i, dst, |ExpandAll(p)|) == Ok(ExpandAll(all) + last)
    decreases |q|
  {
    if q == [] {
      assert p == all;
      ResumeLast(src, i, all, last, dst);
      DecodeLast(src, i, dst, |ExpandAll(all)|, Ok(ExpandAll(all) + last));
    } else {
      var s, r := q[0], q[1..];
      assert q == [s] + r;
      var i', next := ResumeNext(src, i, all, p, s, r, last, dst);
      DecodeRest(src, i', all, p + [s], r, last, next);
      DecodeMore(src, i, dst, |ExpandAll(p)|, i', next, |ExpandAll(p + [s])|);
    }
  }

  lemma {:induction false} PrefixFits(p: seq<Sequence>, q: seq<Sequence>)
    requires WellFormed(p + q)
    ensures WellFormed(p) && |ExpandAll(p)| <= |ExpandAll(p + q)|
    decreases |q|
  {
    if q == [] {
      assert p + q == p;
    } else {
      var r := q[..|q| - 1];
      assert (p + q)[..|p + q| - 1] == p + r;
      PrefixFits(p, r);
    }
  }

  /** Every well-formed block decodes to what it stands for, given at least that much room. */
  lemma DecodeEncode(b: Block, originalSize: nat)
    requires WellFormed(b.sequences) && originalSize >= |Expand(b)|
    ensures Decode(Encode(b), originalSize) == Ok(Expand(b))
  {
    assert [] + b.sequences == b.sequences;
    DecodeRest(Encode(b), 0, b.sequences, [], b.sequences, b.last, Zeros(originalSize));
  }
}
