/**
 The LZ4 block format: what a block of sequences serialises to, what it expands to, and the
 restrictions the "End of block conditions" section of the LZ4 Block Format Description puts on it.
 */
module Lz4Format {
  import opened Bytes

  const MIN_MATCH: nat := 4
  const MAX_OFFSET: nat := 0xFFFF
  /** The last match starts at least this many bytes before the end of the block. */
  const MF_LIMIT: nat := 12
  /** The last bytes of a block that holds a match are literals. */
  const LAST_LITERALS: nat := 5

  type uint16 = x: int | 0 <= x <= MAX_OFFSET

  /** Literals followed by a match of `extra + MIN_MATCH` bytes that starts `offset` bytes back. */
  datatype Sequence = Sequence(literals: seq<byte>, offset: uint16, extra: nat) {
    function MatchLen(): nat { extra + MIN_MATCH }
  }

  /** A block: sequences, then a final sequence of literals only. */
  datatype Block = Block(sequences: seq<Sequence>, last: seq<byte>)

  // ---- serialisation ----

  function Nibble(len: nat): (n: nat)
    ensures n <= 15
  {
    if len >= 15 then 15 else len
  }

  /** What is left of a length once the nibble took 15: bytes of 255, then a smaller one. */
  function ExtBytes(n: nat): (s: seq<byte>)
    ensures |s| > 0
  {
    if n >= 255 then [255] + ExtBytes(n - 255) else [n]
  }

  function LenBytes(len: nat): seq<byte> {
    if len >= 15 then ExtBytes(len - 15) else []
  }

  /** Token, literal length and literals; `low` is the token's match-length nibble. */
  function EncodeRun(literals: seq<byte>, low: nat): (s: seq<byte>)
    requires low <= 15
    ensures |s| == 1 + |LenBytes(|literals|)| + |literals|
  {
    [16 * Nibble(|literals|) + low] + LenBytes(|literals|) + literals
  }

  function EncodeSequence(s: Sequence): (e: seq<byte>)
    ensures |e| == 1 + |LenBytes(|s.literals|)| + |s.literals| + 2 + |LenBytes(s.extra)|
  {
    EncodeRun(s.literals, Nibble(s.extra)) + [s.offset % 256, s.offset / 256] + LenBytes(s.extra)
  }

  function EncodeAll(ss: seq<Sequence>): seq<byte> {
    if ss == [] then [] else EncodeAll(ss[..|ss| - 1]) + EncodeSequence(ss[|ss| - 1])
  }

  function Encode(b: Block): seq<byte> {
    EncodeAll(b.sequences) + EncodeRun(b.last, 0)
  }

  // ---- meaning ----

  /** Appends to `out` `len` bytes, each a copy of the one `offset` back: an overlapping match repeats itself. */
  function CopyMatch(out: seq<byte>, offset: nat, len: nat): (r: seq<byte>)
    ensures 1 <= offset <= |out| ==> |r| == |out| + len
    decreases len
  {
    if len == 0 || offset == 0 || offset > |out| then out
    else CopyMatch(out + [out[|out| - offset]], offset, len - 1)
  }

  function ExpandAll(ss: seq<Sequence>): seq<byte> {
    if ss == [] then [] else
      var s := ss[|ss| - 1];
      CopyMatch(ExpandAll(ss[..|ss| - 1]) + s.literals, s.offset, s.MatchLen())
  }

  /** The bytes a block stands for. */
  function Expand(b: Block): seq<byte> {
    ExpandAll(b.sequences) + b.last
  }

  /** Every match starts inside what is already expanded. */
  ghost predicate WellFormed(ss: seq<Sequence>) {
    ss == [] ||
    (WellFormed(ss[..|ss| - 1]) &&
     var s := ss[|ss| - 1];
     1 <= s.offset <= |ExpandAll(ss[..|ss| - 1])| + |s.literals|)
  }

  /** Position in the expanded block at which the match of sequence i ends. */
  function MatchEnd(ss: seq<Sequence>, i: nat): nat
    requires i < |ss|
  {
    |ExpandAll(ss[..i + 1])|
  }

  /** The end of block conditions; the final sequence holds literals only by construction of Block. */
  ghost predicate EndConditions(b: Block) {
    b.sequences != [] ==>
      && |b.last| >= LAST_LITERALS
      && var n := |b.sequences|;
         MatchEnd(b.sequences, n - 1) - b.sequences[n - 1].MatchLen() + MF_LIMIT <= |Expand(b)|
  }

  // ---- sizes ----

  lemma {:induction false} ExtSize(n: nat)
    ensures |ExtBytes(n)| == n / 255 + 1
  {
    if n >= 255 {
      ExtSize(n - 255);
    }
  }

  /** All of them are 255 but the last. */
  lemma {:induction false} ExtBytesAre(n: nat)
    ensures var s := ExtBytes(n);
            |s| == n / 255 + 1 && s[|s| - 1] == n % 255 && forall k :: 0 <= k < |s| - 1 ==> s[k] == 255
  {
    if n >= 255 {
      ExtBytesAre(n - 255);
    }
  }

  lemma LenSize(len: nat)
    ensures |LenBytes(len)| == if len >= 15 then (len - 15) / 255 + 1 else 0
  {
    if len >= 15 {
      ExtSize(len - 15);
    }
  }

  lemma EncodeSnoc(ss: seq<Sequence>, s: Sequence)
    ensures EncodeAll(ss + [s]) == EncodeAll(ss) + EncodeSequence(s)
  {
    assert (ss + [s])[..|ss|] == ss;
  }

  lemma ExpandSnoc(ss: seq<Sequence>, s: Sequence)
    ensures ExpandAll(ss + [s]) == CopyMatch(ExpandAll(ss) + s.literals, s.offset, s.MatchLen())
    ensures WellFormed(ss + [s]) <==> WellFormed(ss) && 1 <= s.offset <= |ExpandAll(ss)| + |s.literals|
  {
    assert (ss + [s])[..|ss|] == ss;
  }

  lemma LastMoves<T>(a: seq<T>, b: seq<T>)
    requires b != []
    ensures a + b == (a + b[..|b| - 1]) + [b[|b| - 1]]
  {
  }

  lemma {:induction false} EncodeAppend(a: seq<Sequence>, b: seq<Sequence>)
    ensures EncodeAll(a + b) == EncodeAll(a) + EncodeAll(b)
  {
    if b == [] {
      assert a + b == a;
    } else {
      var c, s := b[..|b| - 1], b[|b| - 1];
      EncodeSnoc(a + c, s);
      LastMoves(a, b);
      EncodeAppend(a, c);
      ConcatAssociative(EncodeAll(a), EncodeAll(c), EncodeSequence(s));
    }
  }

  ghost predicate IsPrefix<T>(a: seq<T>, b: seq<T>) {
    |a| <= |b| && b[..|a|] == a
  }

  lemma EncodeGrows(a: seq<Sequence>, all: seq<Sequence>)
    requires IsPrefix(a, all)
    ensures |EncodeAll(a)| <= |EncodeAll(all)|
  {
    assert a + all[|a|..] == all;
    EncodeAppend(a, all[|a|..]);
  }

  /** A match saves at least what a token, an offset and its own length bytes cost. */
  lemma SequenceCost(s: Sequence)
    ensures |EncodeSequence(s)| <= |s.literals| + |s.literals| / 255 + s.MatchLen()
  {
    LenSize(|s.literals|);
    LenSize(s.extra);
  }

  /**
   The accounting over all sequences: the serialised sequences are no longer than what they expand to,
   plus one byte for each 255.
   */
  lemma {:induction false} AllCost(ss: seq<Sequence>)
    requires WellFormed(ss)
    ensures |EncodeAll(ss)| <= |ExpandAll(ss)| + |ExpandAll(ss)| / 255
  {
    if ss != [] {
      var s, p := ss[|ss| - 1], ss[..|ss| - 1];
      AllCost(p);
      SequenceCost(s);
      Superadditive(|ExpandAll(p)|, |s.literals|, s.MatchLen());
    }
  }

  lemma Superadditive(a: nat, b: nat, c: nat)
    ensures a / 255 + b / 255 <= (a + b + c) / 255
  {
  }

  /** No well-formed block is longer than what it stands for plus one byte in 255 plus 2. */
  lemma EncodeSize(b: Block)
    requires WellFormed(b.sequences)
    ensures |Encode(b)| <= |Expand(b)| + |Expand(b)| / 255 + 2
  {
    AllCost(b.sequences);
    LenSize(|b.last|);
    Superadditive(|ExpandAll(b.sequences)|, |b.last|, 0);
  }
}
