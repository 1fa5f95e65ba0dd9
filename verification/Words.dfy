/**
 Machine words as their bits, exclusive or and count-trailing-zeros, and why they find the first byte that differs.
 */
module Words {
  import opened Bytes

  /** The bits of a word, least significant first. */
  type Word = seq<bool>

  /** The k low bits of v. */
  function Bits(v: nat, k: nat): (w: Word)
    ensures |w| == k
  {
    if k == 0 then [] else [v % 2 == 1] + Bits(v / 2, k - 1)
  }

  /** The word stored in these bytes, least significant byte first (AArch64 is little-endian). */
  function Load(s: seq<byte>): (w: Word)
    ensures |w| == 8 * |s|
  {
    if s == [] then [] else Bits(s[0], 8) + Load(s[1..])
  }

  function Xor(a: Word, b: Word): (w: Word)
    requires |a| == |b|
    ensures |w| == |a|
  {
    if a == [] then [] else [a[0] != b[0]] + Xor(a[1..], b[1..])
  }

  /** Number of zero bits below the lowest set bit; the width of the word when there is none. */
  function Ctz(w: Word): (n: nat)
    ensures n <= |w|
  {
    if w == [] || w[0] then 0 else 1 + Ctz(w[1..])
  }

  predicate IsZero(w: Word) {
    Ctz(w) == |w|
  }

  lemma {:induction false} XorAppend(a: Word, b: Word, c: Word, d: Word)
    requires |a| == |b| && |c| == |d|
    ensures Xor(a + c, b + d) == Xor(a, b) + Xor(c, d)
  {
    if a == [] {
      assert a + c == c && b + d == d;
    } else {
      XorAppend(a[1..], b[1..], c, d);
      assert (a + c)[1..] == a[1..] + c && (b + d)[1..] == b[1..] + d;
    }
  }

  lemma {:induction false} CtzAppend(a: Word, b: Word)
    ensures Ctz(a + b) == if IsZero(a) then |a| + Ctz(b) else Ctz(a)
  {
    if a == [] {
      assert a + b == b;
    } else if !a[0] {
      CtzAppend(a[1..], b);
      assert (a + b)[1..] == a[1..] + b;
    }
  }

  /** Two bytes have no differing bit exactly when they are equal. */
  lemma {:induction false} XorBits(a: nat, b: nat, k: nat)
    ensures a == b ==> IsZero(Xor(Bits(a, k), Bits(b, k)))
    ensures a != b && a < Pow2(k) && b < Pow2(k) ==> !IsZero(Xor(Bits(a, k), Bits(b, k)))
  {
    if k > 0 {
      XorBits(a / 2, b / 2, k - 1);
    }
  }

  function Pow2(k: nat): nat {
    if k == 0 then 1 else 2 * Pow2(k - 1)
  }

  /**
   The trailing zeros of the exclusive or of two words, in bytes, are the index of the first byte in which they
   differ.
   */
  lemma {:induction false} CtzFindsFirstDifference(a: seq<byte>, b: seq<byte>)
    requires |a| == |b|
    ensures var diff := Xor(Load(a), Load(b));
            var k := Ctz(diff) / 8;
            && (IsZero(diff) <==> a == b)
            && (a != b ==> k < |a| && a[k] != b[k])
            && a[..k] == b[..k]
  {
    if a != [] {
      var p, q := Bits(a[0], 8), Bits(b[0], 8);
      var x, y := Load(a[1..]), Load(b[1..]);
      XorAppend(p, q, x, y);
      CtzAppend(Xor(p, q), Xor(x, y));
      OneByte(a[0], b[0]);
      CtzFindsFirstDifference(a[1..], b[1..]);
      assert a == [a[0]] + a[1..] && b == [b[0]] + b[1..];
      if a[0] == b[0] {
        var k := Ctz(Xor(x, y)) / 8;
        assert (8 + Ctz(Xor(x, y))) / 8 == k + 1;
        assert a[..k + 1] == [a[0]] + a[1..][..k] && b[..k + 1] == [b[0]] + b[1..][..k];
      }
    }
  }

  lemma OneByte(a: byte, b: byte)
    ensures IsZero(Xor(Bits(a, 8), Bits(b, 8))) <==> a == b
  {
    assert Pow2(8) == 256 by {
      assert Pow2(4) == 16;
    }
    XorBits(a, b, 8);
  }
}
