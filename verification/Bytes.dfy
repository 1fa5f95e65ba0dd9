/** Bytes, machine words as little-endian byte strings, and the two small result types. */
module Bytes {

  datatype Option<+T> = None | Some(value: T)

  datatype Result<+T, +E> = Ok(value: T) | Err(error: E)

  type byte = x: int | 0 <= x < 256

  const TWO32: int := 0x1_0000_0000
  const TWO31: int := 0x8000_0000
  const TWO64: int := 0x1_0000_0000_0000_0000

  type uint32 = x: int | 0 <= x < TWO32

  type uint64 = x: int | 0 <= x < TWO64

  function Min(a: int, b: int): int {
    if a <= b then a else b
  }

  function Max(a: int, b: int): int {
    if a >= b then a else b
  }

  /** The value of a word stored least significant byte first (AArch64 is little-endian). */
  function Le(s: seq<byte>): nat {
    if s == [] then 0 else s[0] + 256 * Le(s[1..])
  }

  /** The k low bytes of v, least significant first: `struct.pack("<I")` and a stored `uint32_t`. */
  function LeBytes(v: nat, k: nat): (s: seq<byte>)
    ensures |s| == k
  {
    if k == 0 then [] else [v % 256] + LeBytes(v / 256, k - 1)
  }

  lemma {:induction false} LeInjective(a: seq<byte>, b: seq<byte>)
    requires |a| == |b|
    ensures Le(a) == Le(b) <==> a == b
  {
    if a != [] {
      LeInjective(a[1..], b[1..]);
      assert a == [a[0]] + a[1..] && b == [b[0]] + b[1..];
    }
  }

  function Pow256(k: nat): nat {
    if k == 0 then 1 else 256 * Pow256(k - 1)
  }

  lemma {:induction false} LeOfLeBytes(v: nat, k: nat)
    requires v < Pow256(k)
    ensures Le(LeBytes(v, k)) == v
  {
    if k > 0 {
      LeOfLeBytes(v / 256, k - 1);
      assert LeBytes(v, k)[1..] == LeBytes(v / 256, k - 1);
    }
  }

  lemma {:induction false} LeBound(s: seq<byte>)
    ensures Le(s) < Pow256(|s|)
  {
    if s != [] {
      LeBound(s[1..]);
    }
  }

  /** Reading back a stored 32-bit word gives the word. */
  lemma LeBytes4(v: uint32)
    ensures Le(LeBytes(v, 4)) == v
  {
    assert Pow256(4) == TWO32 by {
      assert Pow256(2) == 0x1_0000;
    }
    LeOfLeBytes(v, 4);
  }

  lemma ConcatAssociative<T>(x: seq<T>, y: seq<T>, z: seq<T>)
    ensures (x + y) + z == x + (y + z)
  {
  }
}
