/** Compressor and decoder together. */
module Lz4RoundTrip {
  import opened Bytes
  import opened Lz4Format
  import opened Lz4Parse
  import opened Lz4Compress
  import opened Lz4Decompress

  /**
   What the compressor makes of a block decodes to that block: for every block, every content of the table
   left by the blocks before it, every sound way of looking for matches, and every size of at least the
   block's that the decoder is told.
   */
  lemma DecodeCompressed(src: seq<byte>, finder: Finder, t: Table, originalSize: nat)
    requires Sound(src, finder) && originalSize >= |src|
    ensures Decode(Encode(BlockOf(src, finder, t)), originalSize) == Ok(src)
  {
    BlockExpandsToInput(src, finder, t);
    DecodeEncode(BlockOf(src, finder, t), originalSize);
  }

  /** The compressor run into a buffer of the size its callers allot, and the decoder run on what it stored. */
  method CompressAndDecompress(src: seq<byte>, dst: array<byte>, htab: array<uint32>) returns (back: Decoded)
    requires 0 < |src| < TWO31
    requires htab.Length == TABLE_SIZE && dst as object != htab as object
    requires CompressBound(|src|) <= dst.Length
    modifies dst, htab
    ensures back == Ok(src)
  {
    ghost var t := htab[..];
    var r := Compress(src, dst, CompressBound(|src|), htab);
    DecodeCompressed(src, HashFinder(src), t, |src|);
    back := DecompressBlock(dst[..r], |src|);
  }
}
