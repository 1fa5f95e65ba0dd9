/** The compressor itself: cursors moving over the input, stores into the output buffer and the hash table. */
module Lz4Compress {
  import opened Bytes
  import opened Words
  import opened Lz4Format
  import opened Lz4Parse

  function CompressBound(n: nat): nat {
    n + n / 255 + 16
  }

  /** Enters position i in the table. */
  method Enter(src: seq<byte>, htab: array<uint32>, i: nat, ghost finder: Finder)
    requires i + 4 <= |src| < TWO31
    requires htab.Length == TABLE_SIZE && Implements(src, finder)
    modifies htab
    ensures htab[..] == finder.enter(old(htab[..]), i)
    ensures htab[Hash4(src, i)] == i
    ensures forall h :: 0 <= h < TABLE_SIZE && h != Hash4(src, i) ==> htab[h] == old(htab[h])
  {
    htab[Hash4(src, i)] := i;
    assert htab[..] == Record(src, old(htab[..]), i);
  }

  /** One probe: the candidate of the position's hash, which the position then replaces in the table. */
  method Probe(src: seq<byte>, htab: array<uint32>, ip: nat, ghost finder: Finder) returns (found: bool, ref: nat)
    requires ip + 4 <= |src| < TWO31
    requires htab.Length == TABLE_SIZE && Implements(src, finder)
    modifies htab
    ensures ref == old(htab[Hash4(src, ip)]) && found == Usable(src, ref, ip)
    ensures htab[..] == Record(src, old(htab[..]), ip)
  {
    ref := htab[Hash4(src, ip)];
    Enter(src, htab, ip, finder);
    found := ref < ip && Read32(src, ref) == Read32(src, ip) && ip - ref <= MAX_OFFSET;
  }

  /** The search loop: probes ahead in growing steps, entering every probed position in the table. */
  method FindMatch(src: seq<byte>, htab: array<uint32>, start: nat, ghost finder: Finder)
    returns (found: bool, ip: nat, ref: nat)
    requires MIN_INPUT <= |src| < TWO31
    requires htab.Length == TABLE_SIZE && Implements(src, finder)
    modifies htab
    ensures finder.find(old(htab[..]), start) == if found then Found(ip, ref, htab[..]) else NotFound(htab[..])
  {
    var fwd, step, searchLimit := start, 1, 64;
    ghost var goal := Search(src, htab[..], start, 1, 64);
    found, ip, ref := false, start, 0;
    while !found
      invariant step >= 1 && searchLimit >= 64
      invariant !found ==> goal == Search(src, htab[..], fwd, step, searchLimit)
      invariant found ==> goal == Found(ip, ref, htab[..])
      decreases !found, |src| - fwd
    {
      ip := fwd;
      fwd := fwd + step;
      step := searchLimit / 64;
      searchLimit := searchLimit + 1;
      if fwd > |src| - MF_LIMIT {
        return;
      }
      found, ref := Probe(src, htab, ip, finder);
    }
  }

  /** Extends a match eight bytes at a time with xor and ctz, then byte by byte. */
  method ExtendMatch(src: seq<byte>, start: nat, ref: nat, matchLimit: nat) returns (ip: nat)
    requires ref <= start <= matchLimit <= |src|
    ensures ip == start + CommonLen(src, start, ref, matchLimit)
  {
    ip := start;
    var r := ref;
    while ip + 8 <= matchLimit
      invariant 0 <= r <= ip <= matchLimit
      invariant ip + CommonLen(src, ip, r, matchLimit) == start + CommonLen(src, start, ref, matchLimit)
    {
      var diff := Xor(Load(src[ip..ip + 8]), Load(src[r..r + 8]));
      CtzFindsFirstDifference(src[ip..ip + 8], src[r..r + 8]);
      if !IsZero(diff) {
        var k := Ctz(diff) / 8;
        assert src[ip..ip + k] == src[ip..ip + 8][..k] == src[r..r + 8][..k] == src[r..r + k];
        CommonLenSplit(src, ip, r, matchLimit, k);
        ip := ip + k;
        return;
      }
      CommonLenSplit(src, ip, r, matchLimit, 8);
      ip, r := ip + 8, r + 8;
    }
    while ip < matchLimit && src[ip] == src[r]
      invariant 0 <= r <= ip <= matchLimit
      invariant ip + CommonLen(src, ip, r, matchLimit) == start + CommonLen(src, start, ref, matchLimit)
    {
      ip, r := ip + 1, r + 1;
    }
  }

  /** What is left of a length beyond its nibble: bytes of 255, then the rest in one byte. */
  method PutExt(dst: array<byte>, start: nat, len: nat) returns (op: nat)
    requires start + len / 255 + 1 <= dst.Length
    modifies dst
    ensures op == start + len / 255 + 1
    ensures dst[..op] == old(dst[..start]) + ExtBytes(len)
  {
    ExtSize(len);
    op := start;
    var n := len;
    while n >= 255
      invariant 0 <= n <= len && start <= op && op + n / 255 == start + len / 255
      invariant dst[..op] + ExtBytes(n) == old(dst[..start]) + ExtBytes(len)
    {
      ghost var before := dst[..op];
      dst[op] := 255;
      op := op + 1;
      n := n - 255;
      assert dst[..op] == before + [255];
      ConcatAssociative(before, [255], ExtBytes(n));
    }
    ghost var before := dst[..op];
    dst[op] := n;
    op := op + 1;
    assert dst[..op] == before + [n];
  }

  /** memcpy of the literals. */
  method PutBytes(dst: array<byte>, start: nat, data: seq<byte>) returns (op: nat)
    requires start + |data| <= dst.Length
    modifies dst
    ensures op == start + |data|
    ensures dst[..op] == old(dst[..start]) + data
  {
    forall i | 0 <= i < |data| {
      dst[start + i] := data[i];
    }
    op := start + |data|;
  }

  /** A token whose match nibble is still 0, and the literal length. */
  method PutToken(dst: array<byte>, start: nat, len: nat) returns (op: nat)
    requires start + 1 + |LenBytes(len)| <= dst.Length
    modifies dst
    ensures op == start + 1 + |LenBytes(len)|
    ensures dst[..op] == old(dst[..start]) + ([16 * Nibble(len)] + LenBytes(len))
  {
    ghost var before := dst[..start];
    op := start + 1;
    if len >= 15 {
      dst[start] := 0xF0;
      assert dst[..op] == before + [0xF0];
      LenSize(len);
      op := PutExt(dst, op, len - 15);
      ConcatAssociative(before, [0xF0], ExtBytes(len - 15));
    } else {
      dst[start] := 16 * len;
      assert dst[..op] == before + [16 * len];
    }
  }

  method PutRun(dst: array<byte>, start: nat, literals: seq<byte>) returns (op: nat)
    requires start + |EncodeRun(literals, 0)| <= dst.Length
    modifies dst
    ensures op == start + |EncodeRun(literals, 0)|
    ensures dst[..op] == old(dst[..start]) + EncodeRun(literals, 0)
  {
    ghost var before := dst[..start];
    op := PutToken(dst, start, |literals|);
    op := PutBytes(dst, op, literals);
    ConcatAssociative(before, [16 * Nibble(|literals|)] + LenBytes(|literals|), literals);
  }

  /** Adds the match nibble to the token, whose low nibble is zero so that `|=` is an addition, and the length bytes. */
  method PutMatchLength(dst: array<byte>, token: nat, start: nat, len: nat, limit: nat) returns (ok: bool, op: nat)
    requires token < start <= limit <= dst.Length
    requires dst[token] % 16 == 0
    modifies dst
    ensures !ok ==> len >= 15 && start + (len - 15) / 255 + 2 > limit
    ensures ok ==> op == start + |LenBytes(len)| <= limit
    ensures ok ==> dst[..op] == old(dst[..start])[token := old(dst[token]) + Nibble(len)] + LenBytes(len)
  {
    ok, op := true, start;
    ghost var before := dst[..start];
    LenSize(len);
    if len >= 15 {
      dst[token] := dst[token] + 0x0F;
      if op + (len - 15) / 255 + 2 > limit {
        return false, op;
      }
      assert dst[..start] == before[token := before[token] + 15];
      op := PutExt(dst, op, len - 15);
    } else {
      dst[token] := dst[token] + len;
    }
  }

  /** Token, literals and offset of a sequence, after a check that leaves room for all of its first half. */
  method PutHead(dst: array<byte>, start: nat, literals: seq<byte>, offset: uint16, limit: nat)
    returns (ok: bool, op: nat)
    requires start <= limit <= dst.Length
    modifies dst
    ensures !ok ==> start + |literals| + |literals| / 255 + 17 > limit
    ensures ok ==> op == start + |EncodeRun(literals, 0)| + 2 <= limit
    ensures ok ==> dst[..op] == old(dst[..start]) + (EncodeRun(literals, 0) + [offset % 256, offset / 256])
  {
    ok, op := true, start;
    var litLen := |literals|;
    LenSize(litLen);
    if start + 1 + litLen + litLen / 255 + 16 > limit {
      return false, op;
    }
    ghost var before := dst[..start];
    op := PutRun(dst, op, literals);
    op := PutBytes(dst, op, [offset % 256, offset / 256]);
    ConcatAssociative(before, EncodeRun(literals, 0), [offset % 256, offset / 256]);
  }

  /** Setting the match nibble in the token and appending the length bytes completes the sequence. */
  lemma CompleteSequence(before: seq<byte>, s: Sequence)
    ensures var head := EncodeRun(s.literals, 0) + [s.offset % 256, s.offset / 256];
            && |before + head| > |before| && (before + head)[|before|] == 16 * Nibble(|s.literals|)
            && 16 * Nibble(|s.literals|) + Nibble(s.extra) < 256
            && (before + head)[|before| := 16 * Nibble(|s.literals|) + Nibble(s.extra)] + LenBytes(s.extra)
               == before + EncodeSequence(s)
  {
    var head := EncodeRun(s.literals, 0) + [s.offset % 256, s.offset / 256];
    var patched := EncodeRun(s.literals, Nibble(s.extra)) + [s.offset % 256, s.offset / 256];
    assert (before + head)[|before| := 16 * Nibble(|s.literals|) + Nibble(s.extra)] == before + patched;
    ConcatAssociative(before, patched, LenBytes(s.extra));
  }

  /** One sequence: token and literals, offset, then the match is extended and its length put into the token. */
  method PutSequence(src: seq<byte>, anchor: nat, at: nat, ref: nat, dst: array<byte>, start: nat, limit: nat)
    returns (ok: bool, op: nat, ip: nat)
    requires anchor <= at && IsMatch(src, at, ref)
    requires start <= limit <= dst.Length
    modifies dst
    ensures !ok ==> start + |EncodeSequence(Matched(src, anchor, at, ref))| + 14 > limit
    ensures ok ==> op == start + |EncodeSequence(Matched(src, anchor, at, ref))| <= limit
    ensures ok ==> dst[..op] == old(dst[..start]) + EncodeSequence(Matched(src, anchor, at, ref))
    ensures ok ==> ip == at + Matched(src, anchor, at, ref).MatchLen()
  {
    ghost var before, s := dst[..start], Matched(src, anchor, at, ref);
    LenSize(|s.literals|);
    LenSize(s.extra);
    ip := at;
    ok, op := PutHead(dst, start, src[anchor..at], at - ref, limit);
    if !ok {
      return;
    }
    CompleteSequence(before, s);
    assert dst[start] == dst[..op][start];
    ip := ExtendMatch(src, at + 4, ref + 4, |src| - LAST_LITERALS);
    ok, op := PutMatchLength(dst, start, op, ip - (at + 4), limit);
  }

  /** The same, behind the sequences ss. */
  method AppendSequence(src: seq<byte>, ghost ss: seq<Sequence>, anchor: nat, at: nat, ref: nat,
                        dst: array<byte>, start: nat, limit: nat)
    returns (ok: bool, op: nat, ip: nat)
    requires anchor <= at && IsMatch(src, at, ref)
    requires start <= limit <= dst.Length && start == |EncodeAll(ss)| && dst[..start] == EncodeAll(ss)
    modifies dst
    ensures var all := EncodeAll(ss + [Matched(src, anchor, at, ref)]);
            && (!ok ==> |all| + 14 > limit)
            && (ok ==> op == |all| <= limit && dst[..op] == all)
    ensures ok ==> ip == at + Matched(src, anchor, at, ref).MatchLen()
  {
    EncodeSnoc(ss, Matched(src, anchor, at, ref));
    ok, op, ip := PutSequence(src, anchor, at, ref, dst, start, limit);
  }

  /** What a round comes to when a match is found. */
  lemma RoundFound(src: seq<byte>, finder: Finder, st: State, p: nat, ref: nat, table: Table)
    requires Sound(src, finder) && Going(st) && finder.find(st.table, st.ip) == Found(p, ref, table)
    ensures st.anchor <= p && IsMatch(src, p, ref)
    ensures var next, s := Round(src, finder, st), Matched(src, st.anchor, p, ref);
            && next.ss == st.ss + [s] && next.anchor == next.ip == p + s.MatchLen()
            && next.more == (next.ip < |src| - MF_LIMIT)
            && next.table == if next.more then finder.enter(table, next.ip - 2) else table
  {
  }

  lemma RoundNone(src: seq<byte>, finder: Finder, st: State, table: Table)
    requires Sound(src, finder) && Going(st) && finder.find(st.table, st.ip) == NotFound(table)
    ensures Round(src, finder, st) == st.(table := table, more := false)
  {
  }

  /** Whether the loop goes on; if it does, a position near the match's end is entered. */
  method EnterNearEnd(src: seq<byte>, htab: array<uint32>, ip: nat, ghost finder: Finder) returns (more: bool)
    requires MIN_INPUT <= |src| < TWO31 && ip >= 2
    requires htab.Length == TABLE_SIZE && Implements(src, finder)
    modifies htab
    ensures more == (ip < |src| - MF_LIMIT)
    ensures htab[..] == if more then finder.enter(old(htab[..]), ip - 2) else old(htab[..])
  {
    more := ip < |src| - MF_LIMIT;
    if more {
      Enter(src, htab, ip - 2, finder);
    }
  }

  /** The part of a round after the search; `next` is the state the round ends in. */
  method PutFound(src: seq<byte>, dst: array<byte>, maxOut: nat, htab: array<uint32>, op0: nat, anchor0: nat, p: nat,
                  ref: nat, ghost ss: seq<Sequence>, ghost next: State, ghost finder: Finder)
    returns (ok: bool, more: bool, op: nat, anchor: nat, ip: nat)
    requires MIN_INPUT <= |src| < TWO31 && Implements(src, finder)
    requires htab.Length == TABLE_SIZE && op0 <= maxOut <= dst.Length && dst as object != htab as object
    requires anchor0 <= p && IsMatch(src, p, ref)
    requires op0 == |EncodeAll(ss)| && dst[..op0] == EncodeAll(ss)
    requires var s := Matched(src, anchor0, p, ref);
             && next.ss == ss + [s] && next.anchor == next.ip == p + s.MatchLen()
             && next.more == (next.ip < |src| - MF_LIMIT)
             && next.table == if next.more then finder.enter(htab[..], next.ip - 2) else htab[..]
    modifies dst, htab
    ensures !ok ==> |EncodeAll(next.ss)| + 14 > maxOut
    ensures ok ==> op == |EncodeAll(next.ss)| <= maxOut && dst[..op] == EncodeAll(next.ss)
    ensures ok ==> anchor == next.anchor && ip == next.ip && htab[..] == next.table && more == next.more
  {
    more, anchor := false, anchor0;
    ok, op, ip := AppendSequence(src, ss, anchor0, p, ref, dst, op0, maxOut);
    if ok {
      anchor := ip;
      more := EnterNearEnd(src, htab, ip, finder);
    }
  }

  /**
   One round of the main loop: looks for a match, stores its sequence, enters a position near its end. Here st
   is the loop's state before.
   */
  method PutNext(src: seq<byte>, dst: array<byte>, maxOut: nat, htab: array<uint32>, op0: nat, ghost st: State,
                 anchor0: nat, ip0: nat, ghost finder: Finder)
    returns (ok: bool, more: bool, op: nat, anchor: nat, ip: nat)
    requires MIN_INPUT <= |src| < TWO31
    requires htab.Length == TABLE_SIZE && op0 <= maxOut <= dst.Length && dst as object != htab as object
    requires Sound(src, finder) && Implements(src, finder)
    requires Going(st) && st.anchor == anchor0 && st.ip == ip0 && st.table == htab[..]
    requires op0 == |EncodeAll(st.ss)| && dst[..op0] == EncodeAll(st.ss)
    modifies dst, htab
    ensures var next := Round(src, finder, st);
            && (!ok ==> next.ss != [] && |EncodeAll(next.ss)| + 14 > maxOut)
            && (ok ==> op == |EncodeAll(next.ss)| <= maxOut && dst[..op] == EncodeAll(next.ss))
            && (ok ==> anchor == next.anchor && ip == next.ip && htab[..] == next.table && more == next.more)
  {
    ghost var next := Round(src, finder, st);
    var found, p, ref := FindMatch(src, htab, ip0, finder);
    if !found {
      RoundNone(src, finder, st, htab[..]);
      ok, more, op, anchor, ip := true, false, op0, anchor0, ip0;
    } else {
      RoundFound(src, finder, st, p, ref, htab[..]);
      ok, more, op, anchor, ip := PutFound(src, dst, maxOut, htab, op0, anchor0, p, ref, st.ss, next, finder);
    }
  }

  /** The main loop: one sequence for each match found. */
  method PutSequences(src: seq<byte>, dst: array<byte>, maxOut: nat, htab: array<uint32>, ghost finder: Finder)
    returns (ok: bool, op: nat, anchor: nat)
    requires |src| < TWO31
    requires htab.Length == TABLE_SIZE && maxOut <= dst.Length && dst as object != htab as object
    requires Sound(src, finder) && Implements(src, finder)
    modifies dst, htab
    ensures !ok ==> |Encode(BlockOf(src, finder, old(htab[..])))| + 8 > maxOut
    ensures ok ==> op == |EncodeAll(Parse(src, finder, old(htab[..])).ss)| <= maxOut
    ensures ok ==> dst[..op] == EncodeAll(Parse(src, finder, old(htab[..])).ss)
    ensures ok ==> anchor == Parse(src, finder, old(htab[..])).anchor
    ensures ok ==> htab[..] == Parse(src, finder, old(htab[..])).table
  {
    ok, op, anchor := true, 0, 0;
    if |src| < MIN_INPUT {
      return;
    }
    ghost var t := htab[..];
    ghost var st := Start(src, finder, t);
    var ip, more := 1, true;
    Enter(src, htab, 0, finder);
    while more
      invariant 0 <= anchor && 0 <= ip && (more ==> Going(st))
      invariant anchor == st.anchor && ip == st.ip && htab[..] == st.table && more == st.more
      invariant Rounds(src, finder, st) == Parse(src, finder, t)
      invariant op == |EncodeAll(st.ss)| <= maxOut && dst[..op] == EncodeAll(st.ss)
      decreases more, |src| - ip
    {
      RoundAdvances(src, finder, st);
      ok, more, op, anchor, ip := PutNext(src, dst, maxOut, htab, op, st, anchor, ip, finder);
      st := Round(src, finder, st);
      if !ok {
        NoRoom(src, finder, t, st);
        return;
      }
    }
  }

  /** Whatever sequences the block starts with, six more bytes at least follow them. */
  lemma NoRoom(src: seq<byte>, finder: Finder, t: Table, st: State)
    requires Sound(src, finder) && (st.more ==> Going(st)) && st.ss != []
    requires Rounds(src, finder, st) == Parse(src, finder, t)
    ensures |EncodeAll(st.ss)| + 6 <= |Encode(BlockOf(src, finder, t))|
  {
    RoundsKeep(src, finder, st, (ss: seq<Sequence>, a: nat) => IsPrefix(st.ss, ss));
    EncodeGrows(st.ss, Parse(src, finder, t).ss);
    BlockEndConditions(src, finder, t);
  }

  /**
   Compresses one block into dst[..r], r <= maxOut, or returns 0 when maxOut leaves no room. The table keeps what
   earlier blocks left in it. The bytes are those of the block that Parse makes of the input.
   With less room than CompressBound the last guard lets one byte too many through, so that the buffer must
   hold one byte more than maxOut in that case.
   */
  method Compress(src: seq<byte>, dst: array<byte>, maxOut: nat, htab: array<uint32>) returns (r: nat)
    requires |src| < TWO31
    requires htab.Length == TABLE_SIZE && dst as object != htab as object
    requires maxOut + (if maxOut < CompressBound(|src|) then 1 else 0) <= dst.Length
    modifies dst, htab
    ensures r <= dst.Length
    ensures r != 0 ==> dst[..r] == Encode(BlockOf(src, HashFinder(src), old(htab[..])))
    ensures r != 0 ==> htab[..] == Parse(src, HashFinder(src), old(htab[..])).table
    ensures r == 0 && src != [] && maxOut > 0 ==> |Encode(BlockOf(src, HashFinder(src), old(htab[..])))| + 8 > maxOut
    ensures src == [] || maxOut == 0 ==> r == 0
    ensures src != [] && maxOut >= |src| + |src| / 255 + 16 ==> 0 < r <= |src| + |src| / 255 + 2
    ensures r > maxOut ==> r == maxOut + 1 && |BlockOf(src, HashFinder(src), old(htab[..])).last| % 255 >= 15
  {
    if src == [] || maxOut == 0 {
      return 0;
    }
    ghost var finder := HashFinder(src);
    BlockParts(src, finder, htab[..]);
    var ok, op, anchor := PutSequences(src, dst, maxOut, htab, finder);
    if !ok {
      return 0;
    }
    r := PutLast(dst, op, src[anchor..], maxOut);
  }

  /** The last literals, behind a guard that counts one length byte for each 255 of them. */
  method PutLast(dst: array<byte>, op: nat, last: seq<byte>, maxOut: nat) returns (r: nat)
    requires op <= maxOut <= dst.Length
    requires op + |EncodeRun(last, 0)| <= dst.Length || maxOut < dst.Length
    modifies dst
    ensures r == 0 ==> op + |EncodeRun(last, 0)| > maxOut
    ensures r != 0 ==> r == op + |EncodeRun(last, 0)| <= dst.Length && dst[..r] == old(dst[..op]) + EncodeRun(last, 0)
    ensures r > maxOut ==> r == maxOut + 1 && |last| % 255 >= 15
  {
    var lastRun := |last|;
    LenSize(lastRun);
    if op + lastRun + 1 + lastRun / 255 > maxOut {
      return 0;
    }
    LastGuard(op, lastRun, maxOut);
    r := PutRun(dst, op, last);
  }

  /**
   The guard before the last literals counts one length byte for each 255 of them, which is one too few exactly
   when the run leaves 15 or more over: then, and only then, it lets a run through that needs one byte more
   than there is.
   */
  lemma LastGuard(op: nat, lastRun: nat, maxOut: nat)
    requires op + lastRun + 1 + lastRun / 255 <= maxOut
    ensures var end := op + 1 + |LenBytes(lastRun)| + lastRun;
            && (end <= maxOut <==> lastRun % 255 < 15 || op + lastRun + 1 + lastRun / 255 < maxOut)
            && end <= maxOut + 1
  {
    LenSize(lastRun);
  }

  /** Input whose bytes are all different has nothing to match. */
  lemma NothingToMatch(src: seq<byte>, finder: Finder, t: Table)
    requires Sound(src, finder)
    requires forall i, j :: 0 <= i < j < |src| ==> src[i] != src[j]
    ensures BlockOf(src, finder, t) == Block([], src)
  {
    var st := Start(src, finder, t);
    if st.more {
      var f := finder.find(st.table, st.ip);
      forall ip, ref ensures !IsMatch(src, ip, ref) {
        NoMatchAt(src, ip, ref);
      }
      assert f.NotFound?;
      var next := Round(src, finder, st);
      assert Rounds(src, finder, next) == next;
    }
    assert Parse(src, finder, t).ss == [] && Parse(src, finder, t).anchor == 0;
    assert src[0..] == src;
  }

  lemma NoMatchAt(src: seq<byte>, ip: nat, ref: nat)
    requires forall i, j :: 0 <= i < j < |src| ==> src[i] != src[j]
    ensures !IsMatch(src, ip, ref)
  {
    if ip + MF_LIMIT < |src| && ref < ip {
      assert src[ref..ref + MIN_MATCH][0] != src[ip..ip + MIN_MATCH][0];
    }
  }

  /** The bytes 0 to 14. */
  function Fifteen(): (r: seq<byte>)
    ensures |r| == 15 && forall i :: 0 <= i < 15 ==> r[i] == i
  {
    seq(15, i requires 0 <= i < 15 => i as byte)
  }

  lemma LiteralsOnly(src: seq<byte>)
    requires |src| == 15
    ensures |EncodeAll([])| == 0 && |Encode(Block([], src))| == 17
  {
    LenSize(15);
  }

  /** Fifteen different bytes and room for sixteen: the guard passes, and seventeen bytes are stored. */
  lemma LastGuardTooWeak(t: Table)
    ensures var b := BlockOf(Fifteen(), HashFinder(Fifteen()), t);
            var op, lastRun := |EncodeAll(b.sequences)|, |b.last|;
            op + lastRun + 1 + lastRun / 255 <= 16 && |Encode(b)| == 17
  {
    NothingToMatch(Fifteen(), HashFinder(Fifteen()), t);
    LiteralsOnly(Fifteen());
  }
}
