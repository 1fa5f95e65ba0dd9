/**
 Which block the compressor makes of its input, as a function of the input and of whatever the hash table
 holds on entry, and what holds of that block for every table.
 */
module Lz4Parse {
  import opened Bytes
  import opened Lz4Format

  const TABLE_SIZE: nat := 0x1_0000
  /** The shortest input that may hold a match. */
  const MIN_INPUT: nat := 13

  type Table = t: seq<uint32> | |t| == TABLE_SIZE witness seq(TABLE_SIZE, _ => 0)

  function Read32(src: seq<byte>, i: nat): nat
    requires i + 4 <= |src|
  {
    Le(src[i..i + 4])
  }

  /** The multiplicative hash of the four bytes at i, in 32-bit wrap-around arithmetic. */
  function Hash4(src: seq<byte>, i: nat): (h: nat)
    requires i + 4 <= |src|
    ensures h < TABLE_SIZE
  {
    (Read32(src, i) * 2654435761 % TWO32) / 0x1_0000
  }

  /** The table after position i, as a 32-bit number, is entered under the hash of the bytes there. */
  function Record(src: seq<byte>, t: Table, i: nat): Table {
    if i + 4 <= |src| then t[Hash4(src, i) := i % TWO32] else t
  }

  /** Four equal bytes at ref and at ip, ref within reach, ip clear of the end of the block. */
  ghost predicate IsMatch(src: seq<byte>, ip: nat, ref: nat) {
    && ip + MF_LIMIT < |src|
    && ref < ip <= ref + MAX_OFFSET
    && src[ref..ref + MIN_MATCH] == src[ip..ip + MIN_MATCH]
  }

  datatype Found = NotFound(table: Table) | Found(ip: nat, ref: nat, table: Table)

  /** A table entry may be used only when it names an earlier position of this block that really matches. */
  predicate Usable(src: seq<byte>, cand: uint32, ip: nat)
    requires ip + 4 <= |src|
  {
    cand < ip && Read32(src, cand) == Read32(src, ip) && ip - cand <= MAX_OFFSET
  }

  /**
   The accelerating search: from `ip` on, one probe every `step` bytes. What it finds is inside the block,
   behind ip, within reach, and four bytes long at least.
   */
  function Search(src: seq<byte>, t: Table, ip: nat, step: nat, limit: nat): (f: Found)
    requires step >= 1 && limit >= 64
    ensures f.Found? ==> ip <= f.ip && IsMatch(src, f.ip, f.ref)
    decreases |src| - ip
  {
    if ip + step > |src| - MF_LIMIT then NotFound(t)
    else
      var cand := t[Hash4(src, ip)];
      if Usable(src, cand, ip) then
        LeInjective(src[cand..cand + 4], src[ip..ip + 4]);
        Found(ip, cand, Record(src, t, ip))
      else Search(src, Record(src, t, ip), ip + step, limit / 64, limit + 1)
  }

  /** A way to look for the next match from a position on, and to enter a position in the table. */
  datatype Finder = Finder(find: (Table, nat) -> Found, enter: (Table, nat) -> Table)

  /** Whatever a sound finder finds is a match at or after the position asked about. */
  ghost predicate Sound(src: seq<byte>, finder: Finder) {
    forall t: Table, ip: nat :: var f := finder.find(t, ip); f.Found? ==> ip <= f.ip && IsMatch(src, f.ip, f.ref)
  }

  /** The compressor's finder: the accelerating search, and the hash table entry of a position. */
  function HashFinder(src: seq<byte>): (f: Finder)
    ensures Sound(src, f) && Implements(src, f)
  {
    Finder((t: Table, ip: nat) => Search(src, t, ip, 1, 64), (t: Table, i: nat) => Record(src, t, i))
  }

  ghost predicate Implements(src: seq<byte>, finder: Finder) {
    && (forall t: Table, ip: nat {:trigger Search(src, t, ip, 1, 64)} ::
          finder.find(t, ip) == Search(src, t, ip, 1, 64))
    && (forall t: Table, i: nat {:trigger Record(src, t, i)} :: finder.enter(t, i) == Record(src, t, i))
  }

  /** How far the bytes from i on repeat those from j on, byte by byte, before `limit`. */
  function CommonLen(src: seq<byte>, i: nat, j: nat, limit: nat): (k: nat)
    requires j <= i <= limit <= |src|
    ensures i + k <= limit
    decreases limit - i
  {
    if i < limit && src[i] == src[j] then 1 + CommonLen(src, i + 1, j + 1, limit) else 0
  }

  /** The sequence for a match found at ip against ref, with the literals since `anchor`. */
  function Matched(src: seq<byte>, anchor: nat, ip: nat, ref: nat): Sequence
    requires anchor <= ip && IsMatch(src, ip, ref)
  {
    Sequence(src[anchor..ip], ip - ref,
             CommonLen(src, ip + MIN_MATCH, ref + MIN_MATCH, |src| - LAST_LITERALS))
  }

  // ---- the match really is one ----

  lemma {:induction false} CommonLenExact(src: seq<byte>, i: nat, j: nat, limit: nat)
    requires j <= i <= limit <= |src|
    ensures var k := CommonLen(src, i, j, limit);
            && src[i..i + k] == src[j..j + k]
            && (i + k == limit || src[i + k] != src[j + k])
    decreases limit - i
  {
    if i < limit && src[i] == src[j] {
      CommonLenExact(src, i + 1, j + 1, limit);
      var k := CommonLen(src, i + 1, j + 1, limit);
      assert src[i..i + 1 + k] == [src[i]] + src[i + 1..i + 1 + k];
      assert src[j..j + 1 + k] == [src[j]] + src[j + 1..j + 1 + k];
    }
  }

  /** Equal stretches extend the common length; the first difference ends it. */
  lemma {:induction false} CommonLenSplit(src: seq<byte>, i: nat, j: nat, limit: nat, k: nat)
    requires j <= i <= i + k <= limit <= |src|
    requires src[i..i + k] == src[j..j + k]
    ensures CommonLen(src, i, j, limit) == k + CommonLen(src, i + k, j + k, limit)
    decreases k
  {
    if k > 0 {
      assert src[i] == src[i..i + k][0] == src[j..j + k][0] == src[j];
      assert src[i + 1..i + k] == src[i..i + k][1..] == src[j..j + k][1..] == src[j + 1..j + k];
      CommonLenSplit(src, i + 1, j + 1, limit, k - 1);
    }
  }

  /** Copying byte by byte from `i - j` back rebuilds the input, also where source and copy overlap. */
  lemma {:induction false} CopyRebuilds(src: seq<byte>, i: nat, j: nat, len: nat)
    requires j < i && i + len <= |src|
    requires src[i..i + len] == src[j..j + len]
    ensures CopyMatch(src[..i], i - j, len) == src[..i + len]
    decreases len
  {
    if len > 0 {
      assert src[i] == src[i..i + len][0] == src[j..j + len][0] == src[j];
      assert src[..i] + [src[j]] == src[..i + 1];
      assert src[i + 1..i + len] == src[i..i + len][1..] == src[j..j + len][1..] == src[j + 1..j + len];
      CopyRebuilds(src, i + 1, j + 1, len - 1);
    }
  }

  /** Input and match agree from ip to the end of the match, and not beyond. */
  lemma MatchRepeats(src: seq<byte>, ip: nat, ref: nat, k: nat)
    requires IsMatch(src, ip, ref)
    requires k == CommonLen(src, ip + MIN_MATCH, ref + MIN_MATCH, |src| - LAST_LITERALS)
    ensures var e := ip + MIN_MATCH + k;
            && e <= |src| - LAST_LITERALS
            && src[ip..e] == src[ref..ref + MIN_MATCH + k]
            && (e == |src| - LAST_LITERALS || src[e] != src[e - (ip - ref)])
  {
    CommonLenExact(src, ip + 4, ref + 4, |src| - LAST_LITERALS);
    assert src[ip..ip + 4 + k] == src[ip..ip + 4] + src[ip + 4..ip + 4 + k];
    assert src[ref..ref + 4 + k] == src[ref..ref + 4] + src[ref + 4..ref + 4 + k];
  }

  lemma TakeSlice(src: seq<byte>, a: nat, b: nat)
    requires a <= b <= |src|
    ensures src[..a] + src[a..b] == src[..b]
  {
  }

  /** One sequence: appended to sequences that expand to the input up to `anchor`, it carries on to the match's end. */
  lemma MatchedExpands(src: seq<byte>, before: seq<Sequence>, anchor: nat, ip: nat, ref: nat, s: Sequence)
    requires anchor <= ip && ip + s.MatchLen() <= |src| && ref < ip <= ref + MAX_OFFSET
    requires s.literals == src[anchor..ip] && s.offset == ip - ref
    requires src[ip..ip + s.MatchLen()] == src[ref..ref + s.MatchLen()]
    requires WellFormed(before) && ExpandAll(before) == src[..anchor]
    ensures WellFormed(before + [s]) && ExpandAll(before + [s]) == src[..ip + s.MatchLen()]
  {
    TakeSlice(src, anchor, ip);
    CopyRebuilds(src, ip, ref, s.MatchLen());
    ExpandSnoc(before, s);
  }

  // ---- the whole block ----

  /** Match i cannot be made longer: it ends at the last literals or at a byte that differs. */
  ghost predicate MaximalAt(src: seq<byte>, ss: seq<Sequence>, i: nat)
    requires i < |ss|
  {
    var e := MatchEnd(ss, i);
    && e + LAST_LITERALS <= |src|
    && ss[i].offset <= e
    && (e + LAST_LITERALS == |src| || src[e] != src[e - ss[i].offset])
  }

  ghost predicate Maximal(src: seq<byte>, ss: seq<Sequence>) {
    forall i :: 0 <= i < |ss| ==> MaximalAt(src, ss, i)
  }

  /** Sequences that stand for the input up to `anchor`, each match maximal, the last one clear of the end. */
  ghost predicate Covers(src: seq<byte>, ss: seq<Sequence>, anchor: nat) {
    && WellFormed(ss)
    && anchor <= |src|
    && ExpandAll(ss) == src[..anchor]
    && Maximal(src, ss)
    && (ss != [] ==> anchor + LAST_LITERALS <= |src| && anchor - ss[|ss| - 1].MatchLen() + MF_LIMIT <= |src|)
  }

  lemma MaximalNext(src: seq<byte>, before: seq<Sequence>, s: Sequence, e: nat)
    requires Maximal(src, before)
    requires |ExpandAll(before + [s])| == e <= |src| - LAST_LITERALS && s.offset <= e
    requires e == |src| - LAST_LITERALS || src[e] != src[e - s.offset]
    ensures Maximal(src, before + [s])
  {
    var ss := before + [s];
    forall i | 0 <= i < |ss| ensures MaximalAt(src, ss, i) {
      if i < |before| {
        assert ss[..i + 1] == before[..i + 1];
        assert MaximalAt(src, before, i);
      } else {
        assert ss[..i + 1] == ss;
      }
    }
  }

  lemma CoversNext(src: seq<byte>, before: seq<Sequence>, anchor: nat, ip: nat, ref: nat, s: Sequence)
    requires anchor <= ip && IsMatch(src, ip, ref)
    requires Covers(src, before, anchor)
    requires s == Matched(src, anchor, ip, ref)
    ensures Covers(src, before + [s], ip + s.MatchLen())
  {
    var e := ip + s.MatchLen();
    MatchRepeats(src, ip, ref, s.extra);
    MatchedExpands(src, before, anchor, ip, ref, s);
    assert e - s.offset == e - (ip - ref);
    MaximalNext(src, before, s, e);
  }

  /** The main loop's variables: the sequences so far, its cursors, the table, and whether it goes on. */
  datatype State = State(ss: seq<Sequence>, anchor: nat, ip: nat, table: Table, more: bool)

  predicate Going(st: State) {
    st.more && st.anchor <= st.ip
  }

  /** One round: the next match if there is one; near the end of the input it is the last. */
  function Round(src: seq<byte>, finder: Finder, st: State): State
    requires Sound(src, finder) && Going(st)
  {
    match finder.find(st.table, st.ip)
    case NotFound(t1) => st.(table := t1, more := false)
    case Found(p, ref, t1) =>
      var s := Matched(src, st.anchor, p, ref);
      var e := p + s.MatchLen();
      if e >= |src| - MF_LIMIT then State(st.ss + [s], e, e, t1, false)
      else State(st.ss + [s], e, e, finder.enter(t1, e - 2), true)
  }

  lemma RoundAdvances(src: seq<byte>, finder: Finder, st: State)
    requires Sound(src, finder) && Going(st)
    ensures Round(src, finder, st).more ==> Going(Round(src, finder, st)) && st.ip < Round(src, finder, st).ip < |src|
  {
  }

  /** All the rounds from a state on. */
  function Rounds(src: seq<byte>, finder: Finder, st: State): State
    requires Sound(src, finder) && (st.more ==> Going(st))
    decreases st.more, |src| - st.ip
  {
    if !st.more then st
    else
      RoundAdvances(src, finder, st);
      Rounds(src, finder, Round(src, finder, st))
  }

  function Start(src: seq<byte>, finder: Finder, t: Table): State {
    if |src| < MIN_INPUT then State([], 0, 0, t, false)
    else State([], 0, 1, finder.enter(t, 0), true)
  }

  /** The sequences, where the last literals start, and the table left behind. */
  function Parse(src: seq<byte>, finder: Finder, t: Table): State
    requires Sound(src, finder)
  {
    Rounds(src, finder, Start(src, finder, t))
  }

  /** The block is the sequences and, as last literals, what they leave of the input. */
  function BlockOf(src: seq<byte>, finder: Finder, t: Table): Block
    requires Sound(src, finder)
  {
    var p := Parse(src, finder, t);
    Block(p.ss, src[Min(p.anchor, |src|)..])
  }

  /** What holds of the sequences so far and survives one more match holds of all the sequences in the end. */
  lemma {:induction false} RoundsKeep(src: seq<byte>, finder: Finder, st: State, inv: (seq<Sequence>, nat) -> bool)
    requires Sound(src, finder) && (st.more ==> Going(st)) && inv(st.ss, st.anchor)
    requires forall ss, a: nat, i: nat, ref: nat | inv(ss, a) && a <= i && IsMatch(src, i, ref) ::
               inv(ss + [Matched(src, a, i, ref)], i + Matched(src, a, i, ref).MatchLen())
    ensures var r := Rounds(src, finder, st); inv(r.ss, r.anchor)
    decreases st.more, |src| - st.ip
  {
    if st.more {
      RoundAdvances(src, finder, st);
      RoundsKeep(src, finder, Round(src, finder, st), inv);
    }
  }

  lemma ParseCovers(src: seq<byte>, finder: Finder, t: Table)
    requires Sound(src, finder)
    ensures Covers(src, Parse(src, finder, t).ss, Parse(src, finder, t).anchor)
  {
    forall ss, a: nat, i: nat, ref: nat | Covers(src, ss, a) && a <= i && IsMatch(src, i, ref)
      ensures Covers(src, ss + [Matched(src, a, i, ref)], i + Matched(src, a, i, ref).MatchLen())
    {
      CoversNext(src, ss, a, i, ref, Matched(src, a, i, ref));
    }
    RoundsKeep(src, finder, Start(src, finder, t), (ss: seq<Sequence>, a: nat) => Covers(src, ss, a));
  }

  lemma ParseAnchor(src: seq<byte>, finder: Finder, t: Table)
    requires Sound(src, finder)
    ensures Parse(src, finder, t).anchor <= |src|
  {
    ParseCovers(src, finder, t);
  }

  /** The parts of the block and their sizes. */
  lemma BlockParts(src: seq<byte>, finder: Finder, t: Table)
    requires Sound(src, finder)
    ensures var p, b := Parse(src, finder, t), BlockOf(src, finder, t);
            && p.anchor <= |src|
            && b == Block(p.ss, src[p.anchor..])
            && |Encode(b)| == |EncodeAll(p.ss)| + |EncodeRun(src[p.anchor..], 0)|
            && |Encode(b)| <= |src| + |src| / 255 + 2
  {
    ParseAnchor(src, finder, t);
    BlockSize(src, finder, t);
  }

  /**
   For every input, every sound finder and every content of the table: the block stands for exactly the input, and
   none of its
   matches could have been one byte longer.
   */
  lemma BlockExpandsToInput(src: seq<byte>, finder: Finder, t: Table)
    requires Sound(src, finder)
    ensures WellFormed(BlockOf(src, finder, t).sequences)
    ensures Expand(BlockOf(src, finder, t)) == src
    ensures Maximal(src, BlockOf(src, finder, t).sequences)
  {
    ParseCovers(src, finder, t);
    var a := Parse(src, finder, t).anchor;
    assert src[..a] + src[a..] == src;
  }

  /** Every block meets the end of block conditions, and inputs under 13 bytes hold no match. */
  lemma BlockEndConditions(src: seq<byte>, finder: Finder, t: Table)
    requires Sound(src, finder)
    ensures EndConditions(BlockOf(src, finder, t))
    ensures |src| < MIN_INPUT ==> BlockOf(src, finder, t) == Block([], src)
  {
    ParseCovers(src, finder, t);
    BlockExpandsToInput(src, finder, t);
    var ss := BlockOf(src, finder, t).sequences;
    if ss != [] {
      assert ss[..|ss|] == ss;
    }
  }

  /** The compressed size of n bytes is at most n + n / 255 + 2, whatever the table holds. */
  lemma BlockSize(src: seq<byte>, finder: Finder, t: Table)
    requires Sound(src, finder)
    ensures |Encode(BlockOf(src, finder, t))| <= |src| + |src| / 255 + 2
  {
    BlockExpandsToInput(src, finder, t);
    EncodeSize(BlockOf(src, finder, t));
  }
}
