/**
 What the compressor finds, said without its search and table functions: which positions are probed, which earlier
 position each of them meets in the table, and what block that makes of a run of equal bytes.
 */
module Lz4Search {
  import opened Bytes
  import opened Lz4Format
  import opened Lz4Parse

  // ---- positions and candidates ----

  /** The bytes a position is ahead of the one before it: one, and one more after each 64 probes. */
  function StepAt(k: nat): nat {
    if k == 0 then 1 else (63 + k) / 64
  }

  function ProbeAt(start: nat, k: nat): (p: nat)
    ensures p >= start + k
  {
    if k == 0 then start else ProbeAt(start, k - 1) + StepAt(k - 1)
  }

  /** After the first, the probes come in groups of 64 at the same distance, which grows by one each time. */
  lemma {:induction false} ProbesAre(start: nat, a: nat, b: nat)
    requires b < 64
    ensures ProbeAt(start, 1 + 64 * a + b) == start + 1 + 32 * a * (a + 1) + b * (a + 1)
    decreases a, b
  {
    if b > 0 {
      ProbesAre(start, a, b - 1);
      assert StepAt(64 * a + b) == a + 1;
      GroupMore(a, b);
    } else if a > 0 {
      ProbesAre(start, a - 1, 63);
      assert StepAt(64 * a) == a;
      GroupFull(a);
    }
  }

  lemma GroupMore(a: nat, b: nat)
    requires b > 0
    ensures b * (a + 1) == (b - 1) * (a + 1) + (a + 1)
  {
  }

  lemma GroupFull(a: nat)
    requires a > 0
    ensures 32 * a * (a + 1) == 32 * (a - 1) * a + 63 * a + a
  {
  }

  /** The hash of the four bytes at a position: the upper half of the low word of a product. */
  lemma HashIs(src: seq<byte>, i: nat)
    requires i + 4 <= |src|
    ensures Hash4(src, i) == WordAt(src, i) * 2654435761 / 65536 % 65536
  {
    LeFour(src[i..i + 4]);
    UpperHalf(WordAt(src, i) * 2654435761);
  }

  lemma LeFour(s: seq<byte>)
    requires |s| == 4
    ensures Le(s) == WordAt(s, 0)
  {
    assert Le(s) == s[0] as nat + 256 * Le(s[1..]);
    assert Le(s[1..]) == s[1] as nat + 256 * Le(s[2..]) by {
      assert s[1..][1..] == s[2..];
    }
    assert Le(s[2..]) == s[2] as nat + 256 * Le(s[3..]) by {
      assert s[2..][1..] == s[3..];
    }
    assert Le(s[3..]) == s[3] as nat by {
      assert s[3..][1..] == [];
    }
  }

  function WordAt(src: seq<byte>, i: nat): nat
    requires i + 4 <= |src|
  {
    src[i] as nat + 256 * src[i + 1] as nat + 65536 * src[i + 2] as nat + 16777216 * src[i + 3] as nat
  }

  lemma UpperHalf(x: nat)
    ensures x % 0x1_0000_0000 / 65536 == x / 65536 % 65536
  {
    var q, r := x / 0x1_0000_0000, x % 0x1_0000_0000;
    assert x == 65536 * (65536 * q + r / 65536) + r % 65536;
  }

  /** After n probes: the last of them with hash h, or what the table held before if there is none. */
  function Entered(hash: nat -> nat, t: Table, start: nat, n: nat, h: nat): nat {
    if n == 0 then if h < TABLE_SIZE then t[h] else 0
    else if hash(ProbeAt(start, n - 1)) == h then ProbeAt(start, n - 1)
    else Entered(hash, t, start, n - 1, h)
  }

  lemma {:induction false} EnteredIs(hash: nat -> nat, t: Table, start: nat, n: nat, h: nat, k: nat)
    requires h < TABLE_SIZE && k <= n && forall j :: k <= j < n ==> hash(ProbeAt(start, j)) != h
    ensures k == 0 ==> Entered(hash, t, start, n, h) == t[h]
    ensures k > 0 && hash(ProbeAt(start, k - 1)) == h ==> Entered(hash, t, start, n, h) == ProbeAt(start, k - 1)
    decreases n
  {
    if k < n {
      EnteredIs(hash, t, start, n - 1, h, k);
    }
  }

  ghost predicate EnteredUpTo(hash: nat -> nat, t: Table, start: nat, n: nat, table: Table) {
    forall h :: 0 <= h < TABLE_SIZE ==> table[h] == Entered(hash, t, start, n, h)
  }

  /** Position c is an earlier one within reach, with the same four bytes. */
  predicate Matches(src: seq<byte>, c: nat, ip: nat) {
    c < ip <= c + 65535 && ip + 4 <= |src| && src[c..c + 4] == src[ip..ip + 4]
  }

  /** Probe k meets an entry that does not match. */
  ghost predicate Misses(src: seq<byte>, hash: nat -> nat, t: Table, start: nat, k: nat) {
    var p := ProbeAt(start, k);
    p + 4 <= |src| && !Matches(src, Entered(hash, t, start, k, hash(p)), p)
  }

  /** All of the first n probes miss. */
  ghost predicate AllMissed(src: seq<byte>, hash: nat -> nat, t: Table, start: nat, n: nat) {
    n == 0 || (AllMissed(src, hash, t, start, n - 1) && Misses(src, hash, t, start, n - 1))
  }

  /** Probe n is the first that meets a match, or all before the end of the input have missed. */
  ghost predicate Searched(src: seq<byte>, hash: nat -> nat, t: Table, start: nat, n: nat, f: Found) {
    && AllMissed(src, hash, t, start, n)
    && match f
       case Found(ip, ref, table) =>
         && ip == ProbeAt(start, n) && ProbeAt(start, n + 1) + 12 <= |src| && Matches(src, ref, ip)
         && ref == Entered(hash, t, start, n, hash(ip)) && EnteredUpTo(hash, t, start, n + 1, table)
       case NotFound(table) =>
         ProbeAt(start, n + 1) + 12 > |src| && EnteredUpTo(hash, t, start, n, table)
  }

  /** The hash of each position that has four bytes. */
  function Hashes(src: seq<byte>): nat -> nat {
    (i: nat) => if i + 4 <= |src| then Hash4(src, i) else TABLE_SIZE
  }

  lemma MatchesIsUsable(src: seq<byte>, c: uint32, ip: nat)
    requires ip + 4 <= |src|
    ensures Usable(src, c, ip) <==> Matches(src, c, ip)
  {
    if c < ip {
      LeInjective(src[c..c + 4], src[ip..ip + 4]);
    }
  }

  lemma EntersNext(hash: nat -> nat, t: Table, start: nat, n: nat, table: Table, p: nat)
    requires EnteredUpTo(hash, t, start, n, table) && p == ProbeAt(start, n) < TWO32 && hash(p) < TABLE_SIZE
    ensures EnteredUpTo(hash, t, start, n + 1, table[hash(p) := p])
  {
  }

  /** One probe: its candidate, whether it will do, and the table after it. */
  lemma OneProbe(src: seq<byte>, hash: nat -> nat, t: Table, start: nat, n: nat, table: Table, p: nat, h: nat)
    requires p == ProbeAt(start, n) && p + 4 <= |src| < TWO32 && h == Hash4(src, p) == hash(p)
    requires EnteredUpTo(hash, t, start, n, table)
    ensures table[h] == Entered(hash, t, start, n, h)
    ensures Usable(src, table[h], p) <==> Matches(src, table[h], p)
    ensures EnteredUpTo(hash, t, start, n + 1, Record(src, table, p))
  {
    MatchesIsUsable(src, table[h], p);
    EntersNext(hash, t, start, n, table, p);
    RecordIs(src, table, p, h);
  }

  lemma RecordIs(src: seq<byte>, table: Table, p: nat, h: nat)
    requires p + 4 <= |src| < TWO32 && h == Hash4(src, p)
    ensures Record(src, table, p) == table[h := p]
  {
  }

  /** What the search is about to do after n probes that missed. */
  ghost predicate Searching(src: seq<byte>, hash: nat -> nat, t: Table, start: nat, n: nat, table: Table, p: nat,
      f: Found) {
    && |src| < TWO32 && EnteredUpTo(hash, t, start, n, table) && AllMissed(src, hash, t, start, n)
    && p == ProbeAt(start, n) && f == Search(src, table, p, StepAt(n), 64 + n)
  }

  ghost predicate IsHash(src: seq<byte>, hash: nat -> nat) {
    forall i: nat {:trigger hash(i)} :: i + 4 <= |src| ==> hash(i) == Hash4(src, i)
  }

  lemma SearchOn(src: seq<byte>, table: Table, p: nat, n: nat)
    requires p + StepAt(n) <= |src| - MF_LIMIT
    ensures var c := table[Hash4(src, p)];
            Search(src, table, p, StepAt(n), 64 + n)
            == if Usable(src, c, p) then Found(p, c, Record(src, table, p))
               else Search(src, Record(src, table, p), p + StepAt(n), StepAt(n + 1), 64 + (n + 1))
  {
    SearchStep(src, table, p, StepAt(n), 64 + n);
  }

  lemma ProbesOn(src: seq<byte>, hash: nat -> nat, t: Table, start: nat, n: nat, table: Table, p: nat, f: Found)
    returns (done: bool, next: Table)
    requires IsHash(src, hash) && Searching(src, hash, t, start, n, table, p, f)
    ensures done ==> Searched(src, hash, t, start, n, f)
    ensures !done ==> Searching(src, hash, t, start, n + 1, next, p + StepAt(n), f) && p < |src|
  {
    NextProbe(start, n);
    next := table;
    if p + StepAt(n) > |src| - MF_LIMIT {
      SearchStops(src, table, p, StepAt(n), 64 + n);
      NoneFound(src, hash, t, start, n, table);
      done := true;
    } else {
      var h := hash(p);
      OneProbe(src, hash, t, start, n, table, p, h);
      SearchOn(src, table, p, n);
      next := Record(src, table, p);
      done := Usable(src, table[h], p);
      ProbeEnds(src, hash, t, start, n, table[h], next);
    }
  }

  lemma ProbeEnds(src: seq<byte>, hash: nat -> nat, t: Table, start: nat, n: nat, c: nat, table: Table)
    requires AllMissed(src, hash, t, start, n) && ProbeAt(start, n + 1) + 12 <= |src|
    requires c == Entered(hash, t, start, n, hash(ProbeAt(start, n))) && EnteredUpTo(hash, t, start, n + 1, table)
    ensures Matches(src, c, ProbeAt(start, n)) ==> Searched(src, hash, t, start, n, Found(ProbeAt(start, n), c, table))
    ensures !Matches(src, c, ProbeAt(start, n)) ==> AllMissed(src, hash, t, start, n + 1)
  {
  }

  lemma {:induction false} SearchFrom(src: seq<byte>, hash: nat -> nat, t: Table, start: nat, n: nat, table: Table,
                                      p: nat, f: Found)
    returns (m: nat)
    requires IsHash(src, hash) && Searching(src, hash, t, start, n, table, p, f)
    ensures Searched(src, hash, t, start, m, f)
    decreases |src| - p
  {
    var done, next := ProbesOn(src, hash, t, start, n, table, p, f);
    if done {
      m := n;
    } else {
      m := SearchFrom(src, hash, t, start, n + 1, next, p + StepAt(n), f);
    }
  }

  lemma NoneFound(src: seq<byte>, hash: nat -> nat, t: Table, start: nat, n: nat, table: Table)
    requires AllMissed(src, hash, t, start, n)
    requires ProbeAt(start, n + 1) + 12 > |src| && EnteredUpTo(hash, t, start, n, table)
    ensures Searched(src, hash, t, start, n, NotFound(table))
  {
  }

  lemma SearchStops(src: seq<byte>, t: Table, ip: nat, step: nat, limit: nat)
    requires step >= 1 && limit >= 64 && ip + step > |src| - MF_LIMIT
    ensures Search(src, t, ip, step, limit) == NotFound(t)
  {
  }

  lemma NextProbe(start: nat, n: nat)
    ensures ProbeAt(start, n + 1) == ProbeAt(start, n) + StepAt(n) && StepAt(n) >= 1 && StepAt(n + 1) == (64 + n) / 64
  {
  }

  lemma SearchStep(src: seq<byte>, t: Table, ip: nat, step: nat, limit: nat)
    requires step >= 1 && limit >= 64 && ip + step <= |src| - MF_LIMIT
    ensures var c := t[Hash4(src, ip)];
            Search(src, t, ip, step, limit)
            == if Usable(src, c, ip) then Found(ip, c, Record(src, t, ip))
               else Search(src, Record(src, t, ip), ip + step, limit / 64, limit + 1)
  {
  }

  /** The search probes these positions in this order and takes the first that meets a match. */
  lemma SearchExact(src: seq<byte>, t: Table, start: nat) returns (n: nat)
    requires |src| < TWO32
    ensures Searched(src, Hashes(src), t, start, n, HashFinder(src).find(t, start))
  {
    n := SearchFrom(src, Hashes(src), t, start, 0, t, start, Search(src, t, start, 1, 64));
  }

  // ---- rounds ----

  /** A match that reaches to the last five bytes or to the first byte that differs. */
  ghost predicate Longest(src: seq<byte>, p: nat, ref: nat, len: nat) {
    && ref < p && p + len + 5 <= |src| && src[p..p + len] == src[ref..ref + len]
    && (p + len + 5 == |src| || src[p + len] != src[ref + len])
  }

  /** One round's end: the match made as long as it can be, and the position two before its end entered. */
  ghost predicate Appended(src: seq<byte>, st: State, p: nat, ref: nat, table: Table, next: State) {
    && st.anchor <= p && next.anchor == next.ip > p + 3 && Longest(src, p, ref, next.ip - p) && p - ref <= 65535
    && next.ss == st.ss + [Sequence(src[st.anchor..p], p - ref, next.ip - p - 4)]
    && (next.more <==> next.ip + 12 < |src|)
    && (next.more ==> next.ip < TWO32 && next.table == table[Hash4(src, next.ip - 2) := next.ip - 2])
    && (!next.more ==> next.table == table)
  }

  lemma AppendExact(src: seq<byte>, st: State, p: nat, ref: nat, table: Table, next: State)
    requires |src| < TWO32 && Going(st)
    requires HashFinder(src).find(st.table, st.ip) == Found(p, ref, table) && next == Round(src, HashFinder(src), st)
    ensures Appended(src, st, p, ref, table, next)
  {
    RoundIs(src, HashFinder(src), st, p, ref, table);
    MatchIsLongest(src, st.anchor, p, ref);
    if next.more {
      RecordIs(src, table, next.ip - 2, Hash4(src, next.ip - 2));
    }
  }

  lemma MatchIsLongest(src: seq<byte>, anchor: nat, p: nat, ref: nat)
    requires anchor <= p && IsMatch(src, p, ref)
    ensures var s := Matched(src, anchor, p, ref);
            && s == Sequence(src[anchor..p], p - ref, s.MatchLen() - 4) && s.MatchLen() >= 4
            && Longest(src, p, ref, s.MatchLen())
  {
    MatchRepeats(src, p, ref, CommonLen(src, p + MIN_MATCH, ref + MIN_MATCH, |src| - LAST_LITERALS));
  }

  lemma RoundIs(src: seq<byte>, finder: Finder, st: State, p: nat, ref: nat, table: Table)
    requires Sound(src, finder) && Going(st) && finder.find(st.table, st.ip) == Found(p, ref, table)
    ensures st.anchor <= p && IsMatch(src, p, ref)
    ensures var s := Matched(src, st.anchor, p, ref);
            var e := p + s.MatchLen();
            Round(src, finder, st)
            == State(st.ss + [s], e, e, if e < |src| - MF_LIMIT then finder.enter(table, e - 2) else table,
                     e < |src| - MF_LIMIT)
  {
  }

  /** One round: what the search finds is appended, and if it finds nothing the round is the last. */
  lemma RoundExact(src: seq<byte>, st: State) returns (n: nat, f: Found)
    requires |src| < TWO32 && Going(st)
    ensures Searched(src, Hashes(src), st.table, st.ip, n, f)
    ensures var next := Round(src, HashFinder(src), st);
            match f
            case NotFound(table) => next == State(st.ss, st.anchor, st.ip, table, false)
            case Found(p, ref, table) => Appended(src, st, p, ref, table, next)
  {
    f := HashFinder(src).find(st.table, st.ip);
    n := SearchExact(src, st.table, st.ip);
    if f.Found? {
      AppendExact(src, st, f.ip, f.ref, f.table, Round(src, HashFinder(src), st));
    }
  }

  /**
   The rounds start behind the first byte, which is entered, if there are 13 bytes, and go on until one is the last.
   */
  lemma ParseRuns(src: seq<byte>, t: Table)
    ensures var st := Start(src, HashFinder(src), t);
            && (|src| < 13 ==> Parse(src, HashFinder(src), t) == State([], 0, 0, t, false))
            && (|src| >= 13 ==> st == State([], 0, 1, t[Hash4(src, 0) := 0], true)
                                && Parse(src, HashFinder(src), t) == Rounds(src, HashFinder(src), st))
            && !Parse(src, HashFinder(src), t).more
  {
    RoundsEnd(src, HashFinder(src), Start(src, HashFinder(src), t));
  }

  lemma {:induction false} RoundsEnd(src: seq<byte>, finder: Finder, st: State)
    requires Sound(src, finder) && (st.more ==> Going(st))
    ensures !Rounds(src, finder, st).more
    ensures st.more ==> Rounds(src, finder, st) == Rounds(src, finder, Round(src, finder, st))
    ensures !st.more ==> Rounds(src, finder, st) == st
    decreases st.more, |src| - st.ip
  {
    if st.more {
      RoundAdvances(src, finder, st);
      RoundsEnd(src, finder, Round(src, finder, st));
    }
  }

  // ---- a run of equal bytes ----

  function Repeated(b: byte, n: nat): (s: seq<byte>)
    ensures |s| == n && forall i :: 0 <= i < n ==> s[i] == b
  {
    seq(n, _ => b)
  }

  lemma RepeatedSlice(b: byte, n: nat, i: nat, j: nat)
    requires i <= j <= n
    ensures Repeated(b, n)[i..j] == Repeated(b, j - i)
  {
  }

  /** The one match of a run: its second byte against its first, up to the last five. */
  lemma RunRound(b: byte, n: nat, t: Table)
    requires 14 <= n < TWO32
    ensures var src := Repeated(b, n);
            Parse(src, HashFinder(src), t).ss == [Sequence([b], 1, n - 10)]
            && Parse(src, HashFinder(src), t).anchor == n - 5
  {
    var src := Repeated(b, n);
    var st := Start(src, HashFinder(src), t);
    ParseRuns(src, t);
    RepeatedSlice(b, n, 0, 4);
    RepeatedSlice(b, n, 1, 5);
    assert Hash4(src, 1) == Hash4(src, 0);
    MatchesIsUsable(src, 0, 1);
    assert st.table[Hash4(src, 1)] == 0 && Usable(src, 0, 1);
    assert HashFinder(src).find(st.table, 1) == Found(1, 0, Record(src, st.table, 1));
    CommonLenExact(src, 5, 4, n - 5);
    var k := CommonLen(src, 5, 4, n - 5);
    assert k == n - 10;
    RepeatedSlice(b, n, 0, 1);
    assert Repeated(b, 1) == [b];
    RoundsEnd(src, HashFinder(src), st);
    RoundsEnd(src, HashFinder(src), Round(src, HashFinder(src), st));
  }

  /** Whatever the table holds, a run of 14 or more equal bytes becomes these bytes, about one for each 255 of it. */
  lemma RunOfBytes(b: byte, n: nat, t: Table)
    requires 14 <= n < TWO32
    ensures var src := Repeated(b, n);
            var e := Encode(BlockOf(src, HashFinder(src), t));
            && e == [if n < 25 then n + 6 else 31, b, 1, 0] + LenBytes(n - 10) + [80, b, b, b, b, b]
            && |e| <= n / 255 + 11
  {
    RunRound(b, n, t);
    RepeatedSlice(b, n, n - 5, n);
    assert Repeated(b, 5) == [b, b, b, b, b];
    RunBlock(b, n, BlockOf(Repeated(b, n), HashFinder(Repeated(b, n)), t));
  }

  lemma RunBlock(b: byte, n: nat, block: Block)
    requires n >= 14 && block == Block([Sequence([b], 1, n - 10)], [b, b, b, b, b])
    ensures Encode(block) == [if n < 25 then n + 6 else 31, b, 1, 0] + LenBytes(n - 10) + [80, b, b, b, b, b]
    ensures |Encode(block)| <= n / 255 + 11
  {
    RunBytes(b, block.sequences[0]);
    LenSize(n - 10);
  }

  lemma RunBytes(b: byte, s: Sequence)
    requires s.literals == [b] && s.offset == 1
    ensures EncodeAll([s]) == [16 + Nibble(s.extra), b, 1, 0] + LenBytes(s.extra)
    ensures EncodeRun([b, b, b, b, b], 0) == [80, b, b, b, b, b]
  {
    EncodeSnoc([], s);
    assert [] + [s] == [s];
    assert EncodeRun([b], Nibble(s.extra)) == [16 + Nibble(s.extra)] + [] + [b];
    assert [] + EncodeSequence(s) == EncodeSequence(s);
    assert EncodeRun([b, b, b, b, b], 0) == [80] + [] + [b, b, b, b, b];
  }
}
