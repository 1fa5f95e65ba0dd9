/**
 The instruction cache: 16384 sets of four ways changed in place, which owns the decoded instructions put into it.
 */
module DisasmCache {
  import opened Bytes
  import opened DisasmModel

  const SET_BITS: nat := 14
  const NUM_SETS: nat := 16384

  function Pow2(bits: nat): nat {
    if bits == 0 then 1 else 2 * Pow2(bits - 1)
  }

  /** The low bits of an exclusive or. */
  function XorLow(a: nat, b: nat, bits: nat): (r: nat)
    ensures r < Pow2(bits)
  {
    if bits == 0 then 0
    else 2 * XorLow(a / 2, b / 2, bits - 1) + if a % 2 != b % 2 then 1 else 0
  }

  /** hashAddr: the address without its two low bits, its halves mixed. */
  function HashAddr(addr: uint64): (h: nat)
    ensures h < NUM_SETS
  {
    assert Pow2(SET_BITS) == NUM_SETS;
    XorLow(addr / 4, addr / 4 / 65536, SET_BITS)
  }

  lemma HalfOf(a: nat, low: nat, bits: nat)
    requires bits > 0
    ensures var v := a * Pow2(bits) + low; v / 2 == a * Pow2(bits - 1) + low / 2 && v % 2 == low % 2
  {
    DoubleOf(a, Pow2(bits - 1));
  }

  lemma DoubleOf(a: nat, p: nat)
    ensures a * (2 * p) == 2 * (a * p)
  {
  }

  /** Numbers that agree but for their low bits are told apart by these, whatever they are mixed with. */
  lemma {:induction false} XorTells(m: nat, x: nat, y: nat, a: nat, b: nat, c: nat, bits: nat)
    requires x < Pow2(bits) && y < Pow2(bits) && a == m * Pow2(bits) + x && b == m * Pow2(bits) + y
    requires XorLow(a, c, bits) == XorLow(b, c, bits)
    ensures x == y
    decreases bits
  {
    if bits > 0 {
      HalfOf(m, x, bits);
      HalfOf(m, y, bits);
      XorStep(a, b, c, bits);
      XorTells(m, x / 2, y / 2, a / 2, b / 2, c / 2, bits - 1);
    }
  }

  lemma XorStep(a: nat, b: nat, c: nat, bits: nat)
    requires bits > 0 && XorLow(a, c, bits) == XorLow(b, c, bits)
    ensures a % 2 == b % 2 && XorLow(a / 2, c / 2, bits - 1) == XorLow(b / 2, c / 2, bits - 1)
  {
  }

  /** No two instructions of one 64 KB block of addresses share a set. */
  lemma HashApart(a: uint64, b: uint64)
    requires a % 4 == 0 && b % 4 == 0 && a / 65536 == b / 65536 && HashAddr(a) == HashAddr(b)
    ensures a == b
  {
    var m := a / 65536;
    BlockQuarter(a, m);
    BlockQuarter(b, m);
    HashInBlock(m, a % 65536 / 4, b % 65536 / 4, m / 4, SET_BITS);
  }

  lemma BlockQuarter(a: nat, m: nat)
    requires m == a / 65536
    ensures a / 4 == m * 16384 + a % 65536 / 4 && a / 4 / 65536 == m / 4 && a % 65536 / 4 < 16384
  {
  }

  lemma HashInBlock(m: nat, x: nat, y: nat, c: nat, bits: nat)
    requires bits == SET_BITS && x < 16384 && y < 16384
    requires XorLow(m * 16384 + x, c, bits) == XorLow(m * 16384 + y, c, bits)
    ensures x == y
  {
    assert Pow2(SET_BITS) == 16384;
    XorTells(m, x, y, m * 16384 + x, m * 16384 + y, c, bits);
  }

  // ---- all sets on values ----

  function Total(lines: seq<Line>): multiset<Insn> {
    if lines == [] then multiset{} else Owned(lines[0]) + Total(lines[1..])
  }

  lemma SumOneMore(a: multiset<Insn>, b: multiset<Insn>, c: multiset<Insn>, d: multiset<Insn>, e: multiset<Insn>)
    requires b + c == d + e
    ensures (a + b) + c == (a + d) + e
  {
    assert (a + b) + c == a + (b + c);
    assert (a + d) + e == a + (d + e);
  }

  lemma SumSwap(a: multiset<Insn>, b: multiset<Insn>, c: multiset<Insn>)
    ensures (a + b) + c == (c + b) + a
  {
  }

  lemma SumCancels(total: multiset<Insn>, total2: multiset<Insn>, line: multiset<Insn>, line2: multiset<Insn>,
                   freed: multiset<Insn>, freed2: multiset<Insn>, added: multiset<Insn>)
    requires total2 + line == total + line2 && line2 + freed2 == line + freed + added
    ensures total2 + freed2 == total + freed + added
  {
    forall x: Insn ensures (total2 + freed2)[x] == (total + freed + added)[x] {
      assert (total2 + line)[x] == (total + line2)[x];
      assert (line2 + freed2)[x] == (line + freed + added)[x];
    }
  }

  lemma {:induction false} TotalUpdate(lines: seq<Line>, s: nat, line: Line)
    requires s < |lines|
    ensures Total(lines[s := line]) + Owned(lines[s]) == Total(lines) + Owned(line)
  {
    var next, rest := lines[s := line], lines[1..];
    if s == 0 {
      assert next[1..] == rest;
      SumSwap(Owned(line), Total(rest), Owned(lines[0]));
    } else {
      TotalUpdate(rest, s - 1, line);
      assert next[1..] == rest[s - 1 := line] && rest[s - 1] == lines[s];
      assert Total(next) == Owned(lines[0]) + Total(rest[s - 1 := line]);
      SumOneMore(Owned(lines[0]), Total(rest[s - 1 := line]), Owned(lines[s]), Total(rest), Owned(line));
    }
  }

  /** The balance of all sets after a change to one of them. */
  lemma Balance(lines: seq<Line>, h: nat, line: Line, freed: multiset<Insn>, freed2: multiset<Insn>,
                handed: multiset<Insn>, added: multiset<Insn>)
    requires h < |lines| && Total(lines) + freed == handed
    requires Owned(line) + freed2 == Owned(lines[h]) + freed + added
    ensures Total(lines[h := line]) + freed2 == handed + added
  {
    TotalUpdate(lines, h, line);
    SumCancels(Total(lines), Total(lines[h := line]), Owned(lines[h]), Owned(line), freed, freed2, added);
  }

  lemma OwnedHolds(line: Line, w: nat)
    requires w < WAYS && line[w].insn.Some?
    ensures line[w].insn.value in Owned(line)
  {
    assert line[w].insn.value in One(line[w]);
  }

  lemma {:induction false} TotalHolds(lines: seq<Line>, s: nat, w: nat)
    requires s < |lines| && w < WAYS && lines[s][w].insn.Some?
    ensures lines[s][w].insn.value in Total(lines)
  {
    if s == 0 {
      OwnedHolds(lines[0], w);
    } else {
      var rest := lines[1..];
      TotalHolds(rest, s - 1, w);
      assert rest[s - 1] == lines[s] && Total(lines) == Owned(lines[0]) + Total(rest);
    }
  }

  predicate AllEmpty(lines: seq<Line>) {
    forall s :: 0 <= s < |lines| ==> lines[s] == EMPTY_LINE
  }

  lemma {:induction false} TotalEmpty(lines: seq<Line>)
    requires AllEmpty(lines)
    ensures Total(lines) == multiset{}
  {
    if lines != [] {
      TotalEmpty(lines[1..]);
    }
  }

  /** The register lists kept with an entry are the first eight of its instruction's. */
  predicate Listed(regs: RegAccess, insn: Insn) {
    && regs.readCount == Min(|insn.readRegs|, MAX_REGS) && regs.readRegs[..regs.readCount] == First8(insn.readRegs)
    && regs.writeCount == Min(|insn.writeRegs|, MAX_REGS) && regs.writeRegs[..regs.writeCount] == First8(insn.writeRegs)
  }

  function First8(s: seq<nat>): (r: seq<nat>)
    ensures |r| == (if |s| > 8 then 8 else |s|) && r == s[..|r|]
  {
    FirstOf(s, MAX_REGS)
  }

  predicate EntryOk(e: Entry, s: nat) {
    e.insn.Some? ==> e.addr < TWO64 && HashAddr(e.addr) == s && (e.cached ==> Listed(e.regs, e.insn.value))
  }

  /** Set s: in order, each entry where its address hashes to, with the right register lists. */
  predicate SetOk(line: Line, s: nat) {
    LineOk(line) && forall i :: 0 <= i < WAYS ==> EntryOk(line[i], s)
  }

  lemma LookupKeepsSet(line: Line, s: nat, addr: nat)
    requires SetOk(line, s)
    ensures SetOk(Lookup(line, addr), s)
    ensures Find(line, addr) < WAYS ==> Has(Lookup(line, addr)[0], addr)
  {
    var w := Find(line, addr);
    if w < WAYS {
      PromoteKeepsOk(line, w);
      PromoteWays(line, w);
    }
  }

  lemma InsertKeepsSet(line: Line, addr: uint64, insn: Insn)
    requires SetOk(line, HashAddr(addr)) && Find(line, addr) == WAYS && insn.addr == addr
    ensures SetOk(Insert(line, addr, insn), HashAddr(addr))
  {
    InsertKeepsOk(line, insn);
  }

  lemma TrimKeepsSet(line: Line, s: nat)
    requires SetOk(line, s)
    ensures SetOk(Trim(line), s)
  {
    TrimKeepsOk(line);
  }

  lemma EmptySetOk(s: nat)
    ensures SetOk(EMPTY_LINE, s) && Owned(EMPTY_LINE) == multiset{}
  {
  }

  /** Every instruction handed over is in exactly one slot, or has been freed exactly once. */
  ghost predicate Sound(lines: seq<Line>, freed: seq<Insn>, handed: multiset<Insn>) {
    && |lines| == NUM_SETS
    && (forall s :: 0 <= s < NUM_SETS ==> SetOk(lines[s], s))
    && Total(lines) + multiset(freed) == handed
    && (forall i :: handed[i] <= 1)
  }

  /** One set changes: all is sound if that set is and what comes in and what goes out balance. */
  lemma SoundNext(lines: seq<Line>, freed: seq<Insn>, handed: multiset<Insn>, h: nat, line: Line, freed2: seq<Insn>,
                  added: multiset<Insn>)
    requires Sound(lines, freed, handed) && h < NUM_SETS && SetOk(line, h)
    requires Owned(line) + multiset(freed2) == Owned(lines[h]) + multiset(freed) + added
    requires forall i :: handed[i] + added[i] <= 1
    ensures Sound(lines[h := line], freed2, handed + added)
  {
    Balance(lines, h, line, multiset(freed), multiset(freed2), handed, added);
  }

  /** What has been freed once the ways from lo up to hi of a set are gone too. */
  function FreedWith(freed: seq<Insn>, line: Line, lo: nat, hi: nat): seq<Insn>
    requires lo <= hi <= WAYS
  {
    if lo == hi then freed
    else FreedWith(freed, line, lo, hi - 1) + if line[hi - 1].insn.Some? then [line[hi - 1].insn.value] else []
  }

  lemma FreedOne(freed: seq<Insn>, line: Line, lo: nat, hi: nat)
    requires lo < hi <= WAYS
    ensures multiset(FreedWith(freed, line, lo, hi)) == multiset(FreedWith(freed, line, lo, hi - 1)) + One(line[hi - 1])
  {
  }

  lemma FreedCold(freed: seq<Insn>, line: Line)
    ensures multiset(FreedWith(freed, line, 2, WAYS)) == multiset(freed) + One(line[2]) + One(line[3])
  {
    FreedOne(freed, line, 2, 3);
    FreedOne(freed, line, 2, 4);
  }

  lemma FreedEvery(freed: seq<Insn>, line: Line)
    ensures multiset(FreedWith(freed, line, 0, WAYS)) == multiset(freed) + Owned(line)
  {
    FreedOne(freed, line, 0, 1);
    FreedOne(freed, line, 0, 2);
    FreedOne(freed, line, 0, 3);
    FreedOne(freed, line, 0, 4);
    SumFour(multiset(freed), One(line[0]), One(line[1]), One(line[2]), One(line[3]));
  }

  lemma SumFour(f: multiset<Insn>, a: multiset<Insn>, b: multiset<Insn>, c: multiset<Insn>, d: multiset<Insn>)
    ensures f + a + b + c + d == f + (a + b + c + d)
  {
  }

  /** The first way holds this instruction under this address. */
  predicate FirstIs(line: Line, addr: nat, insn: Insn) {
    line[0].addr == addr && line[0].insn == Some(insn)
  }

  function TrimAll(lines: seq<Line>): seq<Line> {
    seq(|lines|, s requires 0 <= s < |lines| => Trim(lines[s]))
  }

  /** The same instructions in the same ways. */
  predicate SameInsns(a: Line, b: Line) {
    forall w :: 0 <= w < WAYS ==> a[w].addr == b[w].addr && a[w].insn == b[w].insn
  }

  function WithRegs(line: Line, regs: RegAccess): Line {
    [line[0].(regs := regs, cached := true), line[1], line[2], line[3]]
  }

  lemma WithRegsSame(line: Line, regs: RegAccess)
    ensures SameInsns(WithRegs(line, regs), line)
  {
  }

  /** Lists kept with the first entry give what decoding its instruction again would. */
  lemma KeptIsListed(line: Line, h: nat, insn: Insn)
    requires SetOk(line, h) && line[0].insn == Some(insn)
    ensures var regs := line[0].regs;
            line[0].cached ==> regs.readRegs[..Min(regs.readCount, MAX_REGS)] == First8(insn.readRegs)
                               && regs.writeRegs[..Min(regs.writeCount, MAX_REGS)] == First8(insn.writeRegs)
  {
    assert EntryOk(line[0], h);
  }

  /** The cache. `freed` is what it has freed, in order; `handed` is what it was ever given. */
  class DisasmCache {
    const sets: array<Line>
    var freed: seq<Insn>
    ghost var handed: multiset<Insn>

    ghost predicate Valid()
      reads this, sets
    {
      Sound(sets[..], freed, handed)
    }

    constructor ()
      ensures Valid() && fresh(sets) && freed == [] && handed == multiset{}
      ensures AllEmpty(sets[..])
    {
      sets := new Line[NUM_SETS](_ => EMPTY_LINE);
      freed, handed := [], multiset{};
      new;
      forall s | 0 <= s < NUM_SETS ensures SetOk(sets[s], s) {
        EmptySetOk(s);
      }
      TotalEmpty(sets[..]);
    }

    /** An entry comes to the front of its set. */
    method MoveToFront(h: nat, w: nat)
      requires sets.Length == NUM_SETS && h < NUM_SETS && w < WAYS
      modifies sets
      ensures sets[..] == old(sets[..])[h := Promote(old(sets[h]), w)]
    {
      ghost var v := sets[..];
      var tmp := sets[h][w];
      var j := w;
      while j > 0
        invariant j <= w
        invariant sets[..] == v[h := sets[h]]
        invariant forall i :: 0 <= i < WAYS && !(j < i <= w) ==> sets[h][i] == v[h][i]
        invariant forall i :: j < i <= w ==> sets[h][i] == v[h][i - 1]
      {
        sets[h] := sets[h][j := sets[h][j - 1]];
        j := j - 1;
      }
      sets[h] := sets[h][0 := tmp];
      PromoteWays(v[h], w);
      assert sets[h] == Promote(v[h], w);
    }

    /** A hit in way w. */
    method Hit(h: nat, w: nat, addr: uint64)
      requires Valid() && h == HashAddr(addr) && w < WAYS && Find(sets[h], addr) == w
      modifies sets
      ensures Valid() && sets[..] == old(sets[..])[h := Lookup(old(sets[h]), addr)]
    {
      ghost var v := sets[..];
      LookupKeepsSet(v[h], h, addr);
      LookupOwns(v[h], addr);
      MoveToFront(h, w);
      SoundNext(v, freed, handed, h, Lookup(v[h], addr), freed, multiset{});
    }

    /** get: the instruction of this address and no other's, brought to the front; or nothing, and nothing moves. */
    method Get(addr: uint64) returns (r: Option<Insn>)
      requires Valid()
      modifies sets
      ensures Valid()
      ensures sets[..] == old(sets[..])[HashAddr(addr) := Lookup(old(sets[HashAddr(addr)]), addr)]
      ensures r.Some? <==> Find(old(sets[HashAddr(addr)]), addr) < WAYS
      ensures r.Some? ==> r.value.addr == addr && FirstIs(sets[HashAddr(addr)], addr, r.value)
    {
      var h := HashAddr(addr);
      ghost var line := sets[h];
      LookupKeepsSet(line, h, addr);
      assert SetOk(line, h);
      if sets[h][0].addr == addr && sets[h][0].insn.Some? {
        assert Has(line[0], addr) && Promote(line, 0) == line;
        return sets[h][0].insn;
      }
      var w := 1;
      while w < WAYS
        invariant 1 <= w <= WAYS
        invariant forall i :: 0 <= i < w ==> !Has(line[i], addr)
      {
        if sets[h][w].addr == addr && sets[h][w].insn.Some? {
          assert Has(line[w], addr) && Find(line, addr) == w;
          Hit(h, w, addr);
          assert SetOk(sets[h], h);
          return sets[h][0].insn;
        }
        w := w + 1;
      }
      return None;
    }

    /** The ways move back by one, the last one's entry is lost. */
    method MoveBack(h: nat)
      requires sets.Length == NUM_SETS && h < NUM_SETS
      modifies sets
      ensures sets[..] == old(sets[..])[h := [old(sets[h][0])] + old(sets[h])[..WAYS - 1]]
    {
      ghost var v, line := sets[..], sets[h];
      var j := WAYS - 1;
      while j > 0
        invariant 0 <= j < WAYS
        invariant sets[..] == v[h := sets[h]]
        invariant forall i :: 0 <= i < WAYS && !(j < i) ==> sets[h][i] == v[h][i]
        invariant forall i :: j < i < WAYS ==> sets[h][i] == v[h][i - 1]
      {
        sets[h] := sets[h][j := sets[h][j - 1]];
        j := j - 1;
      }
      assert sets[h] == [line[0]] + line[..WAYS - 1];
    }

    /** The in-place part of put. */
    method PutSet(h: nat, addr: uint64, insn: Insn)
      requires sets.Length == NUM_SETS && h < NUM_SETS
      modifies this`freed, sets
      ensures sets[..] == old(sets[..])[h := Insert(old(sets[h]), addr, insn)]
      ensures multiset(freed) == multiset(old(freed)) + One(old(sets[h])[WAYS - 1])
    {
      ghost var v := sets[..];
      if sets[h][WAYS - 1].insn.Some? {
        freed := freed + [sets[h][WAYS - 1].insn.value];
      }
      MoveBack(h);
      sets[h] := sets[h][0 := sets[h][0].(addr := addr, insn := Some(insn), cached := false)];
      assert sets[h] == Insert(v[h], addr, insn);
    }

    /** put: the instruction becomes the first of its set, and the one in the last way, if any, is freed. */
    method Put(addr: uint64, insn: Insn)
      requires Valid() && insn !in handed && insn.addr == addr
      requires Find(sets[HashAddr(addr)], addr) == WAYS
      modifies this, sets
      ensures Valid() && handed == old(handed) + multiset{insn}
      ensures sets[..] == old(sets[..])[HashAddr(addr) := Insert(old(sets[HashAddr(addr)]), addr, insn)]
      ensures multiset(freed) == multiset(old(freed)) + One(old(sets[HashAddr(addr)])[WAYS - 1])
    {
      var h := HashAddr(addr);
      ghost var v, was := sets[..], freed;
      InsertKeepsSet(v[h], addr, insn);
      InsertOwns(v[h], addr, insn);
      PutSet(h, addr, insn);
      handed := handed + multiset{insn};
      SoundNext(v, was, old(handed), h, Insert(v[h], addr, insn), freed, multiset{insn});
    }

    /** The in-place part of trimCold for one set: ways 2 and 3 are freed and emptied. */
    method FreeCold(h: nat)
      requires sets.Length == NUM_SETS && h < NUM_SETS
      modifies this`freed, sets
      ensures sets[..] == old(sets[..])[h := Trim(old(sets[h]))]
      ensures freed == FreedWith(old(freed), old(sets[h]), 2, WAYS)
    {
      ghost var v, line, was := sets[..], sets[h], freed;
      var w := 2;
      while w < WAYS
        invariant 2 <= w <= WAYS
        invariant sets[..] == v[h := sets[h]]
        invariant forall i :: 0 <= i < WAYS && !(2 <= i < w) ==> sets[h][i] == v[h][i]
        invariant forall i :: 2 <= i < w ==> sets[h][i] == if line[i].insn.Some? then EMPTY else line[i]
        invariant freed == FreedWith(was, line, 2, w)
      {
        assert sets[h][w] == line[w];
        if sets[h][w].insn.Some? {
          freed := freed + [sets[h][w].insn.value];
          sets[h] := sets[h][w := EMPTY];
        }
        w := w + 1;
      }
      assert sets[h] == Trim(line);
    }

    method TrimSet(h: nat)
      requires Valid() && h < NUM_SETS
      modifies this`freed, sets
      ensures Valid() && sets[..] == old(sets[..])[h := Trim(old(sets[h]))]
    {
      ghost var v, was := sets[..], freed;
      assert SetOk(v[h], h);
      TrimKeepsSet(v[h], h);
      TrimOwns(v[h]);
      FreedCold(freed, v[h]);
      FreeCold(h);
      SoundNext(v, was, handed, h, Trim(v[h]), freed, multiset{});
    }

    /** trimCold: the colder half of every set is freed; ways 0 and 1 stay as they are. */
    method TrimCold()
      requires Valid()
      modifies this`freed, sets
      ensures Valid() && sets[..] == TrimAll(old(sets[..]))
    {
      var s := 0;
      while s < NUM_SETS
        invariant 0 <= s <= NUM_SETS && Valid()
        invariant forall t :: 0 <= t < s ==> sets[..][t] == Trim(old(sets[..])[t])
        invariant forall t :: s <= t < NUM_SETS ==> sets[..][t] == old(sets[..])[t]
      {
        TrimSet(s);
        s := s + 1;
      }
    }

    /** The in-place part of clear for one set. */
    method FreeAll(h: nat)
      requires sets.Length == NUM_SETS && h < NUM_SETS
      modifies this`freed, sets
      ensures sets[..] == old(sets[..])[h := EMPTY_LINE]
      ensures freed == FreedWith(old(freed), old(sets[h]), 0, WAYS)
    {
      ghost var v, line, was := sets[..], sets[h], freed;
      var w := 0;
      while w < WAYS
        invariant w <= WAYS
        invariant sets[..] == v[h := sets[h]]
        invariant forall i :: 0 <= i < WAYS && !(i < w) ==> sets[h][i] == v[h][i]
        invariant forall i :: 0 <= i < w ==> sets[h][i] == EMPTY
        invariant freed == FreedWith(was, line, 0, w)
      {
        assert sets[h][w] == line[w];
        if sets[h][w].insn.Some? {
          freed := freed + [sets[h][w].insn.value];
        }
        sets[h] := sets[h][w := EMPTY];
        w := w + 1;
      }
      assert sets[h] == EMPTY_LINE;
    }

    method ClearSet(h: nat)
      requires Valid() && h < NUM_SETS
      modifies this`freed, sets
      ensures Valid() && sets[..] == old(sets[..])[h := EMPTY_LINE]
    {
      ghost var v, was := sets[..], freed;
      EmptySetOk(h);
      FreedEvery(freed, v[h]);
      FreeAll(h);
      SoundNext(v, was, handed, h, EMPTY_LINE, freed, multiset{});
    }

    /** clear: every set is emptied, and everything ever handed over has now been freed, each once. */
    method Clear()
      requires Valid()
      modifies this`freed, sets
      ensures Valid() && AllEmpty(sets[..])
      ensures multiset(freed) == handed && forall i :: i in handed ==> i in freed
    {
      var s := 0;
      while s < NUM_SETS
        invariant 0 <= s <= NUM_SETS && Valid()
        invariant forall t :: 0 <= t < s ==> sets[t] == EMPTY_LINE
      {
        ClearSet(s);
        s := s + 1;
      }
      TotalEmpty(sets[..]);
    }

    /** getRegAccess */
    method GetRegAccess(addr: uint64) returns (r: Option<RegAccess>)
      requires sets.Length == NUM_SETS
      ensures var e := sets[HashAddr(addr)][0]; r == if e.addr == addr && e.cached then Some(e.regs) else None
    {
      var h := HashAddr(addr);
      if sets[h][0].addr == addr && sets[h][0].cached {
        return Some(sets[h][0].regs);
      }
      return None;
    }

    /**
     putRegAccess: the first eight registers of each list are kept beside the first entry if it is this address's,
     and nothing else changes.
     */
    method PutRegAccess(addr: uint64, insn: Insn) returns (regs: RegAccess)
      requires Valid() && FirstIs(sets[HashAddr(addr)], addr, insn)
      modifies sets
      ensures Valid() && Listed(regs, insn)
      ensures sets[..] == old(sets[..])[HashAddr(addr) := WithRegs(old(sets[HashAddr(addr)]), regs)]
    {
      var h := HashAddr(addr);
      ghost var v := sets[..];
      regs := ListRegs(sets[h][0].regs, insn);
      if sets[h][0].addr == addr {
        ListingKeepsSet(v[h], h, insn, regs);
        SoundNext(v, freed, handed, h, WithRegs(v[h], regs), freed, multiset{});
        sets[h] := sets[h][0 := sets[h][0].(regs := regs, cached := true)];
        assert sets[h] == WithRegs(v[h], regs);
      }
    }

    /**
     visitImpl's registers: kept ones if there are any, else decoded ones, which are then kept. Either way what is
     printed is the first eight of each list of this instruction.
     */
    method Visit(insn: Insn, addr: uint64) returns (readRegs: seq<nat>, writeRegs: seq<nat>)
      requires Valid() && FirstIs(sets[HashAddr(addr)], addr, insn)
      modifies sets
      ensures Valid() && sets[..] == old(sets[..])[HashAddr(addr) := sets[HashAddr(addr)]]
      ensures SameInsns(sets[HashAddr(addr)], old(sets[HashAddr(addr)]))
      ensures readRegs == First8(insn.readRegs) && writeRegs == First8(insn.writeRegs)
    {
      var h := HashAddr(addr);
      ghost var line := sets[h];
      KeptIsListed(line, h, insn);
      var kept := GetRegAccess(addr);
      if kept.Some? {
        var n, m := Min(kept.value.readCount, MAX_REGS), Min(kept.value.writeCount, MAX_REGS);
        readRegs, writeRegs := kept.value.readRegs[..n], kept.value.writeRegs[..m];
      } else {
        var regs := PutRegAccess(addr, insn);
        WithRegsSame(line, regs);
        readRegs, writeRegs := First8(insn.readRegs), First8(insn.writeRegs);
      }
    }
  }

  /** Lists of the first entry's own instruction, kept with it. */
  lemma ListingKeepsSet(line: Line, h: nat, insn: Insn, regs: RegAccess)
    requires SetOk(line, h) && line[0].insn == Some(insn) && Listed(regs, insn)
    ensures SetOk(WithRegs(line, regs), h) && Owned(WithRegs(line, regs)) == Owned(line)
  {
  }

  /** The two copy loops of putRegAccess. */
  method ListRegs(slots: RegAccess, insn: Insn) returns (r: RegAccess)
    ensures Listed(r, insn)
  {
    var rc := Min(|insn.readRegs|, MAX_REGS);
    var wc := Min(|insn.writeRegs|, MAX_REGS);
    var rs := CopyFirst(slots.readRegs, insn.readRegs, rc);
    var ws := CopyFirst(slots.writeRegs, insn.writeRegs, wc);
    r := RegAccess(rs, ws, rc, wc);
  }

  /** The copy loop: the first n of eight slots get new values, the others keep what they had. */
  method CopyFirst(slots: Regs8, from: seq<nat>, n: nat) returns (r: Regs8)
    requires n <= MAX_REGS && n <= |from|
    ensures r[..n] == from[..n] && r[n..] == slots[n..]
  {
    r := slots;
    var k := 0;
    while k < n
      invariant k <= n && r[..k] == from[..k] && r[k..] == slots[k..]
    {
      r := r[k := from[k]];
      k := k + 1;
    }
  }
}
