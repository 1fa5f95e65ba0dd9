/**
 One set of the instruction cache on values: four ways, the most recently used first. What a lookup, an insertion
 and a trim do to the order, to the instructions owned, and to the register lists kept beside them.
 */
module DisasmModel {
  import opened Bytes

  const WAYS: nat := 4
  const MAX_REGS: nat := 8

  /** A decoded instruction; `id` tells allocations apart. Decoding gives its register lists, of any length. */
  datatype Insn = Insn(id: nat, addr: nat, readRegs: seq<nat>, writeRegs: seq<nat>)

  type Regs8 = s: seq<nat> | |s| == MAX_REGS witness [0, 0, 0, 0, 0, 0, 0, 0]

  datatype RegAccess = RegAccess(readRegs: Regs8, writeRegs: Regs8, readCount: nat, writeCount: nat)

  datatype Entry = Entry(addr: nat, insn: Option<Insn>, regs: RegAccess, cached: bool)

  const NO_REGS: Regs8 := [0, 0, 0, 0, 0, 0, 0, 0]

  const EMPTY: Entry := Entry(0, None, RegAccess(NO_REGS, NO_REGS, 0, 0), false)

  type Line = s: seq<Entry> | |s| == WAYS witness [EMPTY, EMPTY, EMPTY, EMPTY]

  const EMPTY_LINE: Line := [EMPTY, EMPTY, EMPTY, EMPTY]

  predicate Has(e: Entry, addr: nat) {
    e.addr == addr && e.insn.Some?
  }

  /** The first way, from w on, that holds the address; WAYS if there is none. */
  function FindFrom(line: Line, addr: nat, w: nat): (r: nat)
    requires w <= WAYS
    ensures w <= r <= WAYS
    ensures r < WAYS ==> Has(line[r], addr)
    ensures forall i :: w <= i < r ==> !Has(line[i], addr)
    decreases WAYS - w
  {
    if w == WAYS || Has(line[w], addr) then w else FindFrom(line, addr, w + 1)
  }

  function Find(line: Line, addr: nat): nat {
    FindFrom(line, addr, 0)
  }

  function Promote(line: Line, w: nat): Line
    requires w < WAYS
  {
    [line[w]] + line[..w] + line[w + 1..]
  }

  /** get */
  function Lookup(line: Line, addr: nat): Line {
    if Find(line, addr) < WAYS then Promote(line, Find(line, addr)) else line
  }

  /** put: the last way is dropped; the new first way keeps the bytes of the old one beside what put sets. */
  function Insert(line: Line, addr: nat, insn: Insn): Line {
    [line[0].(addr := addr, insn := Some(insn), cached := false)] + line[..WAYS - 1]
  }

  /** trimCold */
  function Trim(line: Line): Line {
    [line[0], line[1], if line[2].insn.Some? then EMPTY else line[2], if line[3].insn.Some? then EMPTY else line[3]]
  }

  // ---- what a set owns ----

  function One(e: Entry): multiset<Insn> {
    if e.insn.Some? then multiset{e.insn.value} else multiset{}
  }

  function Owned(line: Line): multiset<Insn> {
    One(line[0]) + One(line[1]) + One(line[2]) + One(line[3])
  }

  lemma PromoteWays(line: Line, w: nat)
    requires w < WAYS
    ensures Promote(line, w) == match w case 0 => [line[0], line[1], line[2], line[3]]
                                        case 1 => [line[1], line[0], line[2], line[3]]
                                        case 2 => [line[2], line[0], line[1], line[3]]
                                        case _ => [line[3], line[0], line[1], line[2]]
  {
  }

  lemma SumCommutes(a: multiset<Insn>, b: multiset<Insn>, c: multiset<Insn>, d: multiset<Insn>)
    ensures a + b + c + d == b + a + c + d == c + a + b + d == d + a + b + c
  {
  }

  lemma PromoteOwns(line: Line, w: nat)
    requires w < WAYS
    ensures Owned(Promote(line, w)) == Owned(line)
  {
    PromoteWays(line, w);
    SumCommutes(One(line[0]), One(line[1]), One(line[2]), One(line[3]));
  }

  lemma LookupOwns(line: Line, addr: nat)
    ensures Owned(Lookup(line, addr)) == Owned(line)
  {
    var w := Find(line, addr);
    if w < WAYS {
      PromoteOwns(line, w);
    }
  }

  /** What goes in comes out once: by eviction now, or it stays. */
  lemma InsertOwns(line: Line, addr: nat, insn: Insn)
    ensures Owned(Insert(line, addr, insn)) + One(line[3]) == Owned(line) + multiset{insn}
  {
  }

  lemma TrimOwns(line: Line)
    ensures Owned(Trim(line)) + One(line[2]) + One(line[3]) == Owned(line)
  {
  }

  // ---- order ----

  /** Hole-free, no address twice, and every instruction at its own address. */
  predicate LineOk(line: Line) {
    && (forall i, j :: 0 <= i < j < WAYS && line[j].insn.Some? ==> line[i].insn.Some?)
    && (forall i, j :: 0 <= i < j < WAYS && line[i].insn.Some? && line[j].insn.Some? ==> line[i].addr != line[j].addr)
    && (forall i :: 0 <= i < WAYS && line[i].insn.Some? ==> line[i].insn.value.addr == line[i].addr)
  }

  /** The addresses held, most recently used first. */
  function Addresses(line: Line): (a: seq<nat>)
    ensures |a| <= WAYS
  {
    if line[0].insn.None? then []
    else if line[1].insn.None? then [line[0].addr]
    else if line[2].insn.None? then [line[0].addr, line[1].addr]
    else if line[3].insn.None? then [line[0].addr, line[1].addr, line[2].addr]
    else [line[0].addr, line[1].addr, line[2].addr, line[3].addr]
  }

  /** The list without an address. */
  function Without(s: seq<nat>, addr: nat): (r: seq<nat>)
    ensures |r| <= |s|
  {
    if s == [] then [] else (if s[0] == addr then [] else [s[0]]) + Without(s[1..], addr)
  }

  function FirstOf(s: seq<nat>, n: nat): (r: seq<nat>)
    ensures |r| == Min(n, |s|)
  {
    if |s| <= n then s else s[..n]
  }

  /** The discipline of the tracer: look up, and decode and insert on a miss. */
  function Use(line: Line, insn: Insn): Line {
    if Find(line, insn.addr) < WAYS then Lookup(line, insn.addr) else Insert(line, insn.addr, insn)
  }

  lemma PromoteKeepsOk(line: Line, w: nat)
    requires LineOk(line) && w < WAYS && line[w].insn.Some?
    ensures LineOk(Promote(line, w)) && Has(Promote(line, w)[0], line[w].addr)
  {
    PromoteWays(line, w);
  }

  lemma InsertKeepsOk(line: Line, insn: Insn)
    requires LineOk(line) && Find(line, insn.addr) == WAYS
    ensures LineOk(Insert(line, insn.addr, insn)) && Has(Insert(line, insn.addr, insn)[0], insn.addr)
  {
    forall i | 0 <= i < WAYS && line[i].insn.Some? ensures line[i].addr != insn.addr {
      assert !Has(line[i], insn.addr);
    }
  }

  lemma UseKeepsOk(line: Line, insn: Insn)
    requires LineOk(line)
    ensures LineOk(Use(line, insn)) && Has(Use(line, insn)[0], insn.addr)
  {
    var w := Find(line, insn.addr);
    if w < WAYS {
      PromoteKeepsOk(line, w);
    } else {
      InsertKeepsOk(line, insn);
    }
  }

  lemma TrimKeepsOk(line: Line)
    requires LineOk(line)
    ensures LineOk(Trim(line))
  {
  }

  lemma {:induction false} WithoutAbsent(s: seq<nat>, addr: nat)
    requires addr !in s
    ensures Without(s, addr) == s
  {
    if s != [] {
      WithoutAbsent(s[1..], addr);
      assert s == [s[0]] + s[1..];
    }
  }

  lemma PromoteOrders(line: Line, w: nat)
    requires LineOk(line) && w < WAYS && line[w].insn.Some?
    ensures var a := Addresses(line); w < |a| && Addresses(Promote(line, w)) == [line[w].addr] + a[..w] + a[w + 1..]
  {
    PromoteWays(line, w);
  }

  /** The ways in use are the addresses held. */
  lemma AddressesAt(line: Line, i: nat)
    requires LineOk(line) && i < WAYS
    ensures line[i].insn.Some? <==> i < |Addresses(line)|
    ensures line[i].insn.Some? ==> Addresses(line)[i] == line[i].addr
  {
  }

  /** A use puts the address first, the others keep their order, and of five the last one goes. */
  lemma UseOrders(line: Line, insn: Insn)
    requires LineOk(line)
    ensures Addresses(Use(line, insn)) == FirstOf([insn.addr] + Without(Addresses(line), insn.addr), WAYS)
  {
    var a, w := Addresses(line), Find(line, insn.addr);
    if w < WAYS {
      PromoteOrders(line, w);
      AddressesAt(line, w);
      forall i | 0 <= i < |a| && i != w ensures a[i] != insn.addr {
        AddressesAt(line, i);
      }
      WithoutOne(a, insn.addr, w);
      assert [insn.addr] + a[..w] + a[w + 1..] == [insn.addr] + (a[..w] + a[w + 1..]);
    } else {
      forall i | 0 <= i < |a| ensures a[i] != insn.addr {
        AddressesAt(line, i);
        assert !Has(line[i], insn.addr);
      }
      WithoutAbsent(a, insn.addr);
    }
  }

  lemma {:induction false} WithoutOne(s: seq<nat>, addr: nat, w: nat)
    requires w < |s| && s[w] == addr && forall i :: 0 <= i < |s| && i != w ==> s[i] != addr
    ensures Without(s, addr) == s[..w] + s[w + 1..]
  {
    if w == 0 {
      WithoutAbsent(s[1..], addr);
    } else {
      WithoutOne(s[1..], addr, w - 1);
      assert s[..w] + s[w + 1..] == [s[0]] + (s[1..][..w - 1] + s[1..][w..]);
    }
  }

  lemma TrimOrders(line: Line)
    requires LineOk(line)
    ensures Addresses(Trim(line)) == FirstOf(Addresses(line), 2)
  {
  }

  datatype Event = Used(insn: Insn) | Trimmed | Cleared

  function After(line: Line, e: Event): Line {
    match e
    case Used(insn) => Use(line, insn)
    case Trimmed => Trim(line)
    case Cleared => EMPTY_LINE
  }

  function Run(line: Line, events: seq<Event>): Line
    decreases |events|
  {
    if events == [] then line else After(Run(line, events[..|events| - 1]), events[|events| - 1])
  }

  /** The distinct addresses used, the one used last first. */
  function Recent(events: seq<Event>): seq<nat>
    decreases |events|
  {
    if events == [] then []
    else
      var last, before := events[|events| - 1], Recent(events[..|events| - 1]);
      if last.Used? then [last.insn.addr] + Without(before, last.insn.addr) else before
  }

  predicate NoTrim(events: seq<Event>) {
    forall i :: 0 <= i < |events| ==> events[i].Used?
  }

  /** a is the beginning of s. */
  predicate Begins(a: seq<nat>, s: seq<nat>) {
    |a| <= |s| && a == s[..|a|]
  }

  lemma {:induction false} WithoutBegins(a: seq<nat>, s: seq<nat>, addr: nat)
    requires Begins(a, s)
    ensures Begins(Without(a, addr), Without(s, addr))
  {
    if a != [] {
      WithoutBegins(a[1..], s[1..], addr);
    }
  }

  lemma FirstOfBegins(a: seq<nat>, s: seq<nat>, n: nat)
    requires Begins(a, s)
    ensures Begins(FirstOf(a, n), s)
  {
  }

  predicate Distinct(s: seq<nat>) {
    forall i, j :: 0 <= i < j < |s| ==> s[i] != s[j]
  }

  lemma {:induction false} WithoutDistinct(s: seq<nat>, addr: nat)
    requires Distinct(s)
    ensures Distinct(Without(s, addr)) && addr !in Without(s, addr) && forall x :: x in Without(s, addr) ==> x in s
  {
    if s != [] {
      WithoutDistinct(s[1..], addr);
      var r := Without(s[1..], addr);
      forall j | 0 <= j < |r| ensures r[j] != s[0] {
        assert r[j] in s[1..];
      }
    }
  }

  lemma FirstOfCons(x: nat, s: seq<nat>, t: seq<nat>, n: nat)
    requires n > 0 && FirstOf(s, n - 1) == FirstOf(t, n - 1)
    ensures FirstOf([x] + s, n) == FirstOf([x] + t, n)
  {
    assert FirstOf([x] + s, n) == [x] + FirstOf(s, n - 1);
    assert FirstOf([x] + t, n) == [x] + FirstOf(t, n - 1);
  }

  /** Of a list without repetition, the first n tell the first n - 1 of what is left when an address goes. */
  lemma {:induction false} WithoutFirst(s: seq<nat>, n: nat, addr: nat)
    requires Distinct(s) && n > 0
    ensures FirstOf(Without(FirstOf(s, n), addr), n - 1) == FirstOf(Without(s, addr), n - 1)
  {
    if n < |s| {
      var rest := s[1..];
      assert FirstOf(s, n)[1..] == FirstOf(rest, n - 1);
      if s[0] == addr {
        WithoutAbsent(rest, addr);
        WithoutAbsent(FirstOf(rest, n - 1), addr);
      } else if n > 1 {
        WithoutFirst(rest, n - 1, addr);
        FirstOfCons(s[0], Without(FirstOf(rest, n - 1), addr), Without(rest, addr), n - 1);
        assert Without(FirstOf(s, n), addr) == [s[0]] + Without(FirstOf(rest, n - 1), addr);
        assert Without(s, addr) == [s[0]] + Without(rest, addr);
      }
    }
  }

  lemma {:induction false} RecentDistinct(events: seq<Event>)
    ensures Distinct(Recent(events))
    decreases |events|
  {
    if events != [] {
      RecentDistinct(events[..|events| - 1]);
      if events[|events| - 1].Used? {
        WithoutDistinct(Recent(events[..|events| - 1]), events[|events| - 1].insn.addr);
      }
    }
  }

  /** Whatever is trimmed, the set holds the addresses used last, in order; and it stays as it should be. */
  lemma {:induction false} RunIsRecent(events: seq<Event>)
    ensures LineOk(Run(EMPTY_LINE, events)) && Begins(Addresses(Run(EMPTY_LINE, events)), Recent(events))
    decreases |events|
  {
    if events != [] {
      var before, e := events[..|events| - 1], events[|events| - 1];
      RunIsRecent(before);
      var line := Run(EMPTY_LINE, before);
      match e
      case Trimmed =>
        TrimKeepsOk(line);
        TrimOrders(line);
      case Cleared =>
      case Used(insn) =>
        UseKeepsOk(line, insn);
        UseOrders(line, insn);
        WithoutBegins(Addresses(line), Recent(before), insn.addr);
        FirstOfBegins([insn.addr] + Without(Addresses(line), insn.addr), Recent(events), WAYS);
    }
  }

  /**
   Least recently used, exactly: with nothing trimmed a set holds the last four distinct addresses, or all of them.
   */
  lemma {:induction false} RunIsLastFour(events: seq<Event>)
    requires NoTrim(events)
    ensures Addresses(Run(EMPTY_LINE, events)) == FirstOf(Recent(events), WAYS)
    decreases |events|
  {
    if events != [] {
      var before, insn := events[..|events| - 1], events[|events| - 1].insn;
      assert events[|events| - 1].Used? && forall i :: 0 <= i < |before| ==> before[i] == events[i];
      RunIsLastFour(before);
      RunIsRecent(before);
      RecentDistinct(before);
      UseOrders(Run(EMPTY_LINE, before), insn);
      WithoutFirst(Recent(before), WAYS, insn.addr);
      FirstOfCons(insn.addr, Without(FirstOf(Recent(before), WAYS), insn.addr),
                  Without(Recent(before), insn.addr), WAYS);
    }
  }

  // ---- how long an instruction stays ----

  /** The distinct other addresses used since address a was used last, the one used last first. */
  function Ahead(a: nat, events: seq<Event>): seq<nat>
    decreases |events|
  {
    if events == [] then []
    else
      var last, before := events[|events| - 1], Ahead(a, events[..|events| - 1]);
      if !last.Used? then before
      else if last.insn.addr == a then [] else [last.insn.addr] + Without(before, last.insn.addr)
  }

  /**
   From the moment address a was used: never more than three others used since its last use, not more than one of
   them at any trim, and nothing cleared.
   */
  predicate Survives(a: nat, events: seq<Event>)
    decreases |events|
  {
    events == [] ||
    var front, last := events[..|events| - 1], events[|events| - 1];
    Survives(a, front) &&
    match last
    case Used(_) => |Ahead(a, events)| < WAYS
    case Trimmed => |Ahead(a, front)| < 2
    case Cleared => false
  }

  /** Instruction x is in the way behind those of the addresses ahead of it. */
  predicate Sits(line: Line, x: Insn, ahead: seq<nat>) {
    && |ahead| < WAYS && line[|ahead|].insn == Some(x) && line[|ahead|].addr == x.addr
    && forall i :: 0 <= i < |ahead| ==> line[i].insn.Some? && line[i].addr == ahead[i]
  }

  predicate Absent(line: Line, x: Insn) {
    forall w :: 0 <= w < WAYS ==> line[w].insn != Some(x)
  }

  lemma UseOwn(line: Line, x: Insn, ahead: seq<nat>, insn: Insn)
    requires LineOk(line) && Sits(line, x, ahead) && insn.addr == x.addr
    ensures Sits(Use(line, insn), x, [])
  {
    assert Has(line[|ahead|], insn.addr);
    var w := Find(line, insn.addr);
    assert w == |ahead|;
    PromoteWays(line, w);
  }

  /** A use that finds another address moves x back by one if that address was behind it. */
  lemma UseHit(line: Line, x: Insn, ahead: seq<nat>, insn: Insn, w: nat)
    requires LineOk(line) && Sits(line, x, ahead) && insn.addr != x.addr && w < WAYS && Find(line, insn.addr) == w
    ensures Sits(Use(line, insn), x, [insn.addr] + Without(ahead, insn.addr))
  {
    PromoteWays(line, w);
    assert w != |ahead|;
    if w < |ahead| {
      assert ahead[w] == insn.addr;
      forall i | 0 <= i < |ahead| && i != w ensures ahead[i] != insn.addr {
        assert line[i].addr == ahead[i] && line[w].addr == insn.addr;
      }
      WithoutOne(ahead, insn.addr, w);
    } else {
      forall i | 0 <= i < |ahead| ensures ahead[i] != insn.addr {
        assert line[i].addr == ahead[i] && line[w].addr == insn.addr;
      }
      WithoutAbsent(ahead, insn.addr);
    }
  }

  /** A use that finds nothing moves it back by one, or out. */
  lemma UseMiss(line: Line, x: Insn, ahead: seq<nat>, insn: Insn)
    requires LineOk(line) && Sits(line, x, ahead) && insn.addr != x.addr && Find(line, insn.addr) == WAYS
    ensures var next := [insn.addr] + Without(ahead, insn.addr);
            if |next| < WAYS then Sits(Use(line, insn), x, next) else Absent(Use(line, insn), x)
  {
    forall i | 0 <= i < |ahead| ensures ahead[i] != insn.addr {
      assert !Has(line[i], insn.addr);
    }
    WithoutAbsent(ahead, insn.addr);
  }

  lemma SitsUse(line: Line, x: Insn, ahead: seq<nat>, insn: Insn)
    requires LineOk(line) && Sits(line, x, ahead)
    ensures var next := if insn.addr == x.addr then [] else [insn.addr] + Without(ahead, insn.addr);
            if |next| < WAYS then Sits(Use(line, insn), x, next) else Absent(Use(line, insn), x)
  {
    if insn.addr == x.addr {
      UseOwn(line, x, ahead, insn);
    } else if Find(line, insn.addr) < WAYS {
      UseHit(line, x, ahead, insn, Find(line, insn.addr));
    } else {
      UseMiss(line, x, ahead, insn);
    }
  }

  lemma SitsTrim(line: Line, x: Insn, ahead: seq<nat>)
    requires LineOk(line) && Sits(line, x, ahead)
    ensures if |ahead| < 2 then Sits(Trim(line), x, ahead) else Absent(Trim(line), x)
  {
  }

  /** What is gone is gone, unless it is put in again. */
  lemma AbsentStays(line: Line, x: Insn, e: Event)
    requires Absent(line, x) && (e.Used? && Find(line, e.insn.addr) == WAYS ==> e.insn != x)
    ensures Absent(After(line, e), x)
  {
    if e.Used? && Find(line, e.insn.addr) < WAYS {
      PromoteWays(line, Find(line, e.insn.addr));
    }
  }

  /** A miss never puts in x, which was handed over before. */
  predicate NotAgain(line: Line, x: Insn, events: seq<Event>)
    decreases |events|
  {
    events == [] ||
    var front, last := events[..|events| - 1], events[|events| - 1];
    NotAgain(line, x, front) && (last.Used? && Find(Run(line, front), last.insn.addr) == WAYS ==> last.insn != x)
  }

  /**
   Exactly how long: after any events x is in the set if and only if it survives them, and then behind those ahead.
   */
  lemma {:induction false} RunSurvives(line: Line, x: Insn, events: seq<Event>)
    requires LineOk(line) && Sits(line, x, []) && NotAgain(line, x, events)
    ensures LineOk(Run(line, events))
    ensures Survives(x.addr, events) ==> Sits(Run(line, events), x, Ahead(x.addr, events))
    ensures !Survives(x.addr, events) ==> Absent(Run(line, events), x)
    decreases |events|
  {
    if events != [] {
      var front, e := events[..|events| - 1], events[|events| - 1];
      RunSurvives(line, x, front);
      StaysOk(Run(line, front), e);
      if Survives(x.addr, front) {
        match e
        case Used(insn) => SitsUse(Run(line, front), x, Ahead(x.addr, front), insn);
        case Trimmed => SitsTrim(Run(line, front), x, Ahead(x.addr, front));
        case Cleared =>
      } else {
        AbsentStays(Run(line, front), x, e);
      }
    }
  }

  lemma StaysOk(line: Line, e: Event)
    requires LineOk(line)
    ensures LineOk(After(line, e))
  {
    match e
    case Used(insn) => UseKeepsOk(line, insn);
    case Trimmed => TrimKeepsOk(line);
    case Cleared =>
  }

  lemma SurvivesNext(a: nat, events: seq<Event>, e: Event)
    ensures Survives(a, events + [e]) <==>
              Survives(a, events)
              && match e
                 case Used(_) => |Ahead(a, events + [e])| < WAYS
                 case Trimmed => |Ahead(a, events)| < 2
                 case Cleared => false
  {
    assert (events + [e])[..|events|] == events;
  }

  /** A new address goes in front of those ahead. */
  lemma AheadNew(a: nat, events: seq<Event>, insn: Insn)
    requires insn.addr != a && insn.addr !in Ahead(a, events)
    ensures Ahead(a, events + [Used(insn)]) == [insn.addr] + Ahead(a, events)
  {
    assert (events + [Used(insn)])[..|events|] == events;
    WithoutAbsent(Ahead(a, events), insn.addr);
  }

  /** The uses of some instructions, one after the other. */
  function Uses(insns: seq<Insn>): seq<Event> {
    if insns == [] then [] else Uses(insns[..|insns| - 1]) + [Used(insns[|insns| - 1])]
  }

  /** Uses of new addresses all come to stand ahead. */
  lemma {:induction false} UsesAhead(a: nat, insns: seq<Insn>)
    requires forall i :: 0 <= i < |insns| ==> insns[i].addr != a
    requires forall i, j :: 0 <= i < j < |insns| ==> insns[i].addr != insns[j].addr
    ensures |Ahead(a, Uses(insns))| == |insns|
    ensures forall b :: b in Ahead(a, Uses(insns)) ==> exists i :: 0 <= i < |insns| && insns[i].addr == b
    decreases |insns|
  {
    if insns != [] {
      var n := |insns| - 1;
      UsesAhead(a, insns[..n]);
      forall i | 0 <= i < n ensures insns[..n][i].addr != insns[n].addr {
      }
      AheadNew(a, Uses(insns[..n]), insns[n]);
      forall b | b in Ahead(a, Uses(insns)) ensures exists i :: 0 <= i < |insns| && insns[i].addr == b {
        if b != insns[n].addr {
          var i :| 0 <= i < n && insns[..n][i].addr == b;
          assert insns[i].addr == b;
        }
      }
    }
  }

  /** Any four other addresses put an instruction out, and so do any two and a trim: nothing needs to be cleared. */
  lemma OthersEvict(a: nat, insns: seq<Insn>)
    requires forall i :: 0 <= i < |insns| ==> insns[i].addr != a
    requires forall i, j :: 0 <= i < j < |insns| ==> insns[i].addr != insns[j].addr
    ensures |insns| >= WAYS ==> !Survives(a, Uses(insns))
    ensures |insns| >= 2 ==> !Survives(a, Uses(insns) + [Trimmed])
  {
    UsesAhead(a, insns);
    SurvivesNext(a, Uses(insns), Trimmed);
    if insns != [] {
      SurvivesNext(a, Uses(insns[..|insns| - 1]), Used(insns[|insns| - 1]));
    }
  }
}
