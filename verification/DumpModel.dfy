/**
 What a dump session keeps and writes, on values: pages touched, snapshots taken before a first write, pages
 written out so far. A run is any sequence of announced guest accesses, changes made behind the session's back
 by native code, and finalizations.
 */
module DumpModel {
  import opened Bytes

  const PAGE: nat := 0x1000

  type Page = s: seq<byte> | |s| == PAGE witness seq(PAGE, _ => 0)

  /** Mapped pages and their bytes, by page number. */
  type Memory = map<nat, Page>

  function ZeroPage(): (z: Page)
    ensures forall k :: 0 <= k < PAGE ==> z[k] == 0
  {
    seq(PAGE, _ => 0)
  }

  /** What reading a page gives: an unmapped page is written out as zeros. */
  function PageOf(mem: Memory, p: nat): Page {
    if p in mem then mem[p] else ZeroPage()
  }

  /** The page an address lies in. */
  function PageAt(a: nat): nat {
    a / 0x1000
  }

  /** The first and the last page an access touches; an access of size 0 or less still touches one. */
  function FirstPage(addr: nat): nat {
    addr / PAGE
  }

  function LastPage(addr: nat, size: int): (p: nat)
    ensures p >= FirstPage(addr)
  {
    (addr + (if size > 0 then size - 1 else 0)) / PAGE
  }

  predicate Touches(addr: nat, size: int, p: nat) {
    FirstPage(addr) <= p <= LastPage(addr, size)
  }

  function Touched(addr: nat, size: int): set<nat> {
    set p: nat | p <= LastPage(addr, size) && Touches(addr, size, p)
  }

  /** An access of some bytes touches the pages these lie in, both or all of them if it straddles; else the first. */
  lemma TouchedExact(addr: nat, size: int, p: nat)
    ensures size > 0 ==> (p in Touched(addr, size) <==> exists a: nat :: addr <= a < addr + size && PageAt(a) == p)
    ensures size <= 0 ==> (p in Touched(addr, size) <==> p == PageAt(addr))
  {
    assert p in Touched(addr, size) <==> Touches(addr, size, p);
    if size > 0 {
      if Touches(addr, size, p) {
        var a := if p == PageAt(addr) then addr else p * 0x1000;
        assert addr <= a < addr + size && PageAt(a) == p;
      }
      if a: nat :| addr <= a < addr + size && PageAt(a) == p {
        assert addr / 0x1000 <= a / 0x1000 <= (addr + size - 1) / 0x1000;
      }
    }
  }

  /** A session: touched pages, first-write snapshots, and the pages written out with the bytes they got. */
  datatype Session = Session(pages: set<nat>, written: map<nat, seq<byte>>, image: map<nat, seq<byte>>)

  const EMPTY: Session := Session({}, map[], map[])

  /** on_mem: the touched pages are noted, and a page about to be written for the first time is copied. */
  function Noted(s: Session, mem: Memory, isWrite: bool, addr: nat, size: int): Session {
    var t := Touched(addr, size);
    Session(s.pages + t,
            if isWrite then (map p | p in t :: PageOf(mem, p)) + s.written else s.written,
            s.image)
  }

  /** The bytes a page is written out with: its snapshot if there is one, else what it holds now. */
  function ImageOf(written: map<nat, seq<byte>>, mem: Memory, p: nat): seq<byte> {
    if p in written then written[p] else PageOf(mem, p)
  }

  /** do_finalize: the selected pages that are not out yet are written out. */
  function Finalized(s: Session, mem: Memory, selected: set<nat>): Session {
    s.(image := (map p | p in selected :: ImageOf(s.written, mem, p)) + s.image)
  }

  // ---- runs ----

  datatype Event =
    | Guest(isWrite: bool, addr: nat, size: int, next: Memory)   // announced first, then done
    | Native(next: Memory)                                       // not announced
    | Finalize(selected: set<nat>)

  /** Byte k of page p is one of those an access is about. */
  predicate Accessed(addr: nat, size: int, p: nat, k: nat) {
    addr <= 0x1000 * p + k < addr + size
  }

  /** A guest access changes nothing but, if it is a write, the bytes it is about; the pages these lie in are mapped. */
  ghost predicate Legal(mem: Memory, e: Event) {
    match e
    case Guest(isWrite, addr, size, next) =>
      && (isWrite ==> PageAt(addr) in mem && forall a: nat :: addr <= a < addr + size ==> PageAt(a) in mem)
      && forall p: nat, k: nat :: k < PAGE && !(isWrite && Accessed(addr, size, p, k)) ==>
                                    PageOf(next, p)[k] == PageOf(mem, p)[k]
    case Native(_) => true
    case Finalize(_) => true
  }

  /** So all it touches is mapped, and what it does not touch stays. */
  lemma LegalTouches(mem: Memory, e: Event)
    requires Legal(mem, e) && e.Guest?
    ensures e.isWrite ==> Touched(e.addr, e.size) <= mem.Keys
    ensures forall p: nat :: !(e.isWrite && p in Touched(e.addr, e.size)) ==> PageOf(e.next, p) == PageOf(mem, p)
  {
    if e.isWrite {
      forall p | p in Touched(e.addr, e.size) ensures p in mem.Keys {
        TouchedExact(e.addr, e.size, p);
      }
    }
    forall p: nat | !(e.isWrite && p in Touched(e.addr, e.size)) ensures PageOf(e.next, p) == PageOf(mem, p) {
      UntouchedStays(mem, e, p);
    }
  }

  lemma UntouchedStays(mem: Memory, e: Event, p: nat)
    requires Legal(mem, e) && e.Guest? && !(e.isWrite && p in Touched(e.addr, e.size))
    ensures PageOf(e.next, p) == PageOf(mem, p)
  {
    forall k: nat | k < PAGE ensures PageOf(e.next, p)[k] == PageOf(mem, p)[k] {
      if e.isWrite && Accessed(e.addr, e.size, p, k) {
        TouchedExact(e.addr, e.size, p);
        assert PageAt(0x1000 * p + k) == p;
      }
    }
  }

  function MemoryAfter(mem: Memory, e: Event): Memory {
    match e
    case Guest(_, _, _, next) => next
    case Native(next) => next
    case Finalize(_) => mem
  }

  function SessionAfter(s: Session, mem: Memory, e: Event): Session {
    match e
    case Guest(isWrite, addr, size, _) => Noted(s, mem, isWrite, addr, size)
    case Native(_) => s
    case Finalize(selected) => Finalized(s, mem, selected)
  }

  ghost predicate LegalRun(mem: Memory, run: seq<Event>)
    decreases |run|
  {
    run == [] || (Legal(mem, run[0]) && LegalRun(MemoryAfter(mem, run[0]), run[1..]))
  }

  function Play(s: Session, mem: Memory, run: seq<Event>): Session
    decreases |run|
  {
    if run == [] then s else Play(SessionAfter(s, mem, run[0]), MemoryAfter(mem, run[0]), run[1..])
  }

  /**
   The bytes of page p at the moment the session fixes them: just before the first announced write to it, or when
   the first finalization selects it, whichever comes first.
   */
  function Frozen(mem: Memory, run: seq<Event>, p: nat): Option<seq<byte>>
    decreases |run|
  {
    if run == [] then None
    else
      match run[0]
      case Guest(isWrite, addr, size, next) =>
        if isWrite && p in Touched(addr, size) then Some(PageOf(mem, p)) else Frozen(next, run[1..], p)
      case Native(next) => Frozen(next, run[1..], p)
      case Finalize(selected) => if p in selected then Some(PageOf(mem, p)) else Frozen(mem, run[1..], p)
  }

  predicate EverSelected(run: seq<Event>, p: nat) {
    exists i :: 0 <= i < |run| && run[i].Finalize? && p in run[i].selected
  }

  lemma EverSelectedFirst(run: seq<Event>, p: nat)
    requires run != []
    ensures EverSelected(run, p) <==> (run[0].Finalize? && p in run[0].selected) || EverSelected(run[1..], p)
  {
    if i :| 0 <= i < |run| && run[i].Finalize? && p in run[i].selected {
      if i > 0 {
        assert run[1..][i - 1] == run[i];
      }
    }
    if i :| 0 <= i < |run[1..]| && run[1..][i].Finalize? && p in run[1..][i].selected {
      assert run[i + 1] == run[1..][i];
    }
  }

  /**
   From any state on: a page that is out stays as it is, a page with a snapshot comes out as the snapshot, and
   any other comes out as it was frozen. A page comes out if and only if a finalization selects it.
   */
  lemma {:induction false} PlayWrites(s: Session, mem: Memory, run: seq<Event>, p: nat)
    requires LegalRun(mem, run)
    ensures var r := Play(s, mem, run);
            && (p in r.image <==> p in s.image || EverSelected(run, p))
            && (p in r.image ==>
                  if p in s.image then r.image[p] == s.image[p]
                  else if p in s.written then r.image[p] == s.written[p]
                  else Frozen(mem, run, p) == Some(r.image[p]))
    decreases |run|
  {
    if run != [] {
      EverSelectedFirst(run, p);
      if run[0].Guest? {
        LegalTouches(mem, run[0]);
      }
      PlayWrites(SessionAfter(s, mem, run[0]), MemoryAfter(mem, run[0]), run[1..], p);
    }
  }

  /** What the last native change before page p is fixed leaves in it; None if there is none. */
  function LastNative(run: seq<Event>, p: nat): Option<seq<byte>>
    decreases |run|
  {
    if run == [] then None
    else
      match run[0]
      case Guest(isWrite, addr, size, _) =>
        if isWrite && p in Touched(addr, size) then None else LastNative(run[1..], p)
      case Native(next) =>
        var later := LastNative(run[1..], p);
        if later.Some? then later else Some(PageOf(next, p))
      case Finalize(selected) => if p in selected then None else LastNative(run[1..], p)
  }

  /** A page is fixed with what native code left in it last, or with its first bytes. */
  lemma {:induction false} FrozenIsNative(mem: Memory, run: seq<Event>, p: nat)
    requires LegalRun(mem, run)
    ensures Frozen(mem, run, p).Some? ==>
              Frozen(mem, run, p).value == match LastNative(run, p) case None => PageOf(mem, p) case Some(b) => b
    decreases |run|
  {
    if run != [] {
      if run[0].Guest? {
        LegalTouches(mem, run[0]);
      }
      FrozenIsNative(MemoryAfter(mem, run[0]), run[1..], p);
    }
  }

  /**
   What every page of a dump holds, whatever native code did meanwhile: its bytes when the session fixed them. These
   are the bytes of the first entry if and only if native code had not changed it by then, or had left it with them.
   */
  lemma DumpIsFrozen(mem: Memory, run: seq<Event>, p: nat)
    requires LegalRun(mem, run)
    ensures p in Play(EMPTY, mem, run).image <==> EverSelected(run, p)
    ensures EverSelected(run, p) ==> Frozen(mem, run, p) == Some(Play(EMPTY, mem, run).image[p])
    ensures EverSelected(run, p) ==>
              (Play(EMPTY, mem, run).image[p] == PageOf(mem, p) <==> LastNative(run, p) in {None, Some(PageOf(mem, p))})
  {
    PlayWrites(EMPTY, mem, run, p);
    FrozenIsNative(mem, run, p);
  }

  /** No native change of page p before the session fixes its bytes. */
  ghost predicate QuietUntilFrozen(mem: Memory, run: seq<Event>, p: nat)
    decreases |run|
  {
    run == [] ||
    match run[0]
    case Guest(isWrite, addr, size, next) =>
      (isWrite && p in Touched(addr, size)) || QuietUntilFrozen(next, run[1..], p)
    case Native(next) => PageOf(next, p) == PageOf(mem, p) && QuietUntilFrozen(next, run[1..], p)
    case Finalize(selected) => p in selected || QuietUntilFrozen(mem, run[1..], p)
  }

  lemma {:induction false} QuietIsFaithful(mem: Memory, run: seq<Event>, p: nat)
    requires LegalRun(mem, run) && QuietUntilFrozen(mem, run, p)
    ensures Frozen(mem, run, p).Some? ==> Frozen(mem, run, p).value == PageOf(mem, p)
    decreases |run|
  {
    if run != [] && !(run[0].Finalize? && p in run[0].selected)
       && !(run[0].Guest? && run[0].isWrite && p in Touched(run[0].addr, run[0].size)) {
      if run[0].Guest? {
        LegalTouches(mem, run[0]);
      }
      QuietIsFaithful(MemoryAfter(mem, run[0]), run[1..], p);
    }
  }

  /** A page that native code leaves alone until it is fixed is dumped as it was at the first function entry. */
  lemma DumpIsEntry(mem: Memory, run: seq<Event>, p: nat)
    requires LegalRun(mem, run) && QuietUntilFrozen(mem, run, p)
    ensures EverSelected(run, p) ==>
                p in Play(EMPTY, mem, run).image && Play(EMPTY, mem, run).image[p] == PageOf(mem, p)
  {
    DumpIsFrozen(mem, run, p);
    QuietIsFaithful(mem, run, p);
  }

  predicate Announced(run: seq<Event>) {
    forall i :: 0 <= i < |run| ==> !run[i].Native?
  }

  lemma {:induction false} AnnouncedIsQuiet(mem: Memory, run: seq<Event>, p: nat)
    requires Announced(run)
    ensures QuietUntilFrozen(mem, run, p)
    decreases |run|
  {
    if run != [] {
      AnnouncedIsQuiet(MemoryAfter(mem, run[0]), run[1..], p);
    }
  }

  /**
   If memory changes through announced accesses only, then after any accesses, straddling ones included, and any
   number of calls and finalizations, the whole dump is the memory of the first function entry.
   */
  lemma WholeDumpIsEntry(mem: Memory, run: seq<Event>)
    requires LegalRun(mem, run) && Announced(run)
    ensures forall p :: p in Play(EMPTY, mem, run).image ==> Play(EMPTY, mem, run).image[p] == PageOf(mem, p)
    ensures forall p :: p in Play(EMPTY, mem, run).image <==> EverSelected(run, p)
  {
    forall p: nat
      ensures p in Play(EMPTY, mem, run).image <==> EverSelected(run, p)
      ensures p in Play(EMPTY, mem, run).image ==> Play(EMPTY, mem, run).image[p] == PageOf(mem, p)
    {
      AnnouncedIsQuiet(mem, run, p);
      DumpIsFrozen(mem, run, p);
      DumpIsEntry(mem, run, p);
    }
  }

  /**
   External code that writes a page before the guest does is enough to break this: the page is dumped as that code
   left it. Here one native change of page 1 comes before the finalization.
   */
  lemma NativeWriteShows()
    ensures var before: Memory := map[1 := ZeroPage()];
            var after: Memory := map[1 := ZeroPage()[0 := 7]];
            var run := [Native(after), Finalize({1})];
            LegalRun(before, run) && 1 in Play(EMPTY, before, run).image
            && Play(EMPTY, before, run).image[1] != PageOf(before, 1)
  {
    var before: Memory := map[1 := ZeroPage()];
    var after: Memory := map[1 := ZeroPage()[0 := 7]];
    var run := [Native(after), Finalize({1})];
    assert run[1..] == [Finalize({1})] && run[1..][1..] == [];
    assert LegalRun(after, run[1..]);
    DumpIsFrozen(before, run, 1);
    assert run[1].Finalize? && 1 in run[1].selected;
    assert Frozen(before, run, 1) == Frozen(after, run[1..], 1) == Some(PageOf(after, 1));
    assert PageOf(after, 1)[0] != PageOf(before, 1)[0];
  }
}
