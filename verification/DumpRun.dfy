/** A dump session over a whole run: entries, announced accesses, native code and finalizations in any order. */
module DumpRun {
  import opened Bytes
  import opened Sorting
  import opened DumpModel
  import opened DumpSession

  /** What happens to a session, with what memory is afterwards. */
  datatype Request =
    | Enter(address: uint64, xs: seq<uint64>, stack: uint64)
    | Access(isWrite: bool, addr: nat, size: int, next: Memory)
    | NativeCode(next: Memory)
    | Finish(soStart: uint64, soEnd: uint64, vmas: seq<Vma>)

  predicate Same(r: Request, e: Event) {
    match r
    case Enter(_, _, _) => false
    case Access(isWrite, addr, size, next) => e == Guest(isWrite, addr, size, next)
    case NativeCode(next) => e == Native(next)
    case Finish(_, _, _) => e.Finalize?
  }

  function MemoryThen(mem: Memory, r: Request): Memory {
    match r
    case Access(_, _, _, next) => next
    case NativeCode(next) => next
    case _ => mem
  }

  /** Accesses change what they touch only, and the maps are those of a process. */
  ghost predicate Fits(mem: Memory, r: Request) {
    match r
    case Access(isWrite, addr, size, next) => Legal(mem, Guest(isWrite, addr, size, next))
    case Finish(_, _, vmas) => MapsOk(vmas)
    case _ => true
  }

  ghost predicate AllFit(mem: Memory, requests: seq<Request>)
    decreases |requests|
  {
    requests == [] || (Fits(mem, requests[0]) && AllFit(MemoryThen(mem, requests[0]), requests[1..]))
  }

  /** The stack pointer of the first entry, once there was one. */
  function Sp(captured: bool, sp: uint64, r: Request): uint64 {
    if r.Enter? && !captured then r.stack else sp
  }

  /**
   The events of a run are its requests but the entries, and each finalization selects by the pages touched until
   then, the stack of the first entry, and the library and the maps it is given.
   */
  ghost predicate Answers(s: Session, captured: bool, sp: uint64, mem: Memory, requests: seq<Request>, run: seq<Event>)
    decreases |requests|
  {
    if requests == [] then run == []
    else
      var r := requests[0];
      if r.Enter? then Answers(s, true, Sp(captured, sp, r), mem, requests[1..], run)
      else
        && run != [] && Same(r, run[0])
        && (r.Finish? ==> IsSelection(run[0].selected, s.pages, sp, r.soStart, r.soEnd, r.vmas))
        && Answers(SessionAfter(s, mem, run[0]), captured, sp, MemoryThen(mem, r), requests[1..], run[1..])
  }

  /** The touched pages in the order the set yields them, which is any. */
  method Listed(s: set<nat>) returns (order: seq<nat>)
    ensures Elements(order) == s
  {
    order := [];
    var rest := s;
    while rest != {}
      invariant rest <= s && forall p: nat :: p in order <==> p in s && p !in rest
    {
      var p :| p in rest;
      order := order + [p];
      rest := rest - {p};
    }
  }

  /** One request. */
  method Serve(session: DumpSession, mem: Memory, r: Request) returns (ghost e: Event)
    requires session.Valid() && Fits(mem, r)
    modifies session
    ensures session.Valid()
    ensures if r.Enter? then session.State() == old(session.State()) && session.entryCaptured
            else Same(r, e) && Legal(mem, e) && session.State() == SessionAfter(old(session.State()), mem, e)
                 && session.entryCaptured == old(session.entryCaptured)
    ensures session.sp == Sp(old(session.entryCaptured), old(session.sp), r)
    ensures r.Finish? ==> IsSelection(e.selected, old(session.pages), session.sp, r.soStart, r.soEnd, r.vmas)
  {
    match r
    case Enter(address, xs, stack) =>
      session.OnEntry(address, xs, stack);
      e := *;
    case Access(isWrite, addr, size, next) =>
      LegalTouches(mem, Guest(isWrite, addr, size, next));
      session.OnMem(mem, isWrite, addr, size);
      e := Guest(isWrite, addr, size, next);
    case NativeCode(next) =>
      e := Native(next);
    case Finish(soStart, soEnd, vmas) =>
      var order := Listed(session.pages);
      ghost var selected := session.Finalize(mem, order, soStart, soEnd, vmas);
      e := Finalize(selected);
  }

  /** All of them, in order: the session ends as the run of their events leaves it. */
  method ServeAll(session: DumpSession, mem: Memory, requests: seq<Request>) returns (ghost run: seq<Event>)
    requires session.Valid() && AllFit(mem, requests)
    modifies session
    ensures session.Valid() && LegalRun(mem, run)
    ensures session.State() == Play(old(session.State()), mem, run)
    ensures Answers(old(session.State()), old(session.entryCaptured), old(session.sp), mem, requests, run)
    decreases |requests|
  {
    if requests == [] {
      return [];
    }
    ghost var e := Serve(session, mem, requests[0]);
    run := ServeAll(session, MemoryThen(mem, requests[0]), requests[1..]);
    if !requests[0].Enter? {
      assert ([e] + run)[1..] == run;
      run := [e] + run;
    }
  }

  predicate Quiet(requests: seq<Request>) {
    forall i :: 0 <= i < |requests| ==> !requests[i].NativeCode?
  }

  lemma {:induction false} QuietIsAnnounced(s: Session, captured: bool, sp: uint64, mem: Memory,
                                            requests: seq<Request>, run: seq<Event>)
    requires Answers(s, captured, sp, mem, requests, run) && Quiet(requests)
    ensures Announced(run)
    decreases |requests|
  {
    if requests != [] {
      var r := requests[0];
      forall i | 0 <= i < |requests[1..]| ensures !requests[1..][i].NativeCode? {
        assert !requests[i + 1].NativeCode?;
      }
      if r.Enter? {
        QuietIsAnnounced(s, true, Sp(captured, sp, r), mem, requests[1..], run);
      } else {
        QuietIsAnnounced(SessionAfter(s, mem, run[0]), captured, sp, MemoryThen(mem, r), requests[1..], run[1..]);
        assert !run[0].Native?;
        forall i | 0 <= i < |run| ensures !run[i].Native? {
          if i > 0 {
            assert run[i] == run[1..][i - 1];
          }
        }
      }
    }
  }

  /** An access reaches its first address, and all that its size says. */
  predicate Reaches(r: Request, a: nat) {
    r.Access? && (a == r.addr || r.addr <= a < r.addr + r.size)
  }

  /** What is noted before a finalization is selected by it. */
  lemma {:induction false} NotedIsSelected(s: Session, captured: bool, sp: uint64, mem: Memory, requests: seq<Request>,
                                           run: seq<Event>, j: nat, p: nat)
    requires Answers(s, captured, sp, mem, requests, run) && j < |requests| && requests[j].Finish? && p in s.pages
    ensures EverSelected(run, p)
    decreases |requests|
  {
    var r := requests[0];
    if r.Enter? {
      NotedIsSelected(s, true, Sp(captured, sp, r), mem, requests[1..], run, j - 1, p);
    } else {
      EverSelectedFirst(run, p);
      if j > 0 {
        NotedIsSelected(SessionAfter(s, mem, run[0]), captured, sp, MemoryThen(mem, r), requests[1..], run[1..],
            j - 1, p);
      } else {
        assert Selected(s.pages, sp, r.soStart, r.soEnd, r.vmas, p);
      }
    }
  }

  /** Every page an access reaches into, reading or writing, is selected by the next finalization. */
  lemma {:induction false} AccessIsSelected(s: Session, captured: bool, sp: uint64, mem: Memory, requests: seq<Request>,
                                            run: seq<Event>, i: nat, j: nat, a: nat)
    requires Answers(s, captured, sp, mem, requests, run) && i < j < |requests|
    requires Reaches(requests[i], a) && requests[j].Finish?
    ensures EverSelected(run, PageAt(a))
    decreases |requests|
  {
    var r := requests[0];
    if r.Enter? {
      AccessIsSelected(s, true, Sp(captured, sp, r), mem, requests[1..], run, i - 1, j - 1, a);
    } else {
      EverSelectedFirst(run, PageAt(a));
      var s2 := SessionAfter(s, mem, run[0]);
      if i > 0 {
        AccessIsSelected(s2, captured, sp, MemoryThen(mem, r), requests[1..], run[1..], i - 1, j - 1, a);
      } else {
        TouchedExact(r.addr, r.size, PageAt(a));
        NotedIsSelected(s2, captured, sp, MemoryThen(mem, r), requests[1..], run[1..], j - 1, PageAt(a));
      }
    }
  }

  /**
   A new session through any requests at all: its files hold every page a finalization selected, each in one file,
   with the bytes it had when the session fixed them; every page that an access before a finalization reaches is among
   these; and if no native code wrote, every file is the memory of the first moment.
   */
  method Record(mem: Memory, requests: seq<Request>) returns (files: map<Range, seq<byte>>, ghost run: seq<Event>)
    requires AllFit(mem, requests)
    ensures LegalRun(mem, run) && Answers(EMPTY, false, 0, mem, requests, run)
    ensures Filed(files, Play(EMPTY, mem, run).image)
    ensures forall p: nat :: EverSelected(run, p) ==>
                               p in Play(EMPTY, mem, run).image
                                   && Frozen(mem, run, p) == Some(Play(EMPTY, mem, run).image[p])
    ensures forall p: nat :: EverSelected(run, p) <==> InSomeFile(files.Keys, p)
    ensures forall i, j, a: nat :: 0 <= i < j < |requests| && Reaches(requests[i], a) && requests[j].Finish? ==>
                                     InSomeFile(files.Keys, PageAt(a))
    ensures Quiet(requests) ==> forall r :: r in files ==> files[r] == MemoryBytes(mem, r.start / PAGE, r.end / PAGE)
  {
    var session := new DumpSession();
    run := ServeAll(session, mem, requests);
    files := session.files;
    FilesAreFrozen(files, mem, run);
    forall i, j, a: nat | 0 <= i < j < |requests| && Reaches(requests[i], a) && requests[j].Finish?
      ensures InSomeFile(files.Keys, PageAt(a))
    {
      AccessIsSelected(EMPTY, false, 0, mem, requests, run, i, j, a);
    }
    if Quiet(requests) {
      QuietIsAnnounced(EMPTY, false, 0, mem, requests, run);
      FilesAreEntry(files, mem, run);
    }
  }

  /** The pages of the files are those selected, and their bytes those at which they were fixed. */
  lemma FilesAreFrozen(files: map<Range, seq<byte>>, mem: Memory, run: seq<Event>)
    requires LegalRun(mem, run) && Filed(files, Play(EMPTY, mem, run).image)
    ensures forall p: nat :: EverSelected(run, p) ==>
                               p in Play(EMPTY, mem, run).image
                                   && Frozen(mem, run, p) == Some(Play(EMPTY, mem, run).image[p])
    ensures forall p: nat :: EverSelected(run, p) <==> InSomeFile(files.Keys, p)
  {
    var image := Play(EMPTY, mem, run).image;
    forall p: nat
      ensures EverSelected(run, p) ==> p in image && Frozen(mem, run, p) == Some(image[p])
      ensures EverSelected(run, p) <==> InSomeFile(files.Keys, p)
    {
      DumpIsFrozen(mem, run, p);
      assert p in image.Keys <==> EverSelected(run, p);
      if p in image.Keys {
        assert InSomeFile(files.Keys, p);
      }
    }
  }
}
