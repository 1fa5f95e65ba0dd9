/**
 The region tag of an address: a sorted snapshot of the maps shared by all threads under a lock, a generation number
 that tells when it is out of date, and in each thread the region hit last with the generation it was fetched for.
 */
module RegionCache {
  import opened Bytes

  datatype Region = Region(start: nat, end: nat, base: nat, perms: nat, named: bool, path: string)

  predicate Contains(r: Region, addr: nat) {
    r.start <= addr < r.end
  }

  /** The kernel's order: ascending, not empty, not overlapping. */
  predicate Sorted(rs: seq<Region>) {
    && (forall i :: 0 <= i < |rs| ==> rs[i].start < rs[i].end)
    && (forall i, j :: 0 <= i < j < |rs| ==> rs[i].end <= rs[j].start)
  }

  /** The region an address is in, by a scan. */
  function Scan(rs: seq<Region>, addr: nat): Option<Region> {
    if rs == [] then None else if Contains(rs[0], addr) then Some(rs[0]) else Scan(rs[1..], addr)
  }

  lemma {:induction false} ScanFinds(rs: seq<Region>, addr: nat)
    ensures Scan(rs, addr).Some? <==> exists i :: 0 <= i < |rs| && Contains(rs[i], addr)
    ensures Scan(rs, addr).Some? ==> Scan(rs, addr).value in rs && Contains(Scan(rs, addr).value, addr)
  {
    if rs != [] && !Contains(rs[0], addr) {
      ScanFinds(rs[1..], addr);
      forall i | 0 < i < |rs| && Contains(rs[i], addr) ensures Scan(rs, addr).Some? {
        assert rs[1..][i - 1] == rs[i];
      }
    }
  }

  /** Of sorted regions any that contains the address is the one the scan finds. */
  lemma ScanUnique(rs: seq<Region>, addr: nat, r: Region)
    requires Sorted(rs) && r in rs && Contains(r, addr)
    ensures Scan(rs, addr) == Some(r)
  {
    ScanFinds(rs, addr);
    var i :| 0 <= i < |rs| && rs[i] == r;
    var j :| 0 <= j < |rs| && rs[j] == Scan(rs, addr).value;
    assert i == j;
  }

  /** findPtrRegion: binary search, which finds a region if and only if the address is in one. */
  method FindPtrRegion(rs: seq<Region>, addr: nat) returns (r: Option<Region>)
    requires Sorted(rs)
    ensures r == Scan(rs, addr)
    ensures r.Some? <==> exists i :: 0 <= i < |rs| && Contains(rs[i], addr)
  {
    ScanFinds(rs, addr);
    var lo, hi := 0, |rs|;
    while lo < hi
      invariant 0 <= lo <= hi <= |rs|
      invariant forall i :: 0 <= i < |rs| && Contains(rs[i], addr) ==> lo <= i < hi
    {
      var mid := (lo + hi) / 2;
      if addr < rs[mid].start {
        hi := mid;
      } else if addr >= rs[mid].end {
        lo := mid + 1;
      } else {
        ScanUnique(rs, addr, rs[mid]);
        return Some(rs[mid]);
      }
    }
    return None;
  }

  // ---- the shared table and the threads, step by step ----

  /** A reading of the maps, and the generation at that moment. */
  datatype Reading = Reading(regions: seq<Region>, at: nat)

  /** A thread's last region, the generation it was stored under, and the reading it comes from. */
  datatype Kept = Kept(region: Region, gen: nat, from: Reading)

  datatype Phase =
    | Missed(cur: nat, addr: nat)             // waits for the lock; cur was read before
    | Holding(cur: nat, addr: nat, g: nat)    // holds it; g was read since

  /** maps and gen are the machine's, the rest is the tracer's; readings are all of the maps made so far. */
  datatype World = World(maps: seq<Region>, gen: nat, readings: seq<Reading>, builtGen: Option<nat>,
                         kept: map<nat, Kept>, phase: map<nat, Phase>)

  const START: World := World([], 0, [], None, map[], map[])

  datatype Event =
    | Change(maps: seq<Region>)               // the maps change, announced or not
    | Bump                                    // the next generation is published
    | Look(thread: nat, addr: nat)            // read the generation, try what is kept
    | Acquire(thread: nat)                    // take the lock, read the generation again
    | Finish(thread: nat, ok: bool)           // rebuild if need be, search, keep, release; ok: the maps can be opened

  /** The table: the last reading. */
  function Table(w: World): seq<Region> {
    if w.readings == [] then [] else w.readings[|w.readings| - 1].regions
  }

  predicate Hits(w: World, t: nat, addr: nat) {
    t in w.kept && w.kept[t].gen == w.gen && Contains(w.kept[t].region, addr)
  }

  predicate Locked(w: World) {
    exists t :: t in w.phase && w.phase[t].Holding?
  }

  ghost predicate Enabled(w: World, e: Event) {
    match e
    case Change(maps) => Sorted(maps)
    case Bump => true
    case Look(t, _) => t !in w.phase
    case Acquire(t) => t in w.phase && w.phase[t].Missed? && !Locked(w)
    case Finish(t, _) => t in w.phase && w.phase[t].Holding?
  }

  /**
   ensureRegionsFresh_locked for a generation just read; a file that cannot be opened leaves the table, not the stamp.
   */
  function Refreshed(w: World, g: nat, ok: bool): World {
    if Table(w) == [] || w.builtGen != Some(g) then
      w.(readings := if ok then w.readings + [Reading(w.maps, w.gen)] else w.readings, builtGen := Some(g))
    else w
  }

  /** What the search of the table leaves with the thread. */
  function Keep(r: World, t: nat, p: Phase): map<nat, Kept> {
    var found := Scan(Table(r), p.addr);
    if found.Some? && r.readings != [] then r.kept[t := Kept(found.value, p.cur, r.readings[|r.readings| - 1])]
    else r.kept
  }

  function Apply(w: World, e: Event): World {
    match e
    case Change(maps) => w.(maps := maps)
    case Bump => w.(gen := w.gen + 1)
    case Look(t, addr) => if Hits(w, t, addr) then w else w.(phase := w.phase[t := Missed(w.gen, addr)])
    case Acquire(t) =>
      if t in w.phase then w.(phase := w.phase[t := Holding(w.phase[t].cur, w.phase[t].addr, w.gen)]) else w
    case Finish(t, ok) =>
      if t in w.phase && w.phase[t].Holding? then
        var r := Refreshed(w, w.phase[t].g, ok);
        r.(phase := r.phase - {t}, kept := Keep(r, t, w.phase[t]))
      else w
  }

  /** The tag a step writes: none yet, or the region or its absence for an address asked for under a generation. */
  datatype Tag = Nothing | Tag(addr: nat, asked: nat, answer: Option<Region>)

  function TagOf(w: World, e: Event): Tag {
    match e
    case Look(t, addr) => if Hits(w, t, addr) then Tag(addr, w.gen, Some(w.kept[t].region)) else Nothing
    case Finish(t, ok) =>
      if t in w.phase && w.phase[t].Holding? then
        Tag(w.phase[t].addr, w.phase[t].cur, Scan(Table(Refreshed(w, w.phase[t].g, ok)), w.phase[t].addr))
      else Nothing
    case _ => Nothing
  }

  // ---- runs ----

  ghost predicate LegalRun(w: World, run: seq<Event>)
    decreases |run|
  {
    run == [] ||
    (LegalRun(w, run[..|run| - 1]) && Enabled(Play(w, run[..|run| - 1]), run[|run| - 1]))
  }

  function Play(w: World, run: seq<Event>): World
    decreases |run|
  {
    if run == [] then w else Apply(Play(w, run[..|run| - 1]), run[|run| - 1])
  }

  lemma PlayNext(w: World, run: seq<Event>, e: Event)
    ensures Play(w, run + [e]) == Apply(Play(w, run), e)
    ensures LegalRun(w, run + [e]) <==> LegalRun(w, run) && Enabled(Play(w, run), e)
  {
    assert (run + [e])[..|run|] == run;
  }

  // ---- what every step keeps, whether the maps can be opened or not ----

  /** Readings are sorted tables, in the order of their generations. */
  predicate ReadsOk(w: World) {
    && (forall i :: 0 <= i < |w.readings| ==> Sorted(w.readings[i].regions) && w.readings[i].at <= w.gen)
    && (forall i, j :: 0 <= i < j < |w.readings| ==> w.readings[i].at <= w.readings[j].at)
  }

  predicate KeptOk(w: World, k: Kept) {
    k.from in w.readings && k.region in k.from.regions && k.gen <= w.gen
  }

  predicate PhaseOk(w: World, p: Phase) {
    match p
    case Missed(cur, _) => cur <= w.gen
    case Holding(cur, _, g) => cur <= g <= w.gen
  }

  /** The lock has one holder. */
  predicate OneHolder(w: World) {
    forall t, u :: t in w.phase && u in w.phase && w.phase[t].Holding? && w.phase[u].Holding? ==> t == u
  }

  /** The last reading is older than the current generation, though the table is stamped with it. */
  predicate Stuck(w: World) {
    Table(w) != [] && w.builtGen == Some(w.gen) && w.readings != [] && w.readings[|w.readings| - 1].at < w.gen
  }

  /**
   A region kept under the current generation: whoever holds the lock has read that generation too, and if the
   region comes from an older reading, no newer one will be made before the next generation.
   */
  predicate CurrentOk(w: World, k: Kept) {
    k.gen == w.gen ==>
      && (forall t :: t in w.phase && w.phase[t].Holding? ==> w.phase[t].g == w.gen)
      && (k.from.at < w.gen ==> Stuck(w))
  }

  predicate Inv(w: World) {
    && Sorted(w.maps) && ReadsOk(w) && OneHolder(w)
    && (forall t :: t in w.kept ==> KeptOk(w, w.kept[t]) && CurrentOk(w, w.kept[t]))
    && (forall t :: t in w.phase ==> PhaseOk(w, w.phase[t]))
  }

  lemma TableSorted(w: World)
    requires ReadsOk(w)
    ensures Sorted(Table(w))
  {
  }

  lemma RefreshKeeps(w: World, t: nat, ok: bool)
    requires Inv(w) && t in w.phase && w.phase[t].Holding?
    ensures Inv(Refreshed(w, w.phase[t].g, ok))
  {
    var p := w.phase[t];
    assert PhaseOk(w, p);
    var r := Refreshed(w, p.g, ok);
    forall u | u in r.kept ensures KeptOk(r, r.kept[u]) && CurrentOk(r, r.kept[u]) {
      assert KeptOk(w, w.kept[u]) && CurrentOk(w, w.kept[u]);
      if w.kept[u].gen == w.gen {
        assert p.g == w.gen;
      }
    }
  }

  /** What the thread now keeps is of the last reading, and its generation was read before the lock's holder's. */
  lemma KeepKeeps(w: World, t: nat, ok: bool)
    requires Inv(w) && t in w.phase && w.phase[t].Holding?
    ensures var r := Refreshed(w, w.phase[t].g, ok); var kept := Keep(r, t, w.phase[t]);
            forall u :: u in kept ==> KeptOk(r, kept[u]) && CurrentOk(r, kept[u])
  {
    var p := w.phase[t];
    var r := Refreshed(w, p.g, ok);
    RefreshKeeps(w, t, ok);
    ScanFinds(Table(r), p.addr);
    assert PhaseOk(w, p);
    var kept := Keep(r, t, p);
    forall u | u in kept ensures KeptOk(r, kept[u]) && CurrentOk(r, kept[u]) {
      if u in r.kept && kept[u] == r.kept[u] {
        assert KeptOk(r, r.kept[u]) && CurrentOk(r, r.kept[u]);
      }
    }
  }

  /** Releasing the lock keeps the invariant. */
  lemma ReleaseKeeps(r: World, t: nat, kept: map<nat, Kept>)
    requires Inv(r) && forall u :: u in kept ==> KeptOk(r, kept[u]) && CurrentOk(r, kept[u])
    ensures Inv(r.(phase := r.phase - {t}, kept := kept))
  {
    var v := r.(phase := r.phase - {t}, kept := kept);
    forall u | u in v.kept ensures KeptOk(v, v.kept[u]) && CurrentOk(v, v.kept[u]) {
      assert KeptOk(r, kept[u]) && CurrentOk(r, kept[u]);
    }
  }

  lemma FinishKeeps(w: World, t: nat, ok: bool)
    requires Inv(w) && t in w.phase && w.phase[t].Holding?
    ensures Inv(Apply(w, Finish(t, ok)))
  {
    var r := Refreshed(w, w.phase[t].g, ok);
    RefreshKeeps(w, t, ok);
    KeepKeeps(w, t, ok);
    ReleaseKeeps(r, t, Keep(r, t, w.phase[t]));
  }

  lemma ChangeKeeps(w: World, maps: seq<Region>)
    requires Inv(w) && Sorted(maps)
    ensures Inv(w.(maps := maps))
  {
    var v := w.(maps := maps);
    forall u | u in v.kept ensures KeptOk(v, v.kept[u]) && CurrentOk(v, v.kept[u]) {
      assert KeptOk(w, w.kept[u]) && CurrentOk(w, w.kept[u]);
    }
  }

  lemma BumpKeeps(w: World)
    requires Inv(w)
    ensures Inv(w.(gen := w.gen + 1))
  {
    var v := w.(gen := w.gen + 1);
    forall u | u in v.kept ensures KeptOk(v, v.kept[u]) && CurrentOk(v, v.kept[u]) {
      assert KeptOk(w, w.kept[u]);
    }
    forall u | u in v.phase ensures PhaseOk(v, v.phase[u]) {
      assert PhaseOk(w, w.phase[u]);
    }
  }

  /** A thread that waits, or takes the free lock and reads the generation. */
  lemma PhaseKeeps(w: World, t: nat, p: Phase)
    requires Inv(w) && PhaseOk(w, p) && (p.Holding? ==> p.g == w.gen && !Locked(w))
    requires t in w.phase ==> !w.phase[t].Holding?
    ensures Inv(w.(phase := w.phase[t := p]))
  {
    var v := w.(phase := w.phase[t := p]);
    forall u | u in v.kept ensures KeptOk(v, v.kept[u]) && CurrentOk(v, v.kept[u]) {
      assert KeptOk(w, w.kept[u]) && CurrentOk(w, w.kept[u]);
    }
    forall u | u in v.phase ensures PhaseOk(v, v.phase[u]) {
      assert u != t ==> PhaseOk(w, w.phase[u]);
    }
  }

  /** Every step keeps the invariant. */
  lemma StepKeeps(w: World, e: Event)
    requires Inv(w) && Enabled(w, e)
    ensures Inv(Apply(w, e))
  {
    match e
    case Change(maps) => ChangeKeeps(w, maps);
    case Bump => BumpKeeps(w);
    case Look(t, addr) =>
      if !Hits(w, t, addr) {
        PhaseKeeps(w, t, Missed(w.gen, addr));
      }
    case Acquire(t) =>
      assert PhaseOk(w, w.phase[t]);
      PhaseKeeps(w, t, Holding(w.phase[t].cur, w.phase[t].addr, w.gen));
    case Finish(t, ok) => FinishKeeps(w, t, ok);
  }

  lemma {:induction false} RunKeeps(run: seq<Event>)
    requires LegalRun(START, run)
    ensures Inv(Play(START, run))
    decreases |run|
  {
    if run != [] {
      RunKeeps(run[..|run| - 1]);
      StepKeeps(Play(START, run[..|run| - 1]), run[|run| - 1]);
    }
  }

  // ---- coherence ----

  /** The maps as they were, and the generation, at some moment of the run. */
  ghost predicate Happened(run: seq<Event>, s: Reading) {
    exists k :: 0 <= k <= |run| && s == Reading(Play(START, run[..k]).maps, Play(START, run[..k]).gen)
  }

  lemma HappenedStill(run: seq<Event>, e: Event, s: Reading)
    requires Happened(run, s)
    ensures Happened(run + [e], s)
  {
    var k :| 0 <= k <= |run| && s == Reading(Play(START, run[..k]).maps, Play(START, run[..k]).gen);
    assert (run + [e])[..k] == run[..k];
  }

  /** Readings are not made up: each is the maps of a moment of the run, under the generation of that moment. */
  lemma {:induction false} ReadsHappened(run: seq<Event>)
    ensures forall s :: s in Play(START, run).readings ==> Happened(run, s)
    decreases |run|
  {
    if run != [] {
      var front, e := run[..|run| - 1], run[|run| - 1];
      ReadsHappened(front);
      assert run == front + [e];
      forall s | s in Play(START, run).readings ensures Happened(run, s) {
        if s in Play(START, front).readings {
          HappenedStill(front, e, s);
        } else {
          assert s == Reading(Play(START, run[..|front|]).maps, Play(START, run[..|front|]).gen);
        }
      }
    }
  }

  /** Some reading was made at or after the publication of a generation. */
  predicate ReadSince(w: World, gen: nat) {
    exists s :: s in w.readings && s.at >= gen
  }

  /** A tag is what a search of some reading made since the generation it was asked under gives. */
  ghost predicate Coherent(w: World, tag: Tag) {
    tag.Tag? ==> exists s :: s in w.readings && s.at >= tag.asked && tag.answer == Scan(s.regions, tag.addr)
  }

  /** If any reading is as new as a generation, the last one is. */
  lemma LastSince(w: World, gen: nat)
    requires ReadsOk(w) && ReadSince(w, gen)
    ensures w.readings != [] && w.readings[|w.readings| - 1].at >= gen
  {
  }

  lemma HitExact(w: World, t: nat, addr: nat)
    requires Inv(w) && Hits(w, t, addr)
    ensures Coherent(w, TagOf(w, Look(t, addr))) <==> ReadSince(w, w.gen)
  {
    var k := w.kept[t];
    assert KeptOk(w, k) && CurrentOk(w, k);
    if ReadSince(w, w.gen) {
      LastSince(w, w.gen);
      ScanUnique(k.from.regions, addr, k.region);
      assert k.from in w.readings && k.from.at >= w.gen && Some(k.region) == Scan(k.from.regions, addr);
    }
  }

  lemma FinishExact(w: World, t: nat, ok: bool)
    requires Inv(w) && t in w.phase && w.phase[t].Holding?
    ensures var v := Apply(w, Finish(t, ok)); Coherent(v, TagOf(w, Finish(t, ok))) <==> ReadSince(v, w.phase[t].cur)
  {
    var v := Apply(w, Finish(t, ok));
    StepKeeps(w, Finish(t, ok));
    if ReadSince(v, w.phase[t].cur) {
      LastSince(v, w.phase[t].cur);
      var s := v.readings[|v.readings| - 1];
      assert s in v.readings && TagOf(w, Finish(t, ok)).answer == Scan(s.regions, w.phase[t].addr);
    }
  }

  /**
   Coherence, exactly. In any run, whatever the interleaving of changes, new generations and lookups by any number
   of threads and whether the maps can be opened or not: a tag, from the thread's kept region or from the table, is
   what some reading since the generation it was asked under gives if and only if there was such a reading.
   */
  lemma TagExact(run: seq<Event>, e: Event)
    requires LegalRun(START, run) && Enabled(Play(START, run), e)
    ensures var w := Play(START, run); var tag := TagOf(w, e);
            tag.Tag? ==> (Coherent(Apply(w, e), tag) <==> ReadSince(Apply(w, e), tag.asked))
  {
    RunKeeps(run);
    var w := Play(START, run);
    match e
    case Look(t, addr) =>
      if Hits(w, t, addr) {
        HitExact(w, t, addr);
      }
    case Finish(t, ok) => FinishExact(w, t, ok);
    case _ =>
  }

  // ---- runs in which the maps can always be opened ----

  predicate Opens(e: Event) {
    e.Finish? ==> e.ok
  }

  /** A stamp, and a kept region, always stands for a reading as new. */
  predicate NeverFailed(w: World) {
    && (w.builtGen.Some? ==> ReadSince(w, w.builtGen.value))
    && (forall t :: t in w.kept ==> w.kept[t].from.at >= w.kept[t].gen)
  }

  lemma OpenedRefresh(w: World, t: nat)
    requires Inv(w) && NeverFailed(w) && t in w.phase && w.phase[t].Holding?
    ensures var r := Refreshed(w, w.phase[t].g, true);
            ReadSince(r, w.phase[t].g) && w.phase[t].cur <= w.phase[t].g
            && r.readings != [] && r.readings[|r.readings| - 1].at >= w.phase[t].g
  {
    var p := w.phase[t];
    var r := Refreshed(w, p.g, true);
    assert PhaseOk(w, p);
    RefreshKeeps(w, t, true);
    if Table(w) == [] || w.builtGen != Some(p.g) {
      assert r.readings[|w.readings|] in r.readings;
    }
    LastSince(r, p.g);
  }

  lemma OpenedStep(w: World, e: Event)
    requires Inv(w) && NeverFailed(w) && Enabled(w, e) && Opens(e)
    ensures NeverFailed(Apply(w, e))
    ensures TagOf(w, e).Tag? ==> ReadSince(Apply(w, e), TagOf(w, e).asked)
  {
    match e
    case Look(t, addr) =>
      if Hits(w, t, addr) {
        assert KeptOk(w, w.kept[t]) && w.kept[t].from.at >= w.gen;
      }
    case Finish(t, _) =>
      OpenedRefresh(w, t);
      var v := Apply(w, e);
      assert v.readings[|v.readings| - 1] in v.readings;
    case _ =>
  }

  lemma {:induction false} OpenedRun(run: seq<Event>)
    requires LegalRun(START, run) && forall i :: 0 <= i < |run| ==> Opens(run[i])
    ensures NeverFailed(Play(START, run))
    decreases |run|
  {
    if run != [] {
      var front, e := run[..|run| - 1], run[|run| - 1];
      assert Opens(e);
      OpenedRun(front);
      RunKeeps(front);
      OpenedStep(Play(START, front), e);
    }
  }

  /** If the maps could be opened whenever they were to be read, every tag of the run is coherent. */
  lemma RunCoherent(run: seq<Event>, e: Event)
    requires LegalRun(START, run) && forall i :: 0 <= i < |run| ==> Opens(run[i])
    requires Enabled(Play(START, run), e) && Opens(e)
    ensures Coherent(Apply(Play(START, run), e), TagOf(Play(START, run), e))
  {
    OpenedRun(run);
    RunKeeps(run);
    OpenedStep(Play(START, run), e);
    TagExact(run, e);
  }

  /**
   One failed rebuild in a run where all goes well before it: a region is mapped and read, then goes away; the next
   generation is published, the maps cannot be opened, and from then on the old region answers for the new generation.
   */
  lemma FailedRebuildIsStale()
    ensures var r := Region(0x1000, 0x2000, 0x1000, 5, true, "lib.so");
            var good := [Change([r])] + Lookup(0, 0x5000, true) + [Change([]), Bump];
            var run := good + Lookup(0, 0x1000, false);
            var v := Play(START, run); var tag := TagOf(v, Look(0, 0x1800));
            && LegalRun(START, run) && NeverFailed(Play(START, good)) && v.maps == [] && v.gen == 1
            && tag == Tag(0x1800, 1, Some(r)) && !Coherent(v, tag)
  {
    var r := Region(0x1000, 0x2000, 0x1000, 5, true, "lib.so");
    var mapped := [Change([r])] + Lookup(0, 0x5000, true);
    OneRegionRead(r);
    OneRegionGone(r, mapped);
    FailedLookup(r, mapped + [Change([]), Bump]);
  }

  /** A world with one region, read at generation 0 and gone at generation 1. */
  function OneRegion(r: Region): World {
    World([r], 0, [Reading([r], 0)], Some(0), map[], map[])
  }

  function Gone(r: Region): World {
    World([], 1, [Reading([r], 0)], Some(0), map[], map[])
  }

  lemma OneRegionRead(r: Region)
    requires r.start < r.end <= 0x5000
    ensures var mapped := [Change([r])] + Lookup(0, 0x5000, true);
            LegalRun(START, mapped) && Play(START, mapped) == OneRegion(r)
  {
    var w := START.(maps := [r]);
    PlayNext(START, [], Change([r]));
    assert [] + [Change([r])] == [Change([r])];
    LookupSteps(START, [Change([r])], w, 0, 0x5000, true);
    assert Scan([r], 0x5000) == None;
    assert LookedUp(w, 0, 0x5000, true) == OneRegion(r);
  }

  lemma OneRegionGone(r: Region, before: seq<Event>)
    requires r.start < r.end && LegalRun(START, before) && Play(START, before) == OneRegion(r)
    ensures var good := before + [Change([]), Bump];
            LegalRun(START, good) && Play(START, good) == Gone(r) && NeverFailed(Gone(r))
  {
    PlayNext(START, before, Change([]));
    PlayNext(START, before + [Change([])], Bump);
    assert before + [Change([])] + [Bump] == before + [Change([]), Bump];
    assert OneRegion(r).readings[0] in OneRegion(r).readings;
  }

  lemma FailedLookup(r: Region, before: seq<Event>)
    requires LegalRun(START, before) && Play(START, before) == Gone(r) && r.start == 0x1000 && r.end == 0x2000
    ensures var run := before + Lookup(0, 0x1000, false);
            var v := Play(START, run); var tag := TagOf(v, Look(0, 0x1800));
            LegalRun(START, run) && v.maps == [] && v.gen == 1 && tag == Tag(0x1800, 1, Some(r)) && !Coherent(v, tag)
  {
    var w := Gone(r);
    assert Table(w) == [r] && Scan([r], 0x1000) == Some(r);
    LookupSteps(START, before, w, 0, 0x1000, false);
    var v := LookedUp(w, 0, 0x1000, false);
    assert v.kept == map[0 := Kept(r, 1, Reading([r], 0))] && v.readings == [Reading([r], 0)];
  }

  /** A lookup that misses, with nobody in between. */
  function Lookup(t: nat, addr: nat, ok: bool): seq<Event> {
    [Look(t, addr), Acquire(t), Finish(t, ok)]
  }

  function LookedUp(w: World, t: nat, addr: nat, ok: bool): World {
    var r := Refreshed(w, w.gen, ok);
    r.(kept := Keep(r, t, Holding(w.gen, addr, w.gen)))
  }

  function Waits(w: World, t: nat, addr: nat): World {
    w.(phase := map[t := Missed(w.gen, addr)])
  }

  function Holds(w: World, t: nat, addr: nat): World {
    w.(phase := map[t := Holding(w.gen, addr, w.gen)])
  }

  lemma LookWaits(w: World, t: nat, addr: nat)
    requires w.phase == map[] && !Hits(w, t, addr)
    ensures Enabled(w, Look(t, addr)) && Apply(w, Look(t, addr)) == Waits(w, t, addr)
  {
  }

  lemma AcquireHolds(w: World, t: nat, addr: nat)
    ensures Enabled(Waits(w, t, addr), Acquire(t)) && Apply(Waits(w, t, addr), Acquire(t)) == Holds(w, t, addr)
  {
    var v := Waits(w, t, addr);
    assert v.phase[t := Holding(w.gen, addr, w.gen)] == Holds(w, t, addr).phase;
  }

  lemma FinishLooksUp(w: World, t: nat, addr: nat, ok: bool)
    requires w.phase == map[]
    ensures var v := Holds(w, t, addr);
            && Enabled(v, Finish(t, ok)) && Apply(v, Finish(t, ok)) == LookedUp(w, t, addr, ok)
            && TagOf(v, Finish(t, ok)) == Tag(addr, w.gen, Scan(Table(LookedUp(w, t, addr, ok)), addr))
  {
    var v := Holds(w, t, addr);
    assert v.phase - {t} == map[];
    assert Refreshed(v, w.gen, ok) == Refreshed(w, w.gen, ok).(phase := v.phase);
  }

  lemma LookupSteps(w0: World, before: seq<Event>, w: World, t: nat, addr: nat, ok: bool)
    requires LegalRun(w0, before) && Play(w0, before) == w && w.phase == map[] && !Hits(w, t, addr)
    ensures LegalRun(w0, before + Lookup(t, addr, ok))
            && Play(w0, before + Lookup(t, addr, ok)) == LookedUp(w, t, addr, ok)
    ensures TagOf(Play(w0, before + [Look(t, addr), Acquire(t)]), Finish(t, ok))
            == Tag(addr, w.gen, Scan(Table(LookedUp(w, t, addr, ok)), addr))
  {
    var e1, e2, e3 := Look(t, addr), Acquire(t), Finish(t, ok);
    LookWaits(w, t, addr);
    PlayNext(w0, before, e1);
    AcquireHolds(w, t, addr);
    PlayNext(w0, before + [e1], e2);
    FinishLooksUp(w, t, addr, ok);
    PlayNext(w0, before + [e1] + [e2], e3);
    assert before + [e1] + [e2] == before + [e1, e2];
    assert before + [e1] + [e2] + [e3] == before + Lookup(t, addr, ok);
  }

  // ---- the variables and the code that changes them ----

  /** The shared table; the lock around its use is the caller's. */
  class RegionTable {
    var regions: seq<Region>
    var builtGen: Option<nat>

    constructor ()
      ensures regions == [] && builtGen == None
    {
      regions, builtGen := [], None;
    }

    /** ensureRegionsFresh_locked; `reading` is what reading the maps would give, None if they cannot be opened. */
    method EnsureFresh(g: nat, reading: Option<seq<Region>>)
      modifies this
      ensures builtGen == Stamped(old(regions), old(builtGen), g)
      ensures regions == NextTable(old(regions), old(builtGen), g, reading)
      ensures builtGen == Some(g)
      ensures old(regions) != [] && old(builtGen) == Some(g) ==> regions == old(regions)
      ensures old(regions) == [] || old(builtGen) != Some(g) ==>
                regions == if reading.Some? then reading.value else old(regions)
    {
      if regions == [] || builtGen != Some(g) {
        if reading.Some? {
          regions := reading.value;
        }
        builtGen := Some(g);
      }
    }
  }

  /** One thread's variables. */
  class ThreadTag {
    var s: nat
    var e: nat
    var region: Option<Region>
    var gen: Option<nat>

    constructor ()
      ensures Valid() && Mine() == None
    {
      s, e, region, gen := 1, 0, None, None;
    }

    /** The bounds are the region's; before the first region no address is between them. */
    ghost predicate Valid()
      reads this
    {
      match region
      case Some(r) => gen.Some? && s == r.start && e == r.end
      case None => gen.None? && s == 1 && e == 0
    }

    /** The region kept and its generation. */
    ghost function Mine(): Option<(Region, nat)>
      requires Valid()
      reads this
    {
      if region.Some? then Some((region.value, gen.value)) else None
    }

    /** The part behind the lock: the table is brought up to date and searched, and what is found is kept. */
    method Refetch(table: RegionTable, addr: nat, g: nat, reading: Option<seq<Region>>) returns (tag: Option<Region>)
      requires Valid() && Sorted(table.regions) && (reading.Some? ==> Sorted(reading.value))
      modifies this, table
      ensures Valid() && tag == Scan(table.regions, addr)
      ensures Mine() == if tag.Some? then Some((tag.value, g)) else old(Mine())
      ensures table.builtGen == Stamped(old(table.regions), old(table.builtGen), g)
      ensures table.regions == NextTable(old(table.regions), old(table.builtGen), g, reading)
    {
      table.EnsureFresh(g, reading);
      tag := FindPtrRegion(table.regions, addr);
      if tag.Some? {
        s, e, region, gen := tag.value.start, tag.value.end, tag, Some(g);
      }
    }

    /**
     appendRegionTag when no other thread comes between: what it does to the table and to the thread's variables is
     what the steps do, and it writes the tag they write. Addresses lose their top byte; small ones get no tag.
     */
    method AppendRegionTag(table: RegionTable, raw: nat, ok: bool, ghost w: World, ghost t: nat, gen0: nat,
                           maps: seq<Region>)
      returns (tag: Option<Region>, ghost v: World)
      requires Inv(w) && w.gen == gen0 && w.maps == maps && w.phase == map[]
      requires Valid() && Mine() == KeptBy(w, t) && table.regions == Table(w) && table.builtGen == w.builtGen
      modifies this, table
      ensures LegalRun(w, TagRun(w, t, raw % ADDR_SPACE, ok)) && v == Play(w, TagRun(w, t, raw % ADDR_SPACE, ok))
      ensures Valid() && Mine() == KeptBy(v, t) && table.regions == Table(v) && table.builtGen == v.builtGen
      ensures raw % 0x100_0000_0000_0000 < 0x1000 ==> tag == None
      ensures var addr := raw % 0x100_0000_0000_0000;
              addr >= 0x1000 ==> LastTag(w, TagRun(w, t, addr, ok)) == Tag(addr, w.gen, tag)
    {
      var addr := raw % ADDR_SPACE;
      TagRunEnds(w, t, addr, ok);
      v := Play(w, TagRun(w, t, addr, ok));
      if addr < 0x1000 {
        return None, v;
      }
      if gen == Some(gen0) && s <= addr < e {
        return region, v;
      }
      TableSorted(w);
      LookedUpParts(w, t, addr, ok);
      tag := Refetch(table, addr, gen0, if ok then Some(maps) else None);
    }
  }

  function Stamped(regions: seq<Region>, builtGen: Option<nat>, g: nat): Option<nat> {
    if regions == [] || builtGen != Some(g) then Some(g) else builtGen
  }

  function NextTable(regions: seq<Region>, builtGen: Option<nat>, g: nat, reading: Option<seq<Region>>): seq<Region> {
    if reading.Some? && (regions == [] || builtGen != Some(g)) then reading.value else regions
  }

  function KeptBy(w: World, t: nat): Option<(Region, nat)> {
    if t in w.kept then Some((w.kept[t].region, w.kept[t].gen)) else None
  }

  lemma LookedUpParts(w: World, t: nat, addr: nat, ok: bool)
    ensures var v := LookedUp(w, t, addr, ok); var found := Scan(Table(v), addr);
            && v.builtGen == Stamped(Table(w), w.builtGen, w.gen)
            && Table(v) == NextTable(Table(w), w.builtGen, w.gen, if ok then Some(w.maps) else None)
            && KeptBy(v, t) == if found.Some? then Some((found.value, w.gen)) else KeptBy(w, t)
  {
  }

  const ADDR_SPACE: nat := 0x100_0000_0000_0000

  /** The steps of one call that nobody interrupts. */
  function TagRun(w: World, t: nat, addr: nat, ok: bool): seq<Event> {
    if addr < 0x1000 then [] else if Hits(w, t, addr) then [Look(t, addr)] else Lookup(t, addr, ok)
  }

  /** The tag that the last step of a run writes. */
  function LastTag(w: World, run: seq<Event>): Tag {
    if run == [] then Nothing else TagOf(Play(w, run[..|run| - 1]), run[|run| - 1])
  }

  lemma TagRunEnds(w: World, t: nat, addr: nat, ok: bool)
    requires w.phase == map[]
    ensures var run := TagRun(w, t, addr, ok);
            var v := if addr < 0x1000 || Hits(w, t, addr) then w else LookedUp(w, t, addr, ok);
            && LegalRun(w, run) && Play(w, run) == v
            && (addr >= 0x1000 ==>
                  LastTag(w, run)
                      == Tag(addr, w.gen, if Hits(w, t, addr) then Some(w.kept[t].region) else Scan(Table(v), addr)))
  {
    if addr >= 0x1000 {
      if Hits(w, t, addr) {
        PlayNext(w, [], Look(t, addr));
        assert [] + [Look(t, addr)] == [Look(t, addr)] && [Look(t, addr)][..0] == [];
      } else {
        LookupSteps(w, [], w, t, addr, ok);
        assert [] + Lookup(t, addr, ok) == Lookup(t, addr, ok)
            && Lookup(t, addr, ok)[..2] == [] + [Look(t, addr), Acquire(t)];
      }
    }
  }
}
