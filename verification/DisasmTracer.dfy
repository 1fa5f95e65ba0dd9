/** The tracer's use of the instruction cache, one instruction a step: look up, decode on a miss, print, remember. */
module DisasmTracer {
  import opened Bytes
  import opened DisasmModel
  import opened DisasmCache

  // ---- what the sessions of a thread do with the one cache ----

  datatype Did =
    | Stepped(session: nat, insn: Insn)       // printAssemble2 with the instruction it got
    | CleanedUp                               // the periodic trim
    | FreedTrace                              // freeTrace, which clears the cache

  predicate Fits(d: Did) {
    d.Stepped? ==> d.insn.addr < TWO64
  }

  function EventOf(d: Did): Event {
    match d
    case Stepped(_, insn) => Used(insn)
    case CleanedUp => Trimmed
    case FreedTrace => Cleared
  }

  predicate Concerns(d: Did, s: nat)
    requires Fits(d)
  {
    d.Stepped? ==> HashAddr(d.insn.addr) == s
  }

  ghost predicate AllFit(log: seq<Did>) {
    forall i :: 0 <= i < |log| ==> Fits(log[i])
  }

  /** The part of a log that concerns set s: the uses of addresses that hash to it, every trim and every clearing. */
  ghost function SetEvents(log: seq<Did>, s: nat): seq<Event>
    requires AllFit(log)
    decreases |log|
  {
    if log == [] then []
    else
      var last := log[|log| - 1];
      SetEvents(log[..|log| - 1], s) + if Concerns(last, s) then [EventOf(last)] else []
  }

  lemma SetEventsNext(log: seq<Did>, d: Did, s: nat)
    requires AllFit(log) && Fits(d)
    ensures AllFit(log + [d])
    ensures SetEvents(log + [d], s) == if Concerns(d, s) then SetEvents(log, s) + [EventOf(d)] else SetEvents(log, s)
  {
    assert (log + [d])[..|log|] == log;
  }

  /** What happened since session k's last step. */
  function SinceStep(log: seq<Did>, k: nat): seq<Did>
    decreases |log|
  {
    if log == [] then []
    else
      var last := log[|log| - 1];
      if last.Stepped? && last.session == k then [] else SinceStep(log[..|log| - 1], k) + [last]
  }

  lemma SinceNext(log: seq<Did>, d: Did, k: nat)
    ensures SinceStep(log + [d], k) == if d.Stepped? && d.session == k then [] else SinceStep(log, k) + [d]
  {
    assert (log + [d])[..|log|] == log;
  }

  lemma {:induction false} SinceFits(log: seq<Did>, k: nat)
    requires AllFit(log)
    ensures AllFit(SinceStep(log, k))
    decreases |log|
  {
    if log != [] {
      SinceFits(log[..|log| - 1], k);
    }
  }

  /** The sets hold what the log makes of them; register lists kept beside the entries are not looked at. */
  ghost predicate Tracks(lines: seq<Line>, log: seq<Did>) {
    && |lines| == NUM_SETS && AllFit(log)
    && forall s :: 0 <= s < NUM_SETS ==> SameInsns(lines[s], Run(EMPTY_LINE, SetEvents(log, s)))
  }

  lemma {:induction false} FindSame(a: Line, b: Line, addr: nat, w: nat)
    requires SameInsns(a, b) && w <= WAYS
    ensures FindFrom(a, addr, w) == FindFrom(b, addr, w)
    decreases WAYS - w
  {
    if w < WAYS && !Has(a[w], addr) {
      FindSame(a, b, addr, w + 1);
    }
  }

  lemma UseSame(a: Line, b: Line, insn: Insn)
    requires SameInsns(a, b)
    ensures SameInsns(Use(a, insn), Use(b, insn))
  {
    FindSame(a, b, insn.addr, 0);
    var w := Find(a, insn.addr);
    if w < WAYS {
      PromoteWays(a, w);
      PromoteWays(b, w);
    }
  }

  lemma TrimSame(a: Line, b: Line)
    requires SameInsns(a, b)
    ensures SameInsns(Trim(a), Trim(b))
  {
  }

  lemma SameTrans(a: Line, b: Line, c: Line)
    requires SameInsns(a, b) && SameInsns(b, c)
    ensures SameInsns(a, c)
  {
  }

  lemma AddressesSame(a: Line, b: Line)
    requires SameInsns(a, b)
    ensures Addresses(a) == Addresses(b)
  {
  }

  lemma AfterSame(a: Line, b: Line, e: Event)
    requires SameInsns(a, b)
    ensures SameInsns(After(a, e), After(b, e))
  {
    match e
    case Used(insn) => UseSame(a, b, insn);
    case Trimmed => TrimSame(a, b);
    case Cleared =>
  }

  /** Each set that something concerns changes as a set does, the others stay. */
  ghost predicate Moves(lines: seq<Line>, d: Did, next: seq<Line>)
    requires Fits(d)
  {
    && |lines| == |next| == NUM_SETS
    && forall s :: 0 <= s < NUM_SETS ==>
                     SameInsns(next[s], if Concerns(d, s) then After(lines[s], EventOf(d)) else lines[s])
  }

  lemma TracksNext(lines: seq<Line>, log: seq<Did>, d: Did, next: seq<Line>)
    requires Tracks(lines, log) && Fits(d) && Moves(lines, d, next)
    ensures Tracks(next, log + [d])
  {
    SetEventsNext(log, d, 0);
    forall s | 0 <= s < NUM_SETS ensures SameInsns(next[s], Run(EMPTY_LINE, SetEvents(log + [d], s))) {
      SetEventsNext(log, d, s);
      var now := Run(EMPTY_LINE, SetEvents(log, s));
      if Concerns(d, s) {
        RunNext(SetEvents(log, s), EventOf(d));
        AfterSame(lines[s], now, EventOf(d));
        SameTrans(next[s], After(lines[s], EventOf(d)), After(now, EventOf(d)));
      } else {
        SameTrans(next[s], lines[s], now);
      }
    }
  }

  lemma RunNext(events: seq<Event>, e: Event)
    ensures Run(EMPTY_LINE, events + [e]) == After(Run(EMPTY_LINE, events), e)
  {
    assert (events + [e])[..|events|] == events;
  }

  lemma BeginsDistinct(a: seq<nat>, s: seq<nat>)
    requires Begins(a, s) && Distinct(s)
    ensures Distinct(a)
  {
  }

  lemma TracksEmpty(lines: seq<Line>)
    requires |lines| == NUM_SETS && AllEmpty(lines)
    ensures Tracks(lines, [])
  {
  }

  /**
   After anything the sessions did, each set holds the addresses of that set used last, most recent first and none
   twice; with nothing trimmed or cleared, exactly the last four distinct ones or all there were.
   */
  lemma TracksLru(lines: seq<Line>, log: seq<Did>, s: nat)
    requires Tracks(lines, log) && s < NUM_SETS
    ensures var a, r := Addresses(lines[s]), Recent(SetEvents(log, s)); Begins(a, r) && Distinct(a)
    ensures (forall i :: 0 <= i < |log| ==> log[i].Stepped?) ==>
                Addresses(lines[s]) == FirstOf(Recent(SetEvents(log, s)), WAYS)
  {
    var mine := SetEvents(log, s);
    RunIsRecent(mine);
    RecentDistinct(mine);
    AddressesSame(lines[s], Run(EMPTY_LINE, mine));
    BeginsDistinct(Addresses(lines[s]), Recent(mine));
    if forall i :: 0 <= i < |log| ==> log[i].Stepped? {
      NoTrimInSet(log, s);
      RunIsLastFour(mine);
    }
  }

  lemma {:induction false} NoTrimInSet(log: seq<Did>, s: nat)
    requires AllFit(log) && forall i :: 0 <= i < |log| ==> log[i].Stepped?
    ensures NoTrim(SetEvents(log, s))
    decreases |log|
  {
    if log != [] {
      assert log[|log| - 1].Stepped?;
      NoTrimInSet(log[..|log| - 1], s);
    }
  }

  // ---- the remembered instructions ----

  /** What a slot holds has not been freed. */
  lemma HeldIsLive(lines: seq<Line>, freed: seq<Insn>, handed: multiset<Insn>, s: nat, w: nat)
    requires Sound(lines, freed, handed) && s < NUM_SETS && w < WAYS && lines[s][w].insn.Some?
    ensures lines[s][w].insn.value !in freed
  {
    TotalHolds(lines, s, w);
    var i := lines[s][w].insn.value;
    assert (Total(lines) + multiset(freed))[i] <= 1;
  }

  lemma {:induction false} TotalLacks(lines: seq<Line>, x: Insn)
    requires forall s :: 0 <= s < |lines| ==> Absent(lines[s], x)
    ensures x !in Total(lines)
  {
    if lines != [] {
      forall s | 0 <= s < |lines[1..]| ensures Absent(lines[1..][s], x) {
        assert Absent(lines[s + 1], x);
      }
      TotalLacks(lines[1..], x);
      OwnedLacks(lines[0], x);
    }
  }

  lemma OwnedLacks(line: Line, x: Insn)
    requires Absent(line, x)
    ensures x !in Owned(line)
  {
    assert x !in One(line[0]) && x !in One(line[1]) && x !in One(line[2]) && x !in One(line[3]);
  }

  /** An instruction handed to the cache is freed if and only if its set does not hold it. */
  lemma FreedIffAbsent(lines: seq<Line>, freed: seq<Insn>, handed: multiset<Insn>, x: Insn)
    requires Sound(lines, freed, handed) && x in handed && x.addr < TWO64
    ensures x in freed <==> Absent(lines[HashAddr(x.addr)], x)
  {
    var h := HashAddr(x.addr);
    if Absent(lines[h], x) {
      forall s | 0 <= s < NUM_SETS ensures Absent(lines[s], x) {
        assert SetOk(lines[s], s);
      }
      TotalLacks(lines, x);
      assert x in Total(lines) + multiset(freed);
    } else {
      var w :| 0 <= w < WAYS && lines[h][w].insn == Some(x);
      HeldIsLive(lines, freed, handed, h, w);
    }
  }

  /** Where an instruction is, given what happened to its set since it was used: in its place, or gone. */
  predicate Standing(line: Line, x: Insn, events: seq<Event>) {
    if Survives(x.addr, events) then Sits(line, x, Ahead(x.addr, events)) else Absent(line, x)
  }

  lemma StandingSame(a: Line, b: Line, x: Insn, events: seq<Event>)
    requires SameInsns(a, b) && Standing(b, x, events)
    ensures Standing(a, x, events)
  {
  }

  lemma AheadNext(a: nat, events: seq<Event>, e: Event)
    ensures Ahead(a, events + [e]) ==
            if !e.Used? then Ahead(a, events)
            else if e.insn.addr == a then [] else [e.insn.addr] + Without(Ahead(a, events), e.insn.addr)
  {
    assert (events + [e])[..|events|] == events;
  }

  lemma StandingNext(line: Line, x: Insn, events: seq<Event>, e: Event)
    requires LineOk(line) && Standing(line, x, events)
    requires e.Used? && Find(line, e.insn.addr) == WAYS ==> e.insn != x
    ensures Standing(After(line, e), x, events + [e])
  {
    SurvivesNext(x.addr, events, e);
    AheadNext(x.addr, events, e);
    if Survives(x.addr, events) {
      match e
      case Used(insn) => SitsUse(line, x, Ahead(x.addr, events), insn);
      case Trimmed => SitsTrim(line, x, Ahead(x.addr, events));
      case Cleared =>
    } else {
      AbsentStays(line, x, e);
    }
  }

  /** An instruction handed over earlier stands in its set as what happened since says. */
  ghost predicate Remembered(lines: seq<Line>, handed: multiset<Insn>, since: seq<Did>, x: Insn) {
    && |lines| == NUM_SETS && AllFit(since)
    && x in handed && x.addr < TWO64 && Standing(lines[HashAddr(x.addr)], x, SetEvents(since, HashAddr(x.addr)))
  }

  lemma RememberedNext(lines: seq<Line>, freed: seq<Insn>, handed: multiset<Insn>, since: seq<Did>, x: Insn, d: Did,
                       next: seq<Line>, handed2: multiset<Insn>)
    requires Sound(lines, freed, handed) && Remembered(lines, handed, since, x)
    requires Fits(d) && Moves(lines, d, next) && handed <= handed2
    requires d.Stepped? && Find(lines[HashAddr(d.insn.addr)], d.insn.addr) == WAYS ==> d.insn !in handed
    ensures Remembered(next, handed2, since + [d], x)
  {
    var h := HashAddr(x.addr);
    var e := EventOf(d);
    SetEventsNext(since, d, h);
    assert SetOk(lines[h], h);
    if Concerns(d, h) {
      StandingNext(lines[h], x, SetEvents(since, h), e);
      StandingSame(next[h], After(lines[h], e), x, SetEvents(since, h) + [e]);
    } else {
      StandingSame(next[h], lines[h], x, SetEvents(since, h));
    }
  }

  lemma JustUsed(lines: seq<Line>, handed: multiset<Insn>, x: Insn)
    requires |lines| == NUM_SETS && x in handed && x.addr < TWO64 && FirstIs(lines[HashAddr(x.addr)], x.addr, x)
    ensures Remembered(lines, handed, [], x)
  {
  }

  /**
   The read is safe if and only if the instruction survives what happened since to its set: no session's trace freed,
   never more than three other addresses used, no more than one of them at a trim.
   */
  lemma LiveIff(lines: seq<Line>, freed: seq<Insn>, handed: multiset<Insn>, since: seq<Did>, x: Insn)
    requires Sound(lines, freed, handed) && Remembered(lines, handed, since, x)
    ensures x !in freed <==> Survives(x.addr, SetEvents(since, HashAddr(x.addr)))
  {
    FreedIffAbsent(lines, freed, handed, x);
  }

  /** Trims alone, however many, and then a step of the session itself: that is survived. */
  lemma {:induction false} TrimsSurvived(a: nat, since: seq<Did>, s: nat)
    requires AllFit(since) && forall i :: 0 <= i < |since| ==> since[i].CleanedUp?
    ensures Survives(a, SetEvents(since, s)) && Ahead(a, SetEvents(since, s)) == []
    decreases |since|
  {
    if since != [] {
      var n := |since| - 1;
      TrimsSurvived(a, since[..n], s);
      assert since == since[..n] + [since[n]];
      SetEventsNext(since[..n], since[n], s);
      SurvivesNext(a, SetEvents(since[..n], s), Trimmed);
      AheadNext(a, SetEvents(since[..n], s), Trimmed);
    }
  }

  lemma AloneSurvives(a: nat, since: seq<Did>, d: Did, s: nat)
    requires AllFit(since) && (forall i :: 0 <= i < |since| ==> since[i].CleanedUp?) && Fits(d) && d.Stepped?
    ensures AllFit(since + [d]) && Survives(a, SetEvents(since + [d], s))
  {
    TrimsSurvived(a, since, s);
    SetEventsNext(since, d, s);
    if Concerns(d, s) {
      SurvivesNext(a, SetEvents(since, s), EventOf(d));
      AheadNext(a, SetEvents(since, s), EventOf(d));
    }
  }

  lemma UseIs(line: Line, insn: Insn)
    ensures Use(line, insn)
            == if Find(line, insn.addr) < WAYS then Lookup(line, insn.addr) else Insert(line, insn.addr, insn)
    ensures Find(line, insn.addr) == WAYS ==> Lookup(line, insn.addr) == line
  {
  }

  lemma HitSteps(lines: seq<Line>, freed: seq<Insn>, handed: multiset<Insn>, addr: uint64, insn: Insn, next: seq<Line>)
    requires |lines| == NUM_SETS && Sound(next, freed, handed) && Find(lines[HashAddr(addr)], addr) < WAYS
             && insn.addr == addr
    requires var h := HashAddr(addr); next == lines[h := Lookup(lines[h], addr)] && FirstIs(next[h], addr, insn)
    ensures StepsTo(lines, handed, insn, next, handed)
  {
    UseIs(lines[HashAddr(addr)], insn);
    HeldWasHanded(next, freed, handed, HashAddr(addr), 0);
  }

  lemma MissSteps(lines: seq<Line>, handed: multiset<Insn>, insn: Insn, next: seq<Line>)
    requires |lines| == NUM_SETS && insn.addr < TWO64 && insn !in handed
    requires Find(lines[HashAddr(insn.addr)], insn.addr) == WAYS
    requires var h := HashAddr(insn.addr); next == lines[h := Insert(lines[h], insn.addr, insn)]
    ensures StepsTo(lines, handed, insn, next, handed + multiset{insn})
  {
    UseIs(lines[HashAddr(insn.addr)], insn);
  }

  lemma MissStays(lines: seq<Line>, h: nat, addr: nat)
    requires h < |lines| && Find(lines[h], addr) == WAYS
    ensures lines[h := Lookup(lines[h], addr)] == lines
  {
  }

  /** get, and put what decoding gave on a miss. */
  method Fetch(cache: DisasmCache, addr: uint64, decoded: Option<Insn>) returns (insn: Option<Insn>)
    requires cache.Valid() && (decoded.Some? ==> decoded.value.addr == addr && decoded.value !in cache.handed)
    modifies cache, cache.sets
    ensures cache.Valid()
    ensures insn.None? ==> decoded.None? && cache.sets[..] == old(cache.sets[..]) && cache.freed == old(cache.freed)
                           && cache.handed == old(cache.handed)
    ensures insn.Some? <==> Find(old(cache.sets[HashAddr(addr)]), addr) < WAYS || decoded.Some?
    ensures cache.handed <= old(cache.handed) + if decoded.Some? then multiset{decoded.value} else multiset{}
    ensures insn.Some? ==> insn.value.addr == addr
                           && StepsTo(old(cache.sets[..]), old(cache.handed), insn.value, cache.sets[..], cache.handed)
  {
    ghost var lines, given := cache.sets[..], cache.handed;
    insn := cache.Get(addr);
    if insn.Some? {
      HitSteps(lines, cache.freed, cache.handed, addr, insn.value, cache.sets[..]);
      return;
    }
    MissStays(lines, HashAddr(addr), addr);
    if decoded.Some? {
      cache.Put(addr, decoded.value);
      MissSteps(lines, given, decoded.value, cache.sets[..]);
      insn := decoded;
    }
  }

  /** The registers shown; the cache ends where the use of the instruction took it. */
  method ShowRegs(cache: DisasmCache, insn: Insn, ghost lines: seq<Line>, ghost given: multiset<Insn>)
    returns (readRegs: seq<nat>, writeRegs: seq<nat>)
    requires cache.Valid() && StepsTo(lines, given, insn, cache.sets[..], cache.handed)
    modifies cache.sets
    ensures cache.Valid() && StepsTo(lines, given, insn, cache.sets[..], cache.handed)
    ensures readRegs == First8(insn.readRegs) && writeRegs == First8(insn.writeRegs)
  {
    ghost var used, h := cache.sets[..], HashAddr(insn.addr);
    readRegs, writeRegs := cache.Visit(insn, insn.addr);
    assert cache.sets[..] == used[h := cache.sets[h]];
    SameTrans(cache.sets[h], used[h], Use(lines[h], insn));
  }

  lemma HeldWasHanded(lines: seq<Line>, freed: seq<Insn>, handed: multiset<Insn>, s: nat, w: nat)
    requires Sound(lines, freed, handed) && s < NUM_SETS && w < WAYS && lines[s][w].insn.Some?
    ensures lines[s][w].insn.value in handed
  {
    TotalHolds(lines, s, w);
    assert lines[s][w].insn.value in Total(lines) + multiset(freed);
  }

  /**
   What a session remembers of its last step: the instruction, and where and how it accessed memory, 0 for nowhere.
   */
  datatype Pending = Pending(insn: Insn, access: nat, isLoad: bool)

  /** The line's operand text looks at the remembered instruction for stores only, and only behind an address. */
  predicate ReadsInsn(p: Pending) {
    p.access != 0 && !p.isLoad
  }

  /** An instruction used just before these steps is still in its set after them. */
  ghost predicate Lasts(x: Insn, since: seq<Did>) {
    x.addr < TWO64 && AllFit(since) && Survives(x.addr, SetEvents(since, HashAddr(x.addr)))
  }

  ghost predicate AllRemembered(lines: seq<Line>, handed: multiset<Insn>, log: seq<Did>, pending: map<nat, Pending>) {
    forall k :: k in pending ==> Remembered(lines, handed, SinceStep(log, k), pending[k].insn)
  }

  /**
   Whatever is done next, all that the sessions remember then stands as it should: earlier steps' and the new step's.
   */
  lemma AllNext(lines: seq<Line>, freed: seq<Insn>, handed: multiset<Insn>, log: seq<Did>,
                pending: map<nat, Pending>, d: Did, next: seq<Line>, handed2: multiset<Insn>, left: map<nat, Pending>)
    requires Sound(lines, freed, handed) && AllRemembered(lines, handed, log, pending)
    requires Fits(d) && Moves(lines, d, next) && handed <= handed2
    requires d.Stepped? && Find(lines[HashAddr(d.insn.addr)], d.insn.addr) == WAYS ==> d.insn !in handed
    requires forall k :: k in left && !(d.Stepped? && d.session == k) ==> k in pending && left[k] == pending[k]
    requires d.Stepped? && d.session in left ==>
               left[d.session].insn == d.insn && d.insn in handed2
                   && FirstIs(next[HashAddr(d.insn.addr)], d.insn.addr, d.insn)
    ensures AllRemembered(next, handed2, log + [d], left)
  {
    forall k | k in left ensures Remembered(next, handed2, SinceStep(log + [d], k), left[k].insn) {
      SinceNext(log, d, k);
      if d.Stepped? && d.session == k {
        JustUsed(next, handed2, d.insn);
      } else {
        RememberedNext(lines, freed, handed, SinceStep(log, k), pending[k].insn, d, next, handed2);
      }
    }
  }

  /** The cache and what the sessions remember are as what they did makes them. */
  ghost predicate Good(lines: seq<Line>, freed: seq<Insn>, handed: multiset<Insn>, log: seq<Did>,
                       pending: map<nat, Pending>) {
    Sound(lines, freed, handed) && Tracks(lines, log) && AllRemembered(lines, handed, log, pending)
  }

  lemma GoodNext(lines: seq<Line>, freed: seq<Insn>, handed: multiset<Insn>, log: seq<Did>,
                 pending: map<nat, Pending>, d: Did,
                 next: seq<Line>, freed2: seq<Insn>, handed2: multiset<Insn>, left: map<nat, Pending>)
    requires Good(lines, freed, handed, log, pending) && Sound(next, freed2, handed2)
    requires Fits(d) && Moves(lines, d, next) && handed <= handed2
    requires !d.Stepped? && forall k :: k in left ==> k in pending && left[k] == pending[k]
    ensures Good(next, freed2, handed2, log + [d], left)
  {
    TracksNext(lines, log, d, next);
    AllNext(lines, freed, handed, log, pending, d, next, handed2, left);
  }

  /** A step uses its instruction: one already in the set, or one new to the cache. */
  ghost predicate StepsTo(lines: seq<Line>, handed: multiset<Insn>, insn: Insn, next: seq<Line>,
                          handed2: multiset<Insn>) {
    && |lines| == |next| == NUM_SETS && insn.addr < TWO64 && handed <= handed2 && insn in handed2
    && var h := HashAddr(insn.addr);
       && next == lines[h := next[h]] && SameInsns(next[h], Use(lines[h], insn)) && FirstIs(next[h], insn.addr, insn)
       && (Find(lines[h], insn.addr) == WAYS ==> insn !in handed)
  }

  lemma StepMoves(lines: seq<Line>, handed: multiset<Insn>, k: nat, insn: Insn, next: seq<Line>,
                  handed2: multiset<Insn>)
    requires StepsTo(lines, handed, insn, next, handed2)
    ensures Moves(lines, Stepped(k, insn), next)
  {
  }

  lemma StepTracks(lines: seq<Line>, handed: multiset<Insn>, log: seq<Did>, k: nat, insn: Insn, next: seq<Line>,
                   handed2: multiset<Insn>)
    requires Tracks(lines, log) && StepsTo(lines, handed, insn, next, handed2)
    ensures Tracks(next, log + [Stepped(k, insn)])
  {
    StepMoves(lines, handed, k, insn, next, handed2);
    TracksNext(lines, log, Stepped(k, insn), next);
  }

  lemma StepRemembers(lines: seq<Line>, freed: seq<Insn>, handed: multiset<Insn>, log: seq<Did>,
                      pending: map<nat, Pending>, k: nat, p: Pending, next: seq<Line>, handed2: multiset<Insn>)
    requires Sound(lines, freed, handed) && AllRemembered(lines, handed, log, pending)
    requires StepsTo(lines, handed, p.insn, next, handed2)
    ensures AllRemembered(next, handed2, log + [Stepped(k, p.insn)], pending[k := p])
  {
    StepMoves(lines, handed, k, p.insn, next, handed2);
    AllNext(lines, freed, handed, log, pending, Stepped(k, p.insn), next, handed2, pending[k := p]);
  }

  /** What a session remembers, once its next step has used the cache. */
  lemma ReadIff(lines: seq<Line>, freed: seq<Insn>, handed: multiset<Insn>, log: seq<Did>,
                pending: map<nat, Pending>, k: nat,
                insn: Insn, next: seq<Line>, freed2: seq<Insn>, handed2: multiset<Insn>)
    requires Good(lines, freed, handed, log, pending) && Sound(next, freed2, handed2) && k in pending
    requires StepsTo(lines, handed, insn, next, handed2)
    ensures pending[k].insn !in freed2 <==> Lasts(pending[k].insn, SinceStep(log, k) + [Stepped(k, insn)])
  {
    StepMoves(lines, handed, k, insn, next, handed2);
    RememberedNext(lines, freed, handed, SinceStep(log, k), pending[k].insn, Stepped(k, insn), next, handed2);
    LiveIff(next, freed2, handed2, SinceStep(log, k) + [Stepped(k, insn)], pending[k].insn);
  }

  lemma GoodStep(lines: seq<Line>, freed: seq<Insn>, handed: multiset<Insn>, log: seq<Did>,
                 pending: map<nat, Pending>, k: nat,
                 p: Pending, next: seq<Line>, freed2: seq<Insn>, handed2: multiset<Insn>)
    requires Good(lines, freed, handed, log, pending) && Sound(next, freed2, handed2)
    requires StepsTo(lines, handed, p.insn, next, handed2)
    ensures Good(next, freed2, handed2, log + [Stepped(k, p.insn)], pending[k := p]) && p.insn !in freed2
    ensures k in pending ==>
              (pending[k].insn !in freed2 <==> Lasts(pending[k].insn, SinceStep(log, k) + [Stepped(k, p.insn)]))
  {
    if k in pending {
      ReadIff(lines, freed, handed, log, pending, k, p.insn, next, freed2, handed2);
    }
    StepTracks(lines, handed, log, k, p.insn, next, handed2);
    StepRemembers(lines, freed, handed, log, pending, k, p, next, handed2);
    HeldIsLive(next, freed2, handed2, HashAddr(p.insn.addr), 0);
  }

  lemma GoodIff(lines: seq<Line>, freed: seq<Insn>, handed: multiset<Insn>, log: seq<Did>,
                pending: map<nat, Pending>, k: nat)
    requires Good(lines, freed, handed, log, pending) && k in pending
    ensures pending[k].insn !in freed <==> Lasts(pending[k].insn, SinceStep(log, k))
  {
    LiveIff(lines, freed, handed, SinceStep(log, k), pending[k].insn);
  }

  lemma TrimMoves(lines: seq<Line>)
    requires |lines| == NUM_SETS
    ensures Moves(lines, CleanedUp, TrimAll(lines))
  {
  }

  /** The colder half of every set is empty. */
  predicate ColdEmpty(lines: seq<Line>) {
    forall s :: 0 <= s < |lines| ==> lines[s][2].insn.None? && lines[s][3].insn.None?
  }

  lemma TrimmedCold(lines: seq<Line>, next: seq<Line>)
    requires next == TrimAll(lines)
    ensures ColdEmpty(next)
  {
  }

  lemma ClearMoves(lines: seq<Line>, next: seq<Line>)
    requires |lines| == |next| == NUM_SETS && AllEmpty(next)
    ensures Moves(lines, FreedTrace, next)
  {
  }

  /** After clearing nothing that is remembered is live. */
  lemma NoneLives(lines: seq<Line>, freed: seq<Insn>, handed: multiset<Insn>, log: seq<Did>, pending: map<nat, Pending>)
    requires Good(lines, freed, handed, log, pending) && multiset(freed) == handed
    ensures forall k :: k in pending ==> pending[k].insn in freed
  {
    forall k | k in pending ensures pending[k].insn in freed {
      assert Remembered(lines, handed, SinceStep(log, k), pending[k].insn);
      assert pending[k].insn in multiset(freed);
    }
  }

  /** With nobody else on the cache what a session remembers always lasts to its next step. */
  lemma AloneLasts(x: Insn, since: seq<Did>, k: nat, insn: Insn)
    requires x.addr < TWO64 && insn.addr < TWO64 && forall i :: 0 <= i < |since| ==> since[i].CleanedUp?
    ensures Lasts(x, since + [Stepped(k, insn)])
  {
    AloneSurvives(x.addr, since, Stepped(k, insn), HashAddr(x.addr));
  }

  /** A step at an instruction of a 64 KB block of addresses, or a trim. */
  predicate InBlock(d: Did, block: nat) {
    d.CleanedUp? || (d.Stepped? && d.insn.addr < TWO64 && d.insn.addr % 4 == 0 && d.insn.addr / 65536 == block)
  }

  lemma {:induction false} BlockSurvives(a: nat, since: seq<Did>)
    requires a < TWO64 && a % 4 == 0 && forall i :: 0 <= i < |since| ==> InBlock(since[i], a / 65536)
    ensures AllFit(since) && Survives(a, SetEvents(since, HashAddr(a))) && Ahead(a, SetEvents(since, HashAddr(a))) == []
    decreases |since|
  {
    if since != [] {
      var n, h := |since| - 1, HashAddr(a);
      assert forall i :: 0 <= i < n ==> since[..n][i] == since[i];
      BlockSurvives(a, since[..n]);
      assert since == since[..n] + [since[n]] && InBlock(since[n], a / 65536);
      SetEventsNext(since[..n], since[n], h);
      if Concerns(since[n], h) {
        if since[n].Stepped? {
          HashApart(a, since[n].insn.addr);
        }
        SurvivesNext(a, SetEvents(since[..n], h), EventOf(since[n]));
        AheadNext(a, SetEvents(since[..n], h), EventOf(since[n]));
      }
    }
  }

  /** Within 64 KB of code nothing is lost, however long and by however many sessions it is run. */
  lemma BlockLasts(x: Insn, since: seq<Did>)
    requires x.addr < TWO64 && x.addr % 4 == 0 && forall i :: 0 <= i < |since| ==> InBlock(since[i], x.addr / 65536)
    ensures Lasts(x, since)
  {
    BlockSurvives(x.addr, since);
  }

  /** Another session's steps. */
  function StepsOf(j: nat, insns: seq<Insn>): seq<Did> {
    if insns == [] then [] else StepsOf(j, insns[..|insns| - 1]) + [Stepped(j, insns[|insns| - 1])]
  }

  lemma {:induction false} StepsUse(j: nat, insns: seq<Insn>, s: nat)
    requires forall i :: 0 <= i < |insns| ==> insns[i].addr < TWO64 && HashAddr(insns[i].addr) == s
    ensures AllFit(StepsOf(j, insns)) && SetEvents(StepsOf(j, insns), s) == Uses(insns)
    decreases |insns|
  {
    if insns != [] {
      var n := |insns| - 1;
      StepsUse(j, insns[..n], s);
      SetEventsNext(StepsOf(j, insns[..n]), Stepped(j, insns[n]), s);
    }
  }

  /** What is gone stays gone. */
  lemma LastsNext(x: Insn, since: seq<Did>, d: Did)
    requires AllFit(since) && Fits(d) && !Lasts(x, since)
    ensures AllFit(since + [d]) && !Lasts(x, since + [d])
  {
    if x.addr < TWO64 {
      var h := HashAddr(x.addr);
      SetEventsNext(since, d, h);
      if Concerns(d, h) {
        SurvivesNext(x.addr, SetEvents(since, h), EventOf(d));
      }
    } else {
      SetEventsNext(since, d, 0);
    }
  }

  /**
   Sharing alone is enough to lose it: four addresses of its set that another session uses, or two and a trim, and a
   store that has an address reads an instruction that has been freed.
   */
  lemma OthersFree(x: Insn, j: nat, insns: seq<Insn>, mine: Did)
    requires x.addr < TWO64 && Fits(mine)
    requires forall i :: 0 <= i < |insns| ==>
                           insns[i].addr < TWO64 && HashAddr(insns[i].addr) == HashAddr(x.addr)
                               && insns[i].addr != x.addr
    requires forall i, j :: 0 <= i < j < |insns| ==> insns[i].addr != insns[j].addr
    ensures |insns| >= WAYS ==> !Lasts(x, StepsOf(j, insns) + [mine])
    ensures |insns| >= 2 ==> !Lasts(x, StepsOf(j, insns) + [CleanedUp] + [mine])
  {
    var h, steps := HashAddr(x.addr), StepsOf(j, insns);
    StepsUse(j, insns, h);
    OthersEvict(x.addr, insns);
    SetEventsNext(steps, CleanedUp, h);
    if |insns| >= WAYS {
      LastsNext(x, steps, mine);
    }
    if |insns| >= 2 {
      LastsNext(x, steps + [CleanedUp], mine);
    }
  }

  lemma XorHalf(a: nat, b: nat, bits: nat)
    requires bits > 0 && a % 2 == b % 2 && XorLow(a / 2, b / 2, bits - 1) == 0
    ensures XorLow(a, b, bits) == 0
  {
  }

  /** Numbers with the same low bits differ in none of them. */
  lemma {:induction false} XorSame(a: nat, b: nat, low: nat, bits: nat)
    ensures XorLow(a * Pow2(bits) + low, b * Pow2(bits) + low, bits) == 0
  {
    if bits > 0 {
      HalfOf(a, low, bits);
      HalfOf(b, low, bits);
      XorSame(a, b, low / 2, bits - 1);
      XorHalf(a * Pow2(bits) + low, b * Pow2(bits) + low, bits);
    }
  }

  lemma XorNone(q: nat, m: nat, low: nat, bits: nat)
    requires q == m * Pow2(bits) + low
    ensures XorLow(q, low, bits) == 0
  {
    XorSame(m, 0, low, bits);
  }

  lemma HashZero(a: uint64, m: nat)
    requires a / 4 == m * NUM_SETS + a / 4 / 65536
    ensures HashAddr(a) == 0
  {
    assert Pow2(SET_BITS) == NUM_SETS;
    XorNone(a / 4, m, a / 4 / 65536, SET_BITS);
  }

  /** Five addresses of one set. */
  lemma SameSet(a: uint64)
    requires a in {65536, 131072, 196608, 262148, 327684}
    ensures HashAddr(a) == 0
  {
    HashZero(a, a / 4 / NUM_SETS);
  }

  /** The log after a callback: the step if there was one, and the trim. */
  function Logged(log: seq<Did>, insn: Option<Insn>, k: nat, due: bool): seq<Did> {
    var next := if insn.Some? then log + [Stepped(k, insn.value)] else log;
    if due then next + [CleanedUp] else next
  }

  /** The sessions of one thread and the one cache they share. */
  class Tracer {
    const cache: DisasmCache
    var pending: map<nat, Pending>
    ghost var log: seq<Did>

    ghost predicate Valid()
      reads this, cache, cache.sets
    {
      Good(cache.sets[..], cache.freed, cache.handed, log, pending)
    }

    constructor ()
      ensures Valid() && fresh(cache) && fresh(cache.sets) && pending == map[] && log == []
      ensures cache.handed == multiset{}
    {
      cache := new DisasmCache();
      pending, log := map[], [];
      new;
      TracksEmpty(cache.sets[..]);
    }

    /**
     printAssemble2 of session k. The instruction remembered from its step before is read only for a store with an
     address, and then it is live if and only if it has lasted since: through what the other sessions did and trims did
     in between, and through this step's own use of the cache, which comes before the read.
     */
    method PrintAssemble(k: nat, addr: uint64, decoded: Option<Insn>, access: nat, isLoad: bool)
      returns (printed: bool, read: Option<Insn>, readRegs: seq<nat>, writeRegs: seq<nat>)
      requires Valid() && (decoded.Some? ==> decoded.value.addr == addr && decoded.value !in cache.handed)
      modifies this, cache, cache.sets
      ensures Valid() && printed == (Find(old(cache.sets[HashAddr(addr)]), addr) < WAYS || decoded.Some?)
      ensures cache.handed <= old(cache.handed) + if decoded.Some? then multiset{decoded.value} else multiset{}
      ensures !printed ==> pending == old(pending) && log == old(log) && cache.freed == old(cache.freed)
                           && cache.sets[..] == old(cache.sets[..])
      ensures printed ==>
                && k in pending && pending[k].insn.addr == addr && pending[k].insn !in cache.freed
                && pending == old(pending)[k := Pending(pending[k].insn, access, isLoad)]
                && log == old(log) + [Stepped(k, pending[k].insn)]
                && readRegs == First8(pending[k].insn.readRegs) && writeRegs == First8(pending[k].insn.writeRegs)
      ensures read == if printed && k in old(pending) && old(pending)[k].access != 0 && !old(pending)[k].isLoad then
                        Some(old(pending)[k].insn)
                      else None
      ensures read.Some? ==>
                (read.value !in cache.freed <==>
                    Lasts(read.value, SinceStep(old(log), k) + [Stepped(k, pending[k].insn)]))
    {
      ghost var lines, was, given := cache.sets[..], cache.freed, cache.handed;
      var insn := Fetch(cache, addr, decoded);
      if insn.None? {
        return false, None, [], [];
      }
      printed := true;
      read, readRegs, writeRegs := Print(k, insn.value, access, isLoad, lines, was, given);
    }

    /** The rest of it, once the instruction is there. */
    method Print(k: nat, insn: Insn, access: nat, isLoad: bool, ghost lines: seq<Line>, ghost was: seq<Insn>,
                 ghost given: multiset<Insn>)
      returns (read: Option<Insn>, readRegs: seq<nat>, writeRegs: seq<nat>)
      requires cache.Valid() && Good(lines, was, given, log, pending)
               && StepsTo(lines, given, insn, cache.sets[..], cache.handed)
      modifies this, cache.sets
      ensures Valid() && insn !in cache.freed
      ensures pending == old(pending)[k := Pending(insn, access, isLoad)] && log == old(log) + [Stepped(k, insn)]
      ensures readRegs == First8(insn.readRegs) && writeRegs == First8(insn.writeRegs)
      ensures read == if k in old(pending) && ReadsInsn(old(pending)[k]) then Some(old(pending)[k].insn) else None
      ensures read.Some? ==>
                  (read.value !in cache.freed <==> Lasts(read.value, SinceStep(old(log), k) + [Stepped(k, insn)]))
    {
      read := ReadPending(k);
      readRegs, writeRegs := ShowRegs(cache, insn, lines, given);
      var p := Pending(insn, access, isLoad);
      GoodStep(lines, was, given, log, pending, k, p, cache.sets[..], cache.freed, cache.handed);
      pending := pending[k := p];
      log := log + [Stepped(k, p.insn)];
    }

    method ReadPending(k: nat) returns (read: Option<Insn>)
      ensures read == if k in pending && ReadsInsn(pending[k]) then Some(pending[k].insn) else None
    {
      if k in pending && ReadsInsn(pending[k]) {
        return Some(pending[k].insn);
      }
      return None;
    }

    /** The periodic trim. */
    method CleanUp()
      requires Valid()
      modifies this`log, cache`freed, cache.sets
      ensures Valid() && log == old(log) + [CleanedUp] && cache.sets[..] == TrimAll(old(cache.sets[..]))
    {
      ghost var lines, was := cache.sets[..], cache.freed;
      cache.TrimCold();
      TrimMoves(lines);
      GoodNext(lines, was, cache.handed, log, pending, CleanedUp, cache.sets[..], cache.freed, cache.handed, pending);
      log := log + [CleanedUp];
    }

    /** freeTrace: some sessions end, and the cache of all of them is cleared. */
    method FreeTrace(gone: set<nat>)
      requires Valid()
      modifies this, cache`freed, cache.sets
      ensures Valid() && pending == old(pending) - gone && log == old(log) + [FreedTrace]
      ensures AllEmpty(cache.sets[..]) && multiset(cache.freed) == cache.handed
      ensures forall k :: k in pending ==> pending[k].insn in cache.freed
    {
      ghost var lines, was, before := cache.sets[..], cache.freed, pending;
      pending := pending - gone;
      cache.Clear();
      ClearMoves(lines, cache.sets[..]);
      GoodNext(lines, was, cache.handed, log, before, FreedTrace, cache.sets[..], cache.freed, cache.handed, pending);
      log := log + [FreedTrace];
      NoneLives(cache.sets[..], cache.freed, cache.handed, log, pending);
    }

    /** A return from JNI, a branch into the PLT and a branch out of the library: nothing is remembered any more. */
    method Forget(k: nat)
      requires Valid()
      modifies this`pending
      ensures Valid() && pending == old(pending) - {k}
    {
      pending := pending - {k};
    }

    /** The branch checks look at the remembered instruction whatever its address. */
    method Branching(k: nat) returns (read: Option<Insn>)
      requires Valid()
      ensures read == if k in pending then Some(pending[k].insn) else None
      ensures read.Some? ==> (read.value !in cache.freed <==> Lasts(read.value, SinceStep(log, k)))
    {
      if k !in pending {
        return None;
      }
      GoodIff(cache.sets[..], cache.freed, cache.handed, log, pending, k);
      return Some(pending[k].insn);
    }

    /** What follows the line: the trim when it is due, the branch checks, and what a branch that leaves forgets. */
    method AfterLine(k: nat, due: bool, leaves: bool) returns (branching: Option<Insn>)
      requires Valid()
      modifies this`log, this`pending, cache`freed, cache.sets
      ensures Valid() && (leaves ==> k !in pending)
      ensures log == if due then old(log) + [CleanedUp] else old(log)
      ensures due ==> ColdEmpty(cache.sets[..])
      ensures branching == if k in old(pending) then Some(old(pending)[k].insn) else None
      ensures branching.Some? ==> (branching.value !in cache.freed <==> Lasts(branching.value, SinceStep(log, k)))
    {
      if due {
        ghost var lines := cache.sets[..];
        CleanUp();
        TrimmedCold(lines, cache.sets[..]);
      }
      branching := Branching(k);
      if leaves {
        Forget(k);
      }
    }

    /**
     What a JNI return forgets, and the line. `freed` is what has been freed when it reads the instruction remembered.
     */
    method ReturnAndPrint(k: nat, addr: uint64, decoded: Option<Insn>, access: nat, isLoad: bool, jniReturn: bool)
      returns (printed: bool, read: Option<Insn>, ghost freed: seq<Insn>)
      requires Valid() && (decoded.Some? ==> decoded.value.addr == addr && decoded.value !in cache.handed)
      modifies this, cache, cache.sets
      ensures Valid() && printed == (Find(old(cache.sets[HashAddr(addr)]), addr) < WAYS || decoded.Some?)
      ensures !printed ==> pending == (if jniReturn then old(pending) - {k} else old(pending)) && log == old(log)
      ensures printed ==>
                  k in pending && pending[k].insn.addr == addr && log == old(log) + [Stepped(k, pending[k].insn)]
      ensures read == if printed && !jniReturn && k in old(pending) && old(pending)[k].access != 0
                         && !old(pending)[k].isLoad then
                        Some(old(pending)[k].insn)
                      else None
      ensures read.Some? ==>
                (read.value !in freed <==> Lasts(read.value, SinceStep(old(log), k) + [Stepped(k, pending[k].insn)]))
    {
      if jniReturn {
        Forget(k);
      }
      var readRegs, writeRegs;
      printed, read, readRegs, writeRegs := PrintAssemble(k, addr, decoded, access, isLoad);
      freed := cache.freed;
    }

    /**
     One trace callback of session k: what the JNI return forgets, the line, the trim when it is due, the branch
     checks, and what a branch that leaves forgets. After a printed line the checks look at its own instruction, and
     that one is live, trimmed or not; when nothing was printed they look at the one of an earlier callback.
     */
    method TraceCode(k: nat, addr: uint64, decoded: Option<Insn>, access: nat, isLoad: bool, jniReturn: bool, due: bool,
                     leaves: bool)
      returns (printed: bool, read: Option<Insn>, branching: Option<Insn>, ghost freed: seq<Insn>)
      requires Valid() && (decoded.Some? ==> decoded.value.addr == addr && decoded.value !in cache.handed)
      modifies this, cache, cache.sets
      ensures Valid() && (leaves ==> k !in pending)
      ensures printed == (Find(old(cache.sets[HashAddr(addr)]), addr) < WAYS || decoded.Some?)
      ensures printed ==> branching.Some? && branching.value.addr == addr && branching.value !in cache.freed
      ensures !printed && branching.Some? ==>
                && k in old(pending) && branching.value == old(pending)[k].insn
                && (branching.value !in cache.freed <==> Lasts(branching.value, SinceStep(log, k)))
      ensures log == Logged(old(log), if printed then branching else None, k, due)
      ensures due ==> ColdEmpty(cache.sets[..])
      ensures read == if printed && !jniReturn && k in old(pending) && old(pending)[k].access != 0
                         && !old(pending)[k].isLoad then
                        Some(old(pending)[k].insn)
                      else None
      ensures read.Some? && branching.Some? ==>
                (read.value !in freed <==> Lasts(read.value, SinceStep(old(log), k) + [Stepped(k, branching.value)]))
    {
      ghost var before := log;
      printed, read, freed := ReturnAndPrint(k, addr, decoded, access, isLoad, jniReturn);
      branching := AfterLine(k, due, leaves);
      if printed {
        OwnStepLasts(before, Stepped(k, branching.value), due, log);
      }
    }
  }

  /** The addresses of the others' instructions in the run below. */
  function OtherAddr(n: nat): (a: uint64)
    requires n < WAYS
  {
    match n case 0 => 131072 case 1 => 196608 case 2 => 262148 case _ => 327684
  }

  /** One more step of session 1, at a new address of set 0. */
  lemma OneMoreOther(before: seq<Did>, x: Insn, others: seq<Insn>, insn: Insn)
    requires SinceStep(before, 0) == StepsOf(1, others)
    ensures SinceStep(before + [Stepped(1, insn)], 0) == StepsOf(1, others + [insn])
  {
    SinceNext(before, Stepped(1, insn), 0);
    assert (others + [insn])[..|others|] == others;
  }

  /** Session 0 has printed a store, and session 1 the others since; identities up to n are used up. */
  ghost predicate Shared(t: Tracer, x: Insn, others: seq<Insn>, n: nat)
    reads t, t.cache, t.cache.sets
  {
    && t.Valid() && 0 in t.pending && t.pending[0] == Pending(x, 0x1000, false) && x.addr == 65536
    && SinceStep(t.log, 0) == StepsOf(1, others) && |others| == n <= WAYS
    && AtOthers(others) && UsedUp(t.cache.handed, n)
  }

  predicate AtOthers(others: seq<Insn>) {
    |others| <= WAYS && forall i :: 0 <= i < |others| ==> others[i].addr == OtherAddr(i)
  }

  ghost predicate UsedUp(handed: multiset<Insn>, n: nat) {
    forall i: Insn :: i in handed ==> i.id <= n
  }

  lemma UsedOne(handed: multiset<Insn>, handed2: multiset<Insn>, insn: Insn, n: nat)
    requires UsedUp(handed, n) && insn.id == n + 1 && handed2 <= handed + multiset{insn}
    ensures UsedUp(handed2, n + 1)
  {
    forall i: Insn | i in handed2 ensures i.id <= n + 1 {
      assert i in handed + multiset{insn};
    }
  }

  lemma AtOneMore(others: seq<Insn>, insn: Insn)
    requires AtOthers(others) && |others| < WAYS && insn.addr == OtherAddr(|others|)
    ensures AtOthers(others + [insn])
  {
  }

  method PrintsStore() returns (t: Tracer, ghost x: Insn)
    ensures fresh(t) && fresh(t.cache) && fresh(t.cache.sets) && Shared(t, x, [], 0)
  {
    t := new Tracer();
    var printed, read, readRegs, writeRegs := t.PrintAssemble(0, 65536, Some(Insn(0, 65536, [], [])), 0x1000, false);
    x := t.pending[0].insn;
    SinceNext([], Stepped(0, x), 0);
    assert [] + [Stepped(0, x)] == t.log;
  }

  method PrintsOther(t: Tracer, n: nat, ghost x: Insn, ghost others: seq<Insn>) returns (ghost more: seq<Insn>)
    requires n < WAYS && Shared(t, x, others, n)
    modifies t, t.cache, t.cache.sets
    ensures Shared(t, x, more, n + 1)
  {
    ghost var before, given, insn := t.log, t.cache.handed, Insn(n + 1, OtherAddr(n), [], []);
    var printed, read, readRegs, writeRegs :=
      t.PrintAssemble(1, OtherAddr(n), Some(Insn(n + 1, OtherAddr(n), [], [])), 0, true);
    UsedOne(given, t.cache.handed, insn, n);
    AtOneMore(others, t.pending[1].insn);
    OneMoreOther(before, x, others, t.pending[1].insn);
    more := others + [t.pending[1].insn];
  }

  /**
   A run in which the line reads a freed instruction: session 0 prints a store, session 1 prints four instructions of
   the same set, and session 0 prints its next one.
   */
  method ReadsFreed() returns (read: Option<Insn>, freed: seq<Insn>)
    ensures read.Some? && read.value.addr == 65536 && read.value in freed
  {
    var t;
    ghost var x, others := *, [];
    t, x := PrintsStore();
    for n := 0 to WAYS
      invariant fresh(t) && fresh(t.cache) && fresh(t.cache.sets) && Shared(t, x, others, n)
    {
      others := PrintsOther(t, n, x, others);
    }
    read := PrintsNext(t, x, others);
    freed := t.cache.freed;
  }

  method PrintsNext(t: Tracer, ghost x: Insn, ghost others: seq<Insn>) returns (read: Option<Insn>)
    requires Shared(t, x, others, WAYS)
    modifies t, t.cache, t.cache.sets
    ensures read == Some(x) && x in t.cache.freed
  {
    var printed, readRegs, writeRegs;
    printed, read, readRegs, writeRegs := t.PrintAssemble(0, 65540, Some(Insn(5, 65540, [], [])), 0, true);
    OthersOfSet(x, others, Stepped(0, t.pending[0].insn));
  }

  lemma OthersOfSet(x: Insn, others: seq<Insn>, mine: Did)
    requires x.addr == 65536 && |others| == WAYS && Fits(mine)
    requires forall i :: 0 <= i < WAYS ==> others[i].addr == OtherAddr(i)
    ensures !Lasts(x, StepsOf(1, others) + [mine])
  {
    SameSet(x.addr);
    forall i | 0 <= i < WAYS ensures HashAddr(others[i].addr) == 0 {
      SameSet(OtherAddr(i));
    }
    OthersFree(x, 1, others, mine);
  }

  /** A session's own instruction lasts through the trim that may follow its step. */
  lemma OwnStepLasts(before: seq<Did>, d: Did, due: bool, log: seq<Did>)
    requires d.Stepped? && Fits(d) && log == if due then before + [d] + [CleanedUp] else before + [d]
    ensures Lasts(d.insn, SinceStep(log, d.session))
  {
    SinceNext(before, d, d.session);
    if due {
      SinceNext(before + [d], CleanedUp, d.session);
      assert SinceStep(log, d.session) == [CleanedUp];
    }
    TrimsSurvived(d.insn.addr, SinceStep(log, d.session), HashAddr(d.insn.addr));
  }
}
