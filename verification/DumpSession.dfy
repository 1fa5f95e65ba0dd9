/** The dump session object: the hooks that fill it, the choice of pages, and the files it writes. */
module DumpSession {
  import opened Bytes
  import opened DumpModel
  import opened Sorting

  const STACK_BELOW: nat := 0x10000
  const STACK_ABOVE: nat := 0x2000
  const VMA_EXPAND_CAP: nat := 64 * 1024 * 1024

  /** A line of the maps. */
  datatype Vma = Vma(start: nat, end: nat)

  predicate Within(v: Vma, addr: int) {
    v.start <= addr < v.end
  }

  /** The kernel's lines: page-aligned, not empty, in order, without overlap, below the top page. */
  predicate MapsOk(vmas: seq<Vma>) {
    && (forall i :: 0 <= i < |vmas| ==>
          vmas[i].start % PAGE == 0 && vmas[i].end % PAGE == 0 && vmas[i].start < vmas[i].end <= TWO64 - PAGE)
    && (forall i, j :: 0 <= i < j < |vmas| ==> vmas[i].end <= vmas[j].start)
  }

  predicate PageIn(v: Vma, p: nat) {
    v.start / PAGE <= p < v.end / PAGE
  }

  // ---- which pages ----

  /** The window around the stack pointer, in 64-bit arithmetic. */
  predicate InStackWindow(sp: uint64, p: nat) {
    sp != 0 && (sp - STACK_BELOW) % TWO64 / PAGE <= p <= (sp + STACK_ABOVE) % TWO64 / PAGE
  }

  /** The target library's pages. */
  predicate InLibrary(start: uint64, end: uint64, p: nat) {
    start != 0 && end > start && start / PAGE <= p < (end + PAGE - 1) % TWO64 / PAGE
  }

  /** The naive rule: every page of a line, not too long, that holds a touched page. */
  predicate InTouchedLine(touched: set<nat>, vmas: seq<Vma>, p: nat) {
    exists i :: 0 <= i < |vmas| && vmas[i].end - vmas[i].start <= VMA_EXPAND_CAP && PageIn(vmas[i], p)
                && LineTouched(touched, vmas[i])
  }

  predicate LineTouched(touched: set<nat>, v: Vma) {
    exists q :: q in touched && Within(v, q * PAGE)
  }

  /** Appends the pages from lo up to but not including hi. */
  method PushRange(pages: seq<nat>, lo: nat, hi: nat) returns (r: seq<nat>)
    ensures forall p: nat :: p in r <==> p in pages || lo <= p < hi
  {
    r := pages;
    var p := lo;
    while p < hi
      invariant lo <= p && (p == lo || p <= hi)
      invariant forall q: nat :: q in r <==> q in pages || lo <= q < p
    {
      r := r + [p];
      p := p + 1;
    }
  }

  /** The line an address is in, by a scan from the first. */
  method FindLine(vmas: seq<Vma>, addr: nat) returns (k: nat)
    requires MapsOk(vmas)
    ensures k <= |vmas|
    ensures k < |vmas| ==> Within(vmas[k], addr)
    ensures k == |vmas| ==> forall i :: 0 <= i < |vmas| ==> !Within(vmas[i], addr)
  {
    k := 0;
    while k < |vmas| && !Within(vmas[k], addr)
      invariant k <= |vmas|
      invariant forall i :: 0 <= i < k ==> !Within(vmas[i], addr)
    {
      k := k + 1;
    }
  }

  /** Line k has been seen for one of the first n touched pages. */
  predicate Seen(vmas: seq<Vma>, order: seq<nat>, n: nat, k: nat)
    requires n <= |order| && k < |vmas|
  {
    exists i :: 0 <= i < n && Within(vmas[k], order[i] * PAGE)
  }

  lemma SeenNext(vmas: seq<Vma>, order: seq<nat>, n: nat, k: nat)
    requires n < |order| && k < |vmas|
    ensures Seen(vmas, order, n + 1, k) <==> Seen(vmas, order, n, k) || Within(vmas[k], order[n] * PAGE)
  {
  }

  /** Lines do not overlap: an address is in one at most. */
  lemma OneLine(vmas: seq<Vma>, addr: int, i: nat, j: nat)
    requires MapsOk(vmas) && i < |vmas| && j < |vmas| && Within(vmas[i], addr) && Within(vmas[j], addr)
    ensures i == j
  {
  }

  predicate Short(v: Vma) {
    v.end - v.start <= VMA_EXPAND_CAP
  }

  /** What the expansion has pushed once the first n touched pages are done. */
  ghost predicate Expanding(vmas: seq<Vma>, order: seq<nat>, n: nat, before: seq<nat>, pages: seq<nat>) {
    n <= |order| &&
    forall p: nat :: p in pages <==>
                     || p in before
                     || exists k :: 0 <= k < |vmas| && Short(vmas[k]) && PageIn(vmas[k], p) && Seen(vmas, order, n, k)
  }

  /** Pushing the pages of the line an address is in is what the address adds; an address in no line adds nothing. */
  lemma ExpandingNext(vmas: seq<Vma>, order: seq<nat>, n: nat, before: seq<nat>, pages: seq<nat>, next: seq<nat>,
                      k: nat)
    requires MapsOk(vmas) && Expanding(vmas, order, n, before, pages) && n < |order| && k < |vmas|
    requires Within(vmas[k], order[n] * PAGE)
    requires forall p: nat :: p in next <==> p in pages || (Short(vmas[k]) && PageIn(vmas[k], p))
    ensures Expanding(vmas, order, n + 1, before, next)
  {
    forall i | 0 <= i < |vmas| ensures Seen(vmas, order, n + 1, i) <==> Seen(vmas, order, n, i) || i == k {
      SeenNext(vmas, order, n, i);
      if Within(vmas[i], order[n] * PAGE) {
        OneLine(vmas, order[n] * PAGE, i, k);
      }
    }
  }

  lemma ExpandingSkips(vmas: seq<Vma>, order: seq<nat>, n: nat, before: seq<nat>, pages: seq<nat>)
    requires Expanding(vmas, order, n, before, pages) && n < |order|
    requires forall i :: 0 <= i < |vmas| ==> Within(vmas[i], order[n] * PAGE) ==> Seen(vmas, order, n, i)
    ensures Expanding(vmas, order, n + 1, before, pages)
  {
    forall i | 0 <= i < |vmas| ensures Seen(vmas, order, n + 1, i) <==> Seen(vmas, order, n, i) {
      SeenNext(vmas, order, n, i);
    }
  }

  /**
   The expansion as written: touched pages in whatever order the set yields them, the last line kept so that its
   pages are not looked up again, and the starts of expanded lines kept so that none is pushed twice.
   */
  method ExpandLines(order: seq<nat>, vmas: seq<Vma>, before: seq<nat>) returns (pages: seq<nat>)
    requires MapsOk(vmas)
    ensures Expanding(vmas, order, |order|, before, pages)
  {
    pages := before;
    var expanded: set<nat> := {};
    var last: Option<nat> := None;
    for n := 0 to |order|
      invariant Expanding(vmas, order, n, before, pages)
      invariant last.Some? ==> last.value < |vmas| && Seen(vmas, order, n, last.value)
      invariant forall k :: 0 <= k < |vmas| && vmas[k].start in expanded ==> Seen(vmas, order, n, k)
    {
      var addr := order[n] * PAGE;
      forall k | 0 <= k < |vmas|
        ensures Seen(vmas, order, n + 1, k) <==> Seen(vmas, order, n, k) || Within(vmas[k], addr)
      {
        SeenNext(vmas, order, n, k);
      }
      if last.Some? && Within(vmas[last.value], addr) {
        forall i | 0 <= i < |vmas| && Within(vmas[i], addr) ensures Seen(vmas, order, n, i) {
          OneLine(vmas, addr, i, last.value);
        }
        ExpandingSkips(vmas, order, n, before, pages);
      } else {
        last := None;
        var k := FindLine(vmas, addr);
        if k == |vmas| {
          ExpandingSkips(vmas, order, n, before, pages);
        } else {
          last := Some(k);
          if Short(vmas[k]) && vmas[k].start !in expanded {
            ghost var was := pages;
            pages := PushRange(pages, vmas[k].start / PAGE, vmas[k].end / PAGE);
            ExpandingNext(vmas, order, n, before, was, pages, k);
            ghost var known := expanded;
            expanded := expanded + {vmas[k].start};
            StartsDiffer(vmas, known, k);
          } else {
            AlreadyThere(vmas, order, n, before, pages, k);
          }
        }
      }
    }
  }

  lemma StartsDiffer(vmas: seq<Vma>, known: set<nat>, k: nat)
    requires MapsOk(vmas) && k < |vmas|
    ensures forall i :: 0 <= i < |vmas| && vmas[i].start in known + {vmas[k].start} ==> vmas[i].start in known || i == k
  {
    forall i | 0 <= i < |vmas| && vmas[i].start == vmas[k].start ensures i == k {
      OneLine(vmas, vmas[k].start, i, k);
    }
  }

  lemma AlreadyThere(vmas: seq<Vma>, order: seq<nat>, n: nat, before: seq<nat>, pages: seq<nat>, k: nat)
    requires MapsOk(vmas) && Expanding(vmas, order, n, before, pages) && n < |order| && k < |vmas|
    requires Within(vmas[k], order[n] * PAGE)
    requires Short(vmas[k]) ==> Seen(vmas, order, n, k)
    ensures Expanding(vmas, order, n + 1, before, pages)
  {
    ExpandingNext(vmas, order, n, before, pages, pages, k);
  }

  /** The shortcuts select what the naive rule selects, in any order. */
  lemma ExpansionIsNaive(vmas: seq<Vma>, order: seq<nat>, before: seq<nat>, pages: seq<nat>)
    requires Expanding(vmas, order, |order|, before, pages)
    ensures forall p: nat :: p in pages <==> p in before || InTouchedLine(Elements(order), vmas, p)
  {
    forall k | 0 <= k < |vmas| ensures Seen(vmas, order, |order|, k) <==> LineTouched(Elements(order), vmas[k]) {
      if LineTouched(Elements(order), vmas[k]) {
        var q :| q in Elements(order) && Within(vmas[k], q * PAGE);
        var i :| 0 <= i < |order| && order[i] == q;
        assert Within(vmas[k], order[i] * PAGE);
      }
      if Seen(vmas, order, |order|, k) {
        var i :| 0 <= i < |order| && Within(vmas[k], order[i] * PAGE);
        assert order[i] in Elements(order);
      }
    }
  }

  /** All that a finalization selects. */
  predicate Selected(touched: set<nat>, sp: uint64, soStart: uint64, soEnd: uint64, vmas: seq<Vma>, p: nat) {
    p in touched || InStackWindow(sp, p) || InLibrary(soStart, soEnd, p) || InTouchedLine(touched, vmas, p)
  }

  ghost predicate IsSelection(selection: set<nat>, touched: set<nat>, sp: uint64, soStart: uint64, soEnd: uint64,
                              vmas: seq<Vma>) {
    forall p: nat :: p in selection <==> Selected(touched, sp, soStart, soEnd, vmas, p)
  }

  method SelectPages(order: seq<nat>, sp: uint64, soStart: uint64, soEnd: uint64, vmas: seq<Vma>)
    returns (pages: seq<nat>)
    requires MapsOk(vmas)
    ensures IsSelection(Elements(pages), Elements(order), sp, soStart, soEnd, vmas)
  {
    pages := order;
    if sp != 0 {
      pages := PushRange(pages, (sp - STACK_BELOW) % TWO64 / PAGE, (sp + STACK_ABOVE) % TWO64 / PAGE + 1);
    }
    if soStart != 0 && soEnd > soStart {
      pages := PushRange(pages, soStart / PAGE, (soEnd + PAGE - 1) % TWO64 / PAGE);
    }
    ghost var before := pages;
    pages := ExpandLines(order, vmas, pages);
    ExpansionIsNaive(vmas, order, before, pages);
  }

  // ---- into which files ----

  /** A run of pages by its byte addresses, as in a file's name. */
  datatype Range = Range(start: nat, end: nat)

  predicate Covers(r: Range, p: nat) {
    r.start <= p * PAGE < r.end
  }

  predicate Aligned(r: Range) {
    r.start % PAGE == 0 && r.end % PAGE == 0 && r.start < r.end
  }

  /** Page-aligned, not empty, in order and with a gap between any two. */
  predicate Separated(rs: seq<Range>) {
    && (forall i :: 0 <= i < |rs| ==> Aligned(rs[i]))
    && (forall i, j :: 0 <= i < j < |rs| ==> rs[i].end < rs[j].start)
  }

  predicate CoveredBy(rs: seq<Range>, p: nat) {
    exists i :: 0 <= i < |rs| && Covers(rs[i], p)
  }

  /** The pages that ranges cover. */
  ghost predicate Spans(ranges: seq<Range>, pages: set<nat>) {
    forall p: nat :: p in pages <==> CoveredBy(ranges, p)
  }

  lemma CoveredLast(rs: seq<Range>, r: Range, p: nat)
    ensures CoveredBy(rs + [r], p) <==> CoveredBy(rs, p) || Covers(r, p)
  {
    var all := rs + [r];
    if CoveredBy(rs, p) {
      var i :| 0 <= i < |rs| && Covers(rs[i], p);
      assert Covers(all[i], p);
    }
    if Covers(r, p) {
      assert Covers(all[|rs|], p);
    }
  }

  /** The loop's body: page p, which is not below the last page covered, lengthens the last range or starts one. */
  function Absorb(ranges: seq<Range>, p: nat): seq<Range> {
    var start, end := p * PAGE, (p + 1) * PAGE;
    if ranges != [] && start <= ranges[|ranges| - 1].end then
      if end > ranges[|ranges| - 1].end then ranges[..|ranges| - 1] + [Range(ranges[|ranges| - 1].start, end)]
      else ranges
    else ranges + [Range(start, end)]
  }

  /** The last page covered is q. */
  predicate EndsAt(ranges: seq<Range>, q: nat) {
    ranges != [] && ranges[|ranges| - 1].end == (q + 1) * PAGE
  }

  lemma AbsorbSeparated(ranges: seq<Range>, p: nat, q: nat)
    requires Separated(ranges) && (ranges != [] ==> q <= p && EndsAt(ranges, q))
    ensures Separated(Absorb(ranges, p)) && EndsAt(Absorb(ranges, p), p)
  {
  }

  lemma AbsorbCovers(ranges: seq<Range>, p: nat, q: nat)
    requires Separated(ranges) && (ranges != [] ==> q <= p && EndsAt(ranges, q))
    ensures forall x: nat :: CoveredBy(Absorb(ranges, p), x) <==> CoveredBy(ranges, x) || x == p
  {
    var start, end := p * PAGE, (p + 1) * PAGE;
    if ranges != [] && start <= ranges[|ranges| - 1].end {
      var last, front := ranges[|ranges| - 1], ranges[..|ranges| - 1];
      assert ranges == front + [last];
      forall x: nat ensures CoveredBy(Absorb(ranges, p), x) <==> CoveredBy(ranges, x) || x == p {
        CoveredLast(front, last, x);
        CoveredLast(front, Range(last.start, end), x);
      }
    } else {
      forall x: nat ensures CoveredBy(Absorb(ranges, p), x) <==> CoveredBy(ranges, x) || x == p {
        CoveredLast(ranges, Range(start, end), x);
      }
    }
  }

  /**
   coalesce: one pass over the sorted pages that lengthens the last range or starts a new one. The ranges cover
   exactly the given pages, repeated ones included, and no two of them touch.
   */
  method Coalesce(pages: seq<nat>) returns (ranges: seq<Range>)
    ensures Separated(ranges)
    ensures Spans(ranges, Elements(pages))
  {
    var sorted := Sort(pages);
    SortSorts(pages);
    ranges := [];
    for n := 0 to |sorted|
      invariant Separated(ranges) && (n == 0 ==> ranges == [])
      invariant n > 0 ==> EndsAt(ranges, sorted[n - 1])
      invariant forall p: nat :: CoveredBy(ranges, p) <==> p in sorted[..n]
    {
      var p := sorted[n];
      ghost var q := if n == 0 then 0 else sorted[n - 1];
      assert sorted[..n + 1] == sorted[..n] + [p];
      AbsorbSeparated(ranges, p, q);
      AbsorbCovers(ranges, p, q);
      var start, end := p * PAGE, (p + 1) * PAGE;
      if ranges != [] && start <= ranges[|ranges| - 1].end {
        if end > ranges[|ranges| - 1].end {
          ranges := ranges[..|ranges| - 1] + [Range(ranges[|ranges| - 1].start, end)];
        }
      } else {
        ranges := ranges + [Range(start, end)];
      }
    }
    assert sorted[..|sorted|] == sorted;
  }

  // ---- the session ----

  /** What a file of the pages from start up to end holds when the dump is `image`. */
  function FileBytes(image: map<nat, seq<byte>>, start: nat, end: nat): seq<byte>
    decreases end - start
  {
    if start >= end then [] else (if start in image then image[start] else []) + FileBytes(image, start + 1, end)
  }

  lemma {:induction false} FileBytesAgree(image1: map<nat, seq<byte>>, image2: map<nat, seq<byte>>, start: nat,
                                          end: nat)
    requires forall p: nat :: start <= p < end ==> p in image1 && p in image2 && image1[p] == image2[p]
    ensures FileBytes(image1, start, end) == FileBytes(image2, start, end)
    decreases end - start
  {
    if start < end {
      FileBytesAgree(image1, image2, start + 1, end);
    }
  }

  lemma {:induction false} FileBytesSnoc(image: map<nat, seq<byte>>, start: nat, end: nat)
    requires start <= end && end in image
    ensures FileBytes(image, start, end + 1) == FileBytes(image, start, end) + image[end]
    decreases end - start
  {
    if start < end {
      FileBytesSnoc(image, start + 1, end);
      var head := if start in image then image[start] else [];
      assert (head + FileBytes(image, start + 1, end)) + image[end]
          == head + (FileBytes(image, start + 1, end) + image[end]);
    }
  }

  predicate InSomeFile(names: set<Range>, p: nat) {
    exists r :: r in names && Covers(r, p)
  }

  /** The pages that are out are the pages of the files. */
  ghost predicate Accounted(names: set<Range>, out: set<nat>) {
    && (forall p: nat :: p in out ==> InSomeFile(names, p))
    && (forall r, p: nat :: r in names && Covers(r, p) ==> p in out)
  }

  ghost predicate NoneTwice(names: set<Range>) {
    forall r1, r2, p: nat :: r1 in names && r2 in names && Covers(r1, p) && Covers(r2, p) ==> r1 == r2
  }

  predicate Holds(r: Range, bytes: seq<byte>, image: map<nat, seq<byte>>) {
    bytes == FileBytes(image, r.start / PAGE, r.end / PAGE)
  }

  /** Files by name: the pages that are out, each in exactly one file, which holds its pages in order. */
  ghost predicate Filed(files: map<Range, seq<byte>>, image: map<nat, seq<byte>>) {
    && (forall r :: r in files ==> Aligned(r))
    && Accounted(files.Keys, image.Keys)
    && NoneTwice(files.Keys)
    && (forall r :: r in files ==> Holds(r, files[r], image))
  }

  /** The pages of a range. */
  function Span(r: Range): (pages: set<nat>)
    ensures forall p: nat :: p in pages <==> Covers(r, p)
  {
    set p: nat | p < r.end && Covers(r, p)
  }

  /** The dump with more pages out. */
  function Extended(image: map<nat, seq<byte>>, written: map<nat, seq<byte>>, mem: Memory, more: set<nat>)
    : map<nat, seq<byte>>
  {
    image + map p | p in more :: ImageOf(written, mem, p)
  }

  lemma FirstCovered(r: Range)
    requires Aligned(r)
    ensures Covers(r, r.start / PAGE)
  {
  }

  lemma CoversByNumber(r: Range, p: nat)
    requires Aligned(r)
    ensures Covers(r, p) <==> r.start / PAGE <= p < r.end / PAGE
  {
  }

  /** New is what no file covers yet. */
  ghost predicate NewTo(r: Range, out: set<nat>) {
    forall p: nat :: Covers(r, p) ==> p !in out
  }

  lemma NewName(names: set<Range>, out: set<nat>, r: Range)
    requires Accounted(names, out) && Aligned(r) && NewTo(r, out)
    ensures r !in names
  {
    FirstCovered(r);
  }

  lemma AccountedNext(names: set<Range>, out: set<nat>, r: Range, out2: set<nat>)
    requires Accounted(names, out)
    requires forall p: nat :: p in out2 <==> p in out || Covers(r, p)
    ensures Accounted(names + {r}, out2)
  {
    forall p: nat | p in out2 ensures InSomeFile(names + {r}, p) {
      if p in out {
        assert InSomeFile(names, p);
        var o :| o in names && Covers(o, p);
        assert o in names + {r};
      } else {
        assert r in names + {r} && Covers(r, p);
      }
    }
  }

  lemma NoneTwiceNext(names: set<Range>, out: set<nat>, r: Range)
    requires Accounted(names, out) && NoneTwice(names) && NewTo(r, out)
    ensures NoneTwice(names + {r})
  {
  }

  /** What a file holds does not change while its pages stay as they are. */
  lemma HoldsStill(r: Range, bytes: seq<byte>, image: map<nat, seq<byte>>, image2: map<nat, seq<byte>>)
    requires Aligned(r) && Holds(r, bytes, image)
    requires forall p: nat :: Covers(r, p) ==> p in image && p in image2 && image2[p] == image[p]
    ensures Holds(r, bytes, image2)
  {
    forall p: nat | r.start / PAGE <= p < r.end / PAGE ensures p in image && p in image2 && image[p] == image2[p] {
      CoversByNumber(r, p);
    }
    FileBytesAgree(image, image2, r.start / PAGE, r.end / PAGE);
  }

  /** One more file, of pages that were not out. */
  lemma FiledNext(files: map<Range, seq<byte>>, image: map<nat, seq<byte>>, r: Range, bytes: seq<byte>,
                  written: map<nat, seq<byte>>, mem: Memory)
    requires Filed(files, image) && Aligned(r) && NewTo(r, image.Keys)
    requires Holds(r, bytes, Extended(image, written, mem, Span(r)))
    ensures r !in files && Filed(files[r := bytes], Extended(image, written, mem, Span(r)))
  {
    var image2 := Extended(image, written, mem, Span(r));
    var files2 := files[r := bytes];
    assert files2.Keys == files.Keys + {r};
    NewName(files.Keys, image.Keys, r);
    AccountedNext(files.Keys, image.Keys, r, image2.Keys);
    NoneTwiceNext(files.Keys, image.Keys, r);
    forall o | o in files ensures Holds(o, files2[o], image2) {
      HoldsStill(o, files[o], image, image2);
    }
  }

  lemma ExtendedTwice(image: map<nat, seq<byte>>, written: map<nat, seq<byte>>, mem: Memory, more: set<nat>,
                      evenMore: set<nat>)
    ensures Extended(Extended(image, written, mem, more), written, mem, evenMore)
            == Extended(image, written, mem, more + evenMore)
  {
  }

  /** No page of a range is covered by the ranges before it. */
  lemma Apart(ranges: seq<Range>, n: nat, p: nat)
    requires Separated(ranges) && n < |ranges| && Covers(ranges[n], p)
    ensures !CoveredBy(ranges[..n], p)
  {
    forall i | 0 <= i < n ensures !Covers(ranges[i], p) {
      assert ranges[i].end < ranges[n].start;
    }
  }

  lemma SpansNext(ranges: seq<Range>, n: nat, done: set<nat>, all: set<nat>)
    requires Separated(ranges) && n < |ranges| && Spans(ranges[..n], done) && Spans(ranges, all)
    ensures Spans(ranges[..n + 1], done + Span(ranges[n]))
    ensures Aligned(ranges[n]) && Span(ranges[n]) <= all && Span(ranges[n]) !! done
  {
    assert ranges[..n + 1] == ranges[..n] + [ranges[n]];
    forall p: nat
      ensures CoveredBy(ranges[..n + 1], p) <==> CoveredBy(ranges[..n], p) || Covers(ranges[n], p)
      ensures Covers(ranges[n], p) ==> !CoveredBy(ranges[..n], p) && CoveredBy(ranges, p)
    {
      CoveredLast(ranges[..n], ranges[n], p);
      if Covers(ranges[n], p) {
        Apart(ranges, n, p);
      }
    }
  }

  lemma SpansAll(ranges: seq<Range>, done: set<nat>, all: set<nat>)
    requires Spans(ranges[..|ranges|], done) && Spans(ranges, all)
    ensures done == all
  {
    assert ranges[..|ranges|] == ranges;
  }

  /** The new pages of a selection are all that a finalization adds. */
  lemma ExtendedFinalizes(s: Session, mem: Memory, selected: set<nat>)
    ensures s.(image := Extended(s.image, s.written, mem, selected - s.image.Keys)) == Finalized(s, mem, selected)
    ensures Extended(s.image, s.written, mem, selected - s.image.Keys).Keys == s.image.Keys + selected
  {
  }

  /** One hook's user data: what it has noted, the registers of the first entry, and the files written so far. */
  class DumpSession {
    var pages: set<nat>
    var written: map<nat, seq<byte>>
    var dumped: set<nat>
    var entryCaptured: bool
    var xregs: seq<uint64>
    var sp: uint64
    var pc: uint64
    var files: map<Range, seq<byte>>
    ghost var image: map<nat, seq<byte>>

    /** The pages registered as dumped are those that are out, and the files hold just them. */
    ghost predicate Valid()
      reads this
    {
      image.Keys == dumped && Filed(files, image)
    }

    ghost function State(): Session
      reads this
    {
      Session(pages, written, image)
    }

    constructor ()
      ensures Valid() && State() == EMPTY && !entryCaptured && files == map[] && sp == 0
    {
      pages, written, dumped, files, image := {}, map[], {}, map[], map[];
      entryCaptured, xregs, sp, pc := false, [], 0, 0;
    }

    /** on_entry: the registers of the first entry are kept, later entries change nothing. */
    method OnEntry(address: uint64, xs: seq<uint64>, stack: uint64)
      requires Valid()
      modifies this`entryCaptured, this`xregs, this`sp, this`pc
      ensures Valid() && State() == old(State()) && entryCaptured
      ensures if old(entryCaptured) then xregs == old(xregs) && sp == old(sp) && pc == old(pc)
              else xregs == xs && sp == stack && pc == address
    {
      if entryCaptured {
        return;
      }
      entryCaptured := true;
      xregs, sp, pc := xs, stack, address;
    }

    /** on_mem, called before the access is done. */
    method OnMem(mem: Memory, isWrite: bool, addr: nat, size: int)
      requires Valid() && (isWrite ==> Touched(addr, size) <= mem.Keys)
      modifies this`pages, this`written
      ensures Valid() && State() == Noted(old(State()), mem, isWrite, addr, size)
    {
      var p, p1 := FirstPage(addr), LastPage(addr, size);
      while p <= p1
        invariant FirstPage(addr) <= p <= p1 + 1
        invariant forall q :: q in pages <==> q in old(pages) || FirstPage(addr) <= q < p
        invariant forall q :: q in written <==> q in old(written) || (isWrite && FirstPage(addr) <= q < p)
        invariant forall q :: q in written ==>
                      written[q] == if q in old(written) then old(written)[q] else PageOf(mem, q)
      {
        pages := pages + {p};
        if isWrite && p !in written {
          assert Touches(addr, size, p);
          written := written[p := mem[p]];
        }
        p := p + 1;
      }
      forall q: nat ensures FirstPage(addr) <= q < p <==> q in Touched(addr, size) {
        assert Touches(addr, size, q) <==> FirstPage(addr) <= q < p;
      }
      assert pages == Noted(old(State()), mem, isWrite, addr, size).pages;
      assert written == Noted(old(State()), mem, isWrite, addr, size).written;
    }

    /** The incremental dedupe: pages not registered yet are registered and kept. */
    method TakeFresh(selection: seq<nat>) returns (newPages: seq<nat>)
      modifies this`dumped
      ensures dumped == old(dumped) + Elements(selection)
      ensures Elements(newPages) == Elements(selection) - old(dumped)
    {
      newPages := [];
      for n := 0 to |selection|
        invariant dumped == old(dumped) + Elements(selection[..n])
        invariant forall p: nat :: p in newPages <==> p in selection[..n] && p !in old(dumped)
      {
        var p := selection[n];
        assert selection[..n + 1] == selection[..n] + [p];
        if p !in dumped {
          dumped := dumped + {p};
          newPages := newPages + [p];
        }
      }
      assert selection[..|selection|] == selection;
    }

    /** The bytes of one range, page by page: the snapshot of a page that was written, else what it holds now. */
    method RangeBytes(mem: Memory, r: Range, ghost out: map<nat, seq<byte>>) returns (bytes: seq<byte>)
      requires Aligned(r)
      requires forall p: nat :: Covers(r, p) ==> p in out && out[p] == ImageOf(written, mem, p)
      ensures Holds(r, bytes, out)
    {
      bytes := [];
      var p := r.start / PAGE;
      while p * PAGE < r.end
        invariant r.start / PAGE <= p <= r.end / PAGE
        invariant bytes == FileBytes(out, r.start / PAGE, p)
      {
        assert Covers(r, p);
        FileBytesSnoc(out, r.start / PAGE, p);
        bytes := bytes + if p in written then written[p] else PageOf(mem, p);
        p := p + 1;
      }
    }

    /** The file of one range of new pages. */
    method WriteRange(mem: Memory, r: Range)
      requires Filed(files, image) && Aligned(r) && NewTo(r, image.Keys)
      modifies this`files, this`image
      ensures Filed(files, image)
      ensures image == Extended(old(image), written, mem, Span(r))
      ensures forall o :: o in old(files) ==> o in files && files[o] == old(files)[o]
    {
      ghost var image2 := Extended(image, written, mem, Span(r));
      var bytes := RangeBytes(mem, r, image2);
      FiledNext(files, image, r, bytes, written, mem);
      files := files[r := bytes];
      image := image2;
    }

    /** The files of the new pages, one for each range. */
    method WriteRanges(mem: Memory, ranges: seq<Range>, ghost newPages: set<nat>)
      requires Filed(files, image) && Separated(ranges)
      requires Spans(ranges, newPages) && newPages !! image.Keys
      modifies this`files, this`image
      ensures Filed(files, image)
      ensures image == Extended(old(image), written, mem, newPages)
      ensures forall o :: o in old(files) ==> o in files && files[o] == old(files)[o]
    {
      ghost var done: set<nat> := {};
      for n := 0 to |ranges|
        invariant Filed(files, image)
        invariant Spans(ranges[..n], done)
        invariant image == Extended(old(image), written, mem, done)
        invariant forall o :: o in old(files) ==> o in files && files[o] == old(files)[o]
      {
        SpansNext(ranges, n, done, newPages);
        WriteRange(mem, ranges[n]);
        ExtendedTwice(old(image), written, mem, done, Span(ranges[n]));
        done := done + Span(ranges[n]);
      }
      SpansAll(ranges, done, newPages);
    }

    /** The part of do_finalize that writes: what is out stays out and as it is. */
    method WriteNew(mem: Memory, selection: seq<nat>)
      requires Valid()
      modifies this`dumped, this`files, this`image
      ensures Valid()
      ensures image == Finalized(old(State()), mem, Elements(selection)).image
      ensures forall r :: r in old(files) ==> r in files && files[r] == old(files)[r]
    {
      var newPages := TakeFresh(selection);
      var ranges := Coalesce(newPages);
      ExtendedFinalizes(State(), mem, Elements(selection));
      WriteRanges(mem, ranges, Elements(newPages));
    }

    /**
     do_finalize: the selected pages that are not out yet go into new files; nothing that is out is written again.
     `order` is the touched pages as the set yields them.
     */
    method Finalize(mem: Memory, order: seq<nat>, soStart: uint64, soEnd: uint64, vmas: seq<Vma>)
      returns (ghost selected: set<nat>)
      requires Valid() && MapsOk(vmas) && Elements(order) == pages
      modifies this`dumped, this`files, this`image
      ensures Valid()
      ensures IsSelection(selected, pages, sp, soStart, soEnd, vmas)
      ensures State() == Finalized(old(State()), mem, selected)
      ensures forall r :: r in old(files) ==> r in files && files[r] == old(files)[r]
    {
      var selection := SelectPages(order, sp, soStart, soEnd, vmas);
      selected := Elements(selection);
      WriteNew(mem, selection);
    }
  }

  /** The bytes of pages, one after the other, as memory holds them. */
  function MemoryBytes(mem: Memory, start: nat, end: nat): seq<byte>
    decreases end - start
  {
    if start >= end then [] else PageOf(mem, start) + MemoryBytes(mem, start + 1, end)
  }

  lemma {:induction false} FileIsMemory(image: map<nat, seq<byte>>, mem: Memory, start: nat, end: nat)
    requires forall p: nat :: start <= p < end ==> p in image && image[p] == PageOf(mem, p)
    ensures FileBytes(image, start, end) == MemoryBytes(mem, start, end)
    decreases end - start
  {
    if start < end {
      FileIsMemory(image, mem, start + 1, end);
    }
  }

  /**
   The files at the end of a run, over any number of calls and finalizations: every page ever selected is in one
   file and one only, no other page is in any, and every file holds what its addresses held at the first function
   entry, if memory changed through announced accesses only.
   */
  lemma FilesAreEntry(files: map<Range, seq<byte>>, mem: Memory, run: seq<Event>)
    requires LegalRun(mem, run) && Announced(run) && Filed(files, Play(EMPTY, mem, run).image)
    ensures forall p: nat :: EverSelected(run, p) <==> InSomeFile(files.Keys, p)
    ensures forall r1, r2, p: nat :: r1 in files && r2 in files && Covers(r1, p) && Covers(r2, p) ==> r1 == r2
    ensures forall r :: r in files ==> files[r] == MemoryBytes(mem, r.start / PAGE, r.end / PAGE)
  {
    var image := Play(EMPTY, mem, run).image;
    WholeDumpIsEntry(mem, run);
    forall p: nat ensures EverSelected(run, p) <==> InSomeFile(files.Keys, p) {
      assert p in image.Keys <==> EverSelected(run, p);
      if p in image.Keys {
        assert InSomeFile(files.Keys, p);
      }
    }
    forall r | r in files ensures files[r] == MemoryBytes(mem, r.start / PAGE, r.end / PAGE) {
      forall p: nat | r.start / PAGE <= p < r.end / PAGE ensures p in image && image[p] == PageOf(mem, p) {
        CoversByNumber(r, p);
        assert p in image.Keys;
      }
      FileIsMemory(image, mem, r.start / PAGE, r.end / PAGE);
      assert Holds(r, files[r], image);
    }
  }
}
