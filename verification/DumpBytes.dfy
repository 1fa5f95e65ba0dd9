/** The choice of pages said in addresses: what a finalization selects besides the pages touched. */
module DumpBytes {
  import opened Bytes
  import opened DumpModel
  import opened DumpSession

  /** The pages of the 64 KB below the stack pointer and of the 8 KB above it. */
  lemma StackExact(sp: uint64, p: nat)
    requires 0x10000 <= sp && sp + 0x2000 < TWO64
    ensures InStackWindow(sp, p) <==> exists a: nat :: sp - 0x10000 <= a <= sp + 0x2000 && PageAt(a) == p
  {
    assert (sp - 0x10000) % TWO64 == sp - 0x10000 && (sp + 0x2000) % TWO64 == sp + 0x2000;
    if InStackWindow(sp, p) {
      var lo: nat := sp - 0x10000;
      var a: nat := if p == PageAt(lo) then lo else p * 0x1000;
      assert lo <= a <= sp + 0x2000 && PageAt(a) == p;
    }
    if a: nat :| sp - 0x10000 <= a <= sp + 0x2000 && PageAt(a) == p {
      assert (sp - 0x10000) / 0x1000 <= a / 0x1000 <= (sp + 0x2000) / 0x1000;
    }
  }

  /** The pages of the target library, the last one whole. */
  lemma LibraryExact(start: uint64, end: uint64, p: nat)
    requires 0 < start < end && end + 0xFFF < TWO64
    ensures InLibrary(start, end, p) <==> exists a: nat :: start <= a < end && PageAt(a) == p
  {
    assert (end + 0xFFF) % TWO64 == end + 0xFFF;
    assert (end + 0xFFF) / 0x1000 == (end - 1) / 0x1000 + 1;
    if InLibrary(start, end, p) {
      var a: nat := if p == PageAt(start) then start else p * 0x1000;
      assert start <= a < end && PageAt(a) == p;
    }
    if a: nat :| start <= a < end && PageAt(a) == p {
      assert start / 0x1000 <= a / 0x1000 <= (end - 1) / 0x1000;
    }
  }

  /** A page of a line of the maps, if one of its pages is touched and it is no longer than 64 MB. */
  ghost predicate OnShortLine(touched: set<nat>, vmas: seq<Vma>, p: nat) {
    exists i, q, a: nat, b: nat ::
      && OnLine(vmas, i, a) && OnLine(vmas, i, b) && vmas[i].end - vmas[i].start <= 0x4000000
      && PageAt(a) == p && PageAt(b) == q && q in touched
  }

  predicate OnLine(vmas: seq<Vma>, i: int, a: nat) {
    0 <= i < |vmas| && vmas[i].start <= a < vmas[i].end
  }

  lemma LineHasBytes(touched: set<nat>, vmas: seq<Vma>, p: nat)
    requires MapsOk(vmas) && InTouchedLine(touched, vmas, p)
    ensures OnShortLine(touched, vmas, p)
  {
    var i :| 0 <= i < |vmas| && vmas[i].end - vmas[i].start <= VMA_EXPAND_CAP && PageIn(vmas[i], p)
             && LineTouched(touched, vmas[i]);
    var q :| q in touched && Within(vmas[i], q * PAGE);
    assert OnLine(vmas, i, p * 0x1000) && OnLine(vmas, i, q * 0x1000);
    assert PageAt(p * 0x1000) == p && PageAt(q * 0x1000) == q;
  }

  lemma BytesHaveLine(touched: set<nat>, vmas: seq<Vma>, p: nat)
    requires MapsOk(vmas) && OnShortLine(touched, vmas, p)
    ensures InTouchedLine(touched, vmas, p)
  {
    var i, q, a: nat, b: nat :|
      && OnLine(vmas, i, a) && OnLine(vmas, i, b) && vmas[i].end - vmas[i].start <= 0x4000000
      && PageAt(a) == p && PageAt(b) == q && q in touched;
    PageStarts(vmas[i], b);
    PageStarts(vmas[i], a);
    assert Within(vmas[i], q * PAGE) && LineTouched(touched, vmas[i]);
    assert PageIn(vmas[i], p);
  }

  lemma LineExact(touched: set<nat>, vmas: seq<Vma>, p: nat)
    requires MapsOk(vmas)
    ensures InTouchedLine(touched, vmas, p) <==> OnShortLine(touched, vmas, p)
  {
    if InTouchedLine(touched, vmas, p) {
      LineHasBytes(touched, vmas, p);
    }
    if OnShortLine(touched, vmas, p) {
      BytesHaveLine(touched, vmas, p);
    }
  }

  /**
   All that a finalization selects: the pages touched, those of the stack window, of the library and of short touched
   lines, and no others.
   */
  lemma SelectionExact(selection: set<nat>, touched: set<nat>, sp: uint64, soStart: uint64, soEnd: uint64,
                       vmas: seq<Vma>, p: nat)
    requires IsSelection(selection, touched, sp, soStart, soEnd, vmas) && MapsOk(vmas)
    requires 0x10000 <= sp && sp + 0x2000 < TWO64 && 0 < soStart < soEnd && soEnd + 0xFFF < TWO64
    ensures p in selection <==>
              || p in touched
              || (exists a: nat :: sp - 0x10000 <= a <= sp + 0x2000 && PageAt(a) == p)
              || (exists a: nat :: soStart <= a < soEnd && PageAt(a) == p)
              || OnShortLine(touched, vmas, p)
  {
    StackExact(sp, p);
    LibraryExact(soStart, soEnd, p);
    LineExact(touched, vmas, p);
    assert Selected(touched, sp, soStart, soEnd, vmas, p) <==> p in selection;
  }

  /** Without a stack pointer and without a library neither adds a page. */
  lemma SelectionBare(selection: set<nat>, touched: set<nat>, soEnd: uint64, vmas: seq<Vma>, p: nat)
    requires IsSelection(selection, touched, 0, 0, soEnd, vmas) && MapsOk(vmas)
    ensures p in selection <==> p in touched || OnShortLine(touched, vmas, p)
  {
    LineExact(touched, vmas, p);
    assert Selected(touched, 0, 0, soEnd, vmas, p) <==> p in selection;
  }

  /** With an address a line holds the whole page. */
  lemma PageStarts(v: Vma, a: nat)
    requires v.start % 0x1000 == 0 && v.end % 0x1000 == 0 && v.start <= a < v.end
    ensures v.start <= PageAt(a) * 0x1000 < v.end && v.start / 0x1000 <= PageAt(a) < v.end / 0x1000
  {
    assert v.start == 0x1000 * (v.start / 0x1000) && v.end == 0x1000 * (v.end / 0x1000);
  }
}
