/** Looking up symbols in a table sorted by address. */
module SymbolTable {
  import opened Bytes

  const NO_SIZE_SPAN: nat := 0x1000

  datatype SymEntry = SymEntry(addr: uint64, size: uint64, name: string)

  predicate SortedByAddr(es: seq<SymEntry>) {
    forall i, j :: 0 <= i < j < |es| ==> es[i].addr <= es[j].addr
  }

  /** By its size, or within 4 KB of its start if it has none; no symbol reaches past the end of the address space. */
  predicate Covers(e: SymEntry, addr: nat) {
    e.addr <= addr < e.addr + if e.size > 0 then e.size else 0x1000
  }

  /** The first entry not below the address. */
  method LowerBound(es: seq<SymEntry>, addr: nat) returns (k: nat)
    requires SortedByAddr(es)
    ensures k <= |es|
    ensures forall i :: 0 <= i < |es| ==> (i < k <==> es[i].addr < addr)
  {
    var lo, hi := 0, |es|;
    while lo < hi
      invariant 0 <= lo <= hi <= |es|
      invariant forall i :: 0 <= i < lo ==> es[i].addr < addr
      invariant forall i :: hi <= i < |es| ==> es[i].addr >= addr
    {
      var mid := (lo + hi) / 2;
      if es[mid].addr < addr {
        lo := mid + 1;
      } else {
        hi := mid;
      }
    }
    k := lo;
  }

  /** The first entry above the address. */
  method UpperBound(es: seq<SymEntry>, addr: nat) returns (k: nat)
    requires SortedByAddr(es)
    ensures k <= |es|
    ensures forall i :: 0 <= i < |es| ==> (i < k <==> es[i].addr <= addr)
  {
    k := LowerBound(es, addr + 1);
  }

  /** findExact: a name if and only if some entry starts at the address, and then the first one's. */
  method FindExact(es: seq<SymEntry>, addr: uint64) returns (r: Option<string>)
    requires SortedByAddr(es)
    ensures r.Some? <==> exists i :: 0 <= i < |es| && es[i].addr == addr
    ensures r.Some? ==> exists i :: 0 <= i < |es| && es[i].addr == addr && es[i].name == r.value
                                    && forall j :: 0 <= j < i ==> es[j].addr != addr
  {
    var k := LowerBound(es, addr);
    if k < |es| && es[k].addr == addr {
      return Some(es[k].name);
    }
    return None;
  }

  /** The last entry at or below the address, which is the only one looked at. */
  predicate Nearest(es: seq<SymEntry>, addr: nat, k: nat) {
    k < |es| && es[k].addr <= addr && forall i :: k < i < |es| ==> es[i].addr > addr
  }

  /** findContaining: the nearest entry if it covers the address. */
  method FindContaining(es: seq<SymEntry>, addr: uint64) returns (r: Option<SymEntry>)
    requires SortedByAddr(es) && forall i :: 0 <= i < |es| ==> es[i].addr + es[i].size < TWO64
    ensures r.Some? <==> exists k: nat :: Nearest(es, addr, k) && Covers(es[k], addr)
    ensures r.Some? ==> r.value in es && Covers(r.value, addr)
    ensures forall k: nat :: Nearest(es, addr, k) && Covers(es[k], addr) ==> r == Some(es[k])
    ensures NoOverlap(es) ==> (r.Some? <==> exists i :: 0 <= i < |es| && Covers(es[i], addr))
  {
    var k := UpperBound(es, addr);
    if k == 0 {
      assert forall i :: 0 <= i < |es| ==> es[i].addr > addr;
      return None;
    }
    assert Nearest(es, addr, k - 1);
    if NoOverlap(es) {
      OnlyNearest(es, addr, k - 1);
    }
    var e := es[k - 1];
    if e.size > 0 {
      if addr < e.addr + e.size {
        return Some(e);
      }
      return None;
    }
    if addr - e.addr < NO_SIZE_SPAN {
      return Some(e);
    }
    return None;
  }

  /** Sized symbols, none reaching into the next. */
  predicate NoOverlap(es: seq<SymEntry>) {
    forall i, j :: 0 <= i < j < |es| ==> 0 < es[i].size && es[i].addr + es[i].size <= es[j].addr
  }

  /** Without overlap no entry but the nearest can cover the address. */
  lemma OnlyNearest(es: seq<SymEntry>, addr: nat, k: nat)
    requires NoOverlap(es) && Nearest(es, addr, k)
    ensures forall i :: 0 <= i < |es| && Covers(es[i], addr) ==> i == k
  {
    forall i | 0 <= i < k ensures !Covers(es[i], addr) {
      assert es[i].addr + es[i].size <= es[k].addr;
    }
  }
}
