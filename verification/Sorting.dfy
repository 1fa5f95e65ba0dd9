/** Sorting, where the programs sort: by value, repeated elements kept. */
module Sorting {
  function Elements(s: seq<nat>): set<nat> {
    set p | p in s
  }

  function Insert(p: nat, s: seq<nat>): (r: seq<nat>)
    ensures |r| == |s| + 1
  {
    if s == [] || p <= s[0] then [p] + s else [s[0]] + Insert(p, s[1..])
  }

  /** Ascending order, by insertion. */
  function Sort(s: seq<nat>): (r: seq<nat>)
    ensures |r| == |s|
  {
    if s == [] then [] else Insert(s[0], Sort(s[1..]))
  }

  predicate Ascending(s: seq<nat>) {
    forall i, j :: 0 <= i < j < |s| ==> s[i] <= s[j]
  }

  lemma {:induction false} InsertKeeps(p: nat, s: seq<nat>)
    requires Ascending(s)
    ensures Ascending(Insert(p, s)) && forall q: nat :: q in Insert(p, s) <==> q == p || q in s
  {
    if s != [] && p > s[0] {
      InsertKeeps(p, s[1..]);
      var r := Insert(p, s[1..]);
      forall k | 0 <= k < |r| ensures s[0] <= r[k] {
        assert r[k] in r;
        if r[k] != p {
          assert r[k] in s[1..];
        }
      }
      assert s == [s[0]] + s[1..];
    }
  }

  predicate Rising(s: seq<nat>) {
    forall i, j :: 0 <= i < j < |s| ==> s[i] < s[j]
  }

  lemma {:induction false} InsertRises(p: nat, s: seq<nat>)
    requires Rising(s) && p !in s
    ensures Rising(Insert(p, s))
  {
    if s != [] && p > s[0] {
      InsertRises(p, s[1..]);
      InsertKeeps(p, s[1..]);
      var r := Insert(p, s[1..]);
      forall k | 0 <= k < |r| ensures s[0] < r[k] {
        assert r[k] in r;
      }
    }
  }

  lemma {:induction false} InsertCounts(p: nat, s: seq<nat>)
    ensures multiset(Insert(p, s)) == multiset{p} + multiset(s)
  {
    if s != [] && p > s[0] {
      InsertCounts(p, s[1..]);
      assert s == [s[0]] + s[1..];
    }
  }

  lemma {:induction false} SortSorts(s: seq<nat>)
    ensures Ascending(Sort(s)) && multiset(Sort(s)) == multiset(s)
    ensures forall q: nat :: q in Sort(s) <==> q in s
  {
    if s != [] {
      SortSorts(s[1..]);
      InsertKeeps(s[0], Sort(s[1..]));
      InsertCounts(s[0], Sort(s[1..]));
      assert s == [s[0]] + s[1..];
    }
  }

  /** The elements of a set in ascending order, each once. */
  method SortedSet(s: set<nat>) returns (r: seq<nat>)
    ensures Rising(r) && (forall q: nat :: q in r <==> q in s) && |r| == |s|
  {
    r := [];
    var rest := s;
    while rest != {}
      invariant rest <= s && Rising(r) && |r| + |rest| == |s|
      invariant forall q: nat :: q in r <==> q in s && q !in rest
    {
      var p :| p in rest;
      InsertKeeps(p, r);
      InsertRises(p, r);
      r := Insert(p, r);
      rest := rest - {p};
    }
  }
}
