/**
 Printing a call graph as an indented tree: every function is expanded where it first appears, later appearances
 refer back to that line, and a function on the current chain of calls is not followed again.
 */
module CallTree {
  import opened Bytes
  import opened CallGraph
  import opened Sorting

  const HEADER_ROWS: nat := 14
  const MAX_DEPTH: nat := 60

  datatype Mark = First | Again | See(line: nat) | Recursive

  datatype Row = Header | Fun(depth: nat, off: nat, mark: Mark) | Omitted(depth: nat)

  /** The functions a function calls. */
  function Calls(edges: Graph, off: nat): set<nat> {
    if off in edges then edges[off].Keys else {}
  }

  ghost predicate Closed(edges: Graph, funs: set<nat>) {
    forall f, c :: f in funs && c in Calls(edges, f) ==> c in funs
  }

  predicate FirstRow(rows: seq<Row>, f: nat, line: nat) {
    1 <= line <= |rows| && rows[line - 1].Fun? && rows[line - 1].off == f && rows[line - 1].mark == First
  }

  /** Every function has one first row, at the line kept for it, and it stands above all other rows of the function. */
  ghost predicate Firsts(rows: seq<Row>, expanded: map<nat, nat>) {
    && (forall f :: f in expanded ==> FirstRow(rows, f, expanded[f]))
    && (forall i :: 0 <= i < |rows| && rows[i].Fun? ==> rows[i].off in expanded && expanded[rows[i].off] <= i + 1)
    && (forall i :: 0 <= i < |rows| && rows[i].Fun? && rows[i].mark == First ==> expanded[rows[i].off] == i + 1)
  }

  /** A reference names the line that first printed its function. */
  ghost predicate Refs(rows: seq<Row>, expanded: map<nat, nat>) {
    forall i :: 0 <= i < |rows| && rows[i].Fun? && rows[i].mark.See? ==>
                  rows[i].off in expanded && rows[i].mark.line == expanded[rows[i].off]
  }

  function DepthOf(r: Row): nat {
    match r case Header => 0 case Fun(d, _, _) => d case Omitted(d) => d
  }

  /** Row p is the caller of a function that is about to be printed, or was printed at row i. */
  predicate Under(edges: Graph, rows: seq<Row>, p: nat, i: nat, off: nat, depth: nat) {
    && p < i <= |rows| && rows[p].Fun? && rows[p].mark == First
    && rows[p].depth + 1 == depth && off in Calls(edges, rows[p].off)
    && forall m :: p < m < i ==> DepthOf(rows[m]) >= depth
  }

  /** Every indented row stands under the row of a function that calls it. */
  ghost predicate Nested(edges: Graph, rows: seq<Row>) {
    forall i :: 0 <= i < |rows| && rows[i].Fun? && rows[i].depth > 0 ==> HasCaller(edges, rows, i)
  }

  ghost predicate HasCaller(edges: Graph, rows: seq<Row>, i: nat)
    requires i < |rows| && rows[i].Fun?
  {
    exists p :: Under(edges, rows, p, i, rows[i].off, rows[i].depth)
  }

  /** Row p first prints function f and is an ancestor of a row of that depth that comes next. */
  predicate Above(rows: seq<Row>, p: nat, f: nat, depth: nat) {
    && p < |rows| && rows[p].Fun? && rows[p].mark == First && rows[p].off == f && rows[p].depth < depth
    && forall m :: p < m < |rows| ==> DepthOf(rows[m]) > rows[p].depth
  }

  ghost predicate OnChain(rows: seq<Row>, f: nat, depth: nat) {
    exists p :: Above(rows, p, f, depth)
  }

  /** The mark of a row: a function on the chain above it, one that calls nothing, or a reference. */
  ghost predicate Marked(edges: Graph, before: seq<Row>, r: Row)
    requires r.Fun?
  {
    match r.mark
    case First => !OnChain(before, r.off, r.depth)
    case Recursive => OnChain(before, r.off, r.depth)
    case Again => !OnChain(before, r.off, r.depth) && Calls(edges, r.off) == {}
    case See(_) => !OnChain(before, r.off, r.depth) && Calls(edges, r.off) != {}
  }

  ghost predicate AllMarked(edges: Graph, rows: seq<Row>) {
    forall i :: 0 <= i < |rows| && rows[i].Fun? ==> Marked(edges, rows[..i], rows[i])
  }

  /** The functions on the chain above a next row of that depth. */
  ghost predicate ChainIs(rows: seq<Row>, anc: set<nat>, depth: nat) {
    forall f :: f in anc <==> OnChain(rows, f, depth)
  }

  /** The text so far, row by row from its end: what each row needs of the rows before it. */
  ghost predicate Good(edges: Graph, rows: seq<Row>, expanded: map<nat, nat>)
    decreases |rows|
  {
    if rows == [] then expanded == map[]
    else
      var before, r := rows[..|rows| - 1], rows[|rows| - 1];
      if !r.Fun? then Good(edges, before, expanded)
      else
        && r.off in expanded && Marked(edges, before, r)
        && (r.depth > 0 ==> exists p :: Under(edges, before, p, |before|, r.off, r.depth))
        && if r.mark == First then expanded[r.off] == |rows| && Good(edges, before, expanded - {r.off})
           else (r.mark.See? ==> r.mark.line == expanded[r.off]) && Good(edges, before, expanded)
  }

  /** Row i prints function c directly under row p. */
  predicate Child(rows: seq<Row>, p: nat, i: nat, c: nat) {
    && p < i < |rows| && rows[i].Fun? && rows[i].off == c && rows[i].depth == DepthOf(rows[p]) + 1
    && forall m :: p < m < i ==> DepthOf(rows[m]) > DepthOf(rows[p])
  }

  ghost predicate NoChild(rows: seq<Row>, p: nat, c: nat) {
    forall i :: !Child(rows, p, i, c)
  }

  ghost predicate OneChild(rows: seq<Row>, p: nat, c: nat) {
    (exists i :: Child(rows, p, i, c)) && forall i, j :: Child(rows, p, i, c) && Child(rows, p, j, c) ==> i == j
  }

  ghost predicate ChildrenBelow(rows: seq<Row>, p: nat, c: nat) {
    forall i, b: nat :: Child(rows, p, i, b) ==> b < c
  }

  /** A next row of depth k is not under row p. */
  predicate Shut(rows: seq<Row>, p: nat, k: nat)
    requires p < |rows|
  {
    DepthOf(rows[p]) >= k || exists m :: p < m < |rows| && DepthOf(rows[m]) <= DepthOf(rows[p])
  }

  /** The functions directly under a row come in ascending order. */
  ghost predicate ChildrenRise(rows: seq<Row>, p: nat) {
    forall i, j, a: nat, b: nat :: i < j && Child(rows, p, i, a) && Child(rows, p, j, b) ==> a < b
  }

  /**
   Each call of an expanded function is printed under its first row, once and in order; unless the function was too
   deep.
   */
  ghost predicate Complete(edges: Graph, rows: seq<Row>, p: nat, f: nat) {
    && p < |rows|
    && (DepthOf(rows[p]) >= 60 || (ChildrenRise(rows, p) && forall c :: c in Calls(edges, f) ==> OneChild(rows, p, c)))
  }

  /** An expanded function is complete, and stays so when a row of depth k comes next. */
  ghost predicate Done(edges: Graph, rows: seq<Row>, expanded: map<nat, nat>, f: nat, k: nat) {
    && f in expanded && 1 <= expanded[f] <= |rows|
    && Complete(edges, rows, expanded[f] - 1, f)
    && (DepthOf(rows[expanded[f] - 1]) >= MAX_DEPTH
        || (Calls(edges, f) <= expanded.Keys && Shut(rows, expanded[f] - 1, k)))
  }

  ghost predicate AllDone(edges: Graph, rows: seq<Row>, expanded: map<nat, nat>, but: set<nat>, k: nat) {
    forall f {:trigger Done(edges, rows, expanded, f, k)} ::
      f in expanded && f !in but ==> Done(edges, rows, expanded, f, k)
  }

  predicate Deep(rows: seq<Row>, from: nat, depth: nat) {
    forall i :: from <= i < |rows| ==> DepthOf(rows[i]) >= depth
  }

  lemma DeepNext(rows: seq<Row>, rows2: seq<Row>, from: nat, depth: nat)
    requires Deep(rows, from, depth) && |rows| <= |rows2| && rows2[..|rows|] == rows && Deep(rows2, |rows|, depth)
    ensures Deep(rows2, from, depth)
  {
    forall i | from <= i < |rows| ensures DepthOf(rows2[i]) >= depth {
      assert rows2[..|rows|][i] == rows[i];
    }
  }

  /** Rows are only added and lines only entered. */
  ghost predicate Grown(rows: seq<Row>, expanded: map<nat, nat>, rows2: seq<Row>, expanded2: map<nat, nat>) {
    && |rows| <= |rows2| && rows2[..|rows|] == rows
    && forall f :: f in expanded ==> f in expanded2 && expanded2[f] == expanded[f]
  }

  lemma GrownOn(rows: seq<Row>, expanded: map<nat, nat>, rows2: seq<Row>, expanded2: map<nat, nat>, rows3: seq<Row>,
                expanded3: map<nat, nat>)
    requires Grown(rows, expanded, rows2, expanded2) && Grown(rows2, expanded2, rows3, expanded3)
    ensures Grown(rows, expanded, rows3, expanded3)
  {
    assert rows3[..|rows|] == rows3[..|rows2|][..|rows|];
  }

  /** A row for a function that has been expanded before. */
  lemma GoodAgain(edges: Graph, rows: seq<Row>, expanded: map<nat, nat>, r: Row, p: nat)
    requires Good(edges, rows, expanded)
    requires r.Fun? ==> r.off in expanded && r.mark != First && (r.mark.See? ==> r.mark.line == expanded[r.off])
    requires r.Fun? && r.depth > 0 ==> Under(edges, rows, p, |rows|, r.off, r.depth)
    requires r.Fun? ==> Marked(edges, rows, r)
    ensures Good(edges, rows + [r], expanded)
  {
    assert (rows + [r])[..|rows|] == rows;
  }

  /** A row for a function that has not. */
  lemma GoodFirst(edges: Graph, rows: seq<Row>, expanded: map<nat, nat>, off: nat, depth: nat, p: nat)
    requires Good(edges, rows, expanded) && off !in expanded && !OnChain(rows, off, depth)
    requires depth > 0 ==> Under(edges, rows, p, |rows|, off, depth)
    ensures Good(edges, rows + [Fun(depth, off, First)], expanded[off := |rows| + 1])
  {
    assert (rows + [Fun(depth, off, First)])[..|rows|] == rows;
    assert expanded[off := |rows| + 1] - {off} == expanded;
  }

  lemma UnderMore(edges: Graph, rows: seq<Row>, rows2: seq<Row>, p: nat, i: nat, off: nat, depth: nat)
    requires Under(edges, rows, p, i, off, depth) && |rows| <= |rows2| && rows2[..|rows|] == rows
    ensures Under(edges, rows2, p, i, off, depth)
  {
    forall m | p <= m < i ensures rows2[m] == rows[m] {
      assert rows2[..|rows|][m] == rows[m];
    }
  }

  lemma {:induction false} GoodFirsts(edges: Graph, rows: seq<Row>, expanded: map<nat, nat>)
    requires Good(edges, rows, expanded)
    ensures Firsts(rows, expanded)
    decreases |rows|
  {
    if rows != [] {
      var before, r := rows[..|rows| - 1], rows[|rows| - 1];
      var e := if r.Fun? && r.mark == First then expanded - {r.off} else expanded;
      GoodFirsts(edges, before, e);
      forall f | f in expanded ensures FirstRow(rows, f, expanded[f]) {
        if f in e {
          assert FirstRow(before, f, e[f]);
        }
      }
      forall i | 0 <= i < |rows| && rows[i].Fun?
        ensures rows[i].off in expanded && expanded[rows[i].off] <= i + 1
        ensures rows[i].mark == First ==> expanded[rows[i].off] == i + 1
      {
        if i < |before| {
          assert before[i] == rows[i];
        }
      }
    }
  }

  lemma {:induction false} GoodRefs(edges: Graph, rows: seq<Row>, expanded: map<nat, nat>)
    requires Good(edges, rows, expanded)
    ensures Refs(rows, expanded)
    decreases |rows|
  {
    if rows != [] {
      var before, r := rows[..|rows| - 1], rows[|rows| - 1];
      GoodRefs(edges, before, if r.Fun? && r.mark == First then expanded - {r.off} else expanded);
      forall i | 0 <= i < |before| ensures rows[i] == before[i] {
      }
    }
  }

  lemma {:induction false} GoodNested(edges: Graph, rows: seq<Row>, expanded: map<nat, nat>)
    requires Good(edges, rows, expanded)
    ensures Nested(edges, rows)
    decreases |rows|
  {
    if rows != [] {
      var before, r := rows[..|rows| - 1], rows[|rows| - 1];
      GoodNested(edges, before, if r.Fun? && r.mark == First then expanded - {r.off} else expanded);
      forall i | 0 <= i < |rows| && rows[i].Fun? && rows[i].depth > 0 ensures HasCaller(edges, rows, i) {
        if i < |before| {
          assert before[i] == rows[i] && HasCaller(edges, before, i);
        }
        var p :| Under(edges, before, p, i, rows[i].off, rows[i].depth);
        UnderMore(edges, before, rows, p, i, rows[i].off, rows[i].depth);
      }
    }
  }

  lemma {:induction false} GoodMarks(edges: Graph, rows: seq<Row>, expanded: map<nat, nat>)
    requires Good(edges, rows, expanded)
    ensures AllMarked(edges, rows)
    decreases |rows|
  {
    if rows != [] {
      var before, r := rows[..|rows| - 1], rows[|rows| - 1];
      GoodMarks(edges, before, if r.Fun? && r.mark == First then expanded - {r.off} else expanded);
      forall i | 0 <= i < |rows| && rows[i].Fun? ensures Marked(edges, rows[..i], rows[i]) {
        if i < |before| {
          assert before[i] == rows[i] && before[..i] == rows[..i];
        }
      }
    }
  }

  /** Rows below that depth leave the chain as it is. */
  lemma ChainDeep(rows: seq<Row>, rows2: seq<Row>, anc: set<nat>, depth: nat)
    requires ChainIs(rows, anc, depth) && |rows| <= |rows2| && rows2[..|rows|] == rows && Deep(rows2, |rows|, depth)
    ensures ChainIs(rows2, anc, depth)
  {
    assert forall m :: 0 <= m < |rows| ==> rows2[m] == rows2[..|rows|][m] == rows[m];
    forall f ensures OnChain(rows, f, depth) <==> OnChain(rows2, f, depth) {
      if p :| Above(rows, p, f, depth) {
        assert Above(rows2, p, f, depth);
      }
      if p :| Above(rows2, p, f, depth) {
        assert Above(rows, p, f, depth);
      }
    }
  }

  /** A first row is the chain's next. */
  lemma ChainFirst(rows: seq<Row>, anc: set<nat>, off: nat, depth: nat)
    requires ChainIs(rows, anc, depth)
    ensures ChainIs(rows + [Fun(depth, off, First)], anc + {off}, depth + 1)
  {
    var rows2, d := rows + [Fun(depth, off, First)], depth + 1;
    assert forall m :: 0 <= m < |rows| ==> rows2[m] == rows[m];
    forall f ensures OnChain(rows2, f, d) <==> OnChain(rows, f, depth) || f == off {
      if p :| Above(rows, p, f, depth) {
        assert Above(rows2, p, f, d);
      }
      if f == off {
        assert Above(rows2, |rows|, f, d);
      }
      if p: nat :| Above(rows2, p, f, d) {
        if p < |rows| {
          assert DepthOf(rows2[|rows|]) == depth;
          assert Above(rows, p, f, depth);
        }
      }
    }
  }

  lemma ChainTop(rows: seq<Row>)
    ensures ChainIs(rows, {}, 0)
  {
  }

  /** One more row is a child of p if it is one deeper and nothing came between. */
  lemma ChildNext(rows: seq<Row>, r: Row, p: nat, i: nat, c: nat)
    requires p < |rows|
    ensures Child(rows + [r], p, i, c) <==>
              || Child(rows, p, i, c)
              || (i == |rows| && r.Fun? && r.off == c && r.depth == DepthOf(rows[p]) + 1
                  && forall m :: p < m < |rows| ==> DepthOf(rows[m]) > DepthOf(rows[p]))
  {
    var rows2 := rows + [r];
    assert forall m :: 0 <= m < |rows| ==> rows2[m] == rows[m];
  }

  /** What is shut to a row of that depth gets no child by it, and is shut for good. */
  lemma ShutNext(rows: seq<Row>, r: Row, p: nat, k: nat, k2: nat)
    requires p < |rows| && Shut(rows, p, k) && DepthOf(r) == k
    ensures Shut(rows + [r], p, k2)
    ensures forall i, c :: Child(rows + [r], p, i, c) <==> Child(rows, p, i, c)
  {
    var rows2 := rows + [r];
    if DepthOf(rows[p]) >= k {
      assert DepthOf(rows2[|rows|]) <= DepthOf(rows2[p]);
    } else {
      var m :| p < m < |rows| && DepthOf(rows[m]) <= DepthOf(rows[p]);
      assert rows2[m] == rows[m];
    }
    forall i, c ensures Child(rows2, p, i, c) <==> Child(rows, p, i, c) {
      ChildNext(rows, r, p, i, c);
    }
  }

  lemma OneChildSame(rows: seq<Row>, rows2: seq<Row>, p: nat, c: nat)
    requires OneChild(rows, p, c) && forall i :: Child(rows2, p, i, c) <==> Child(rows, p, i, c)
    ensures OneChild(rows2, p, c)
  {
    var i :| Child(rows, p, i, c);
    assert Child(rows2, p, i, c);
    forall m, n | Child(rows2, p, m, c) && Child(rows2, p, n, c) ensures m == n {
      assert Child(rows, p, m, c) && Child(rows, p, n, c);
    }
  }

  lemma DoneNext(edges: Graph, rows: seq<Row>, expanded: map<nat, nat>, f: nat, k: nat, r: Row,
                 expanded2: map<nat, nat>, k2: nat)
    requires Done(edges, rows, expanded, f, k) && DepthOf(r) == k && Grown(rows, expanded, rows + [r], expanded2)
    ensures Done(edges, rows + [r], expanded2, f, k2)
  {
    var p := expanded[f] - 1;
    assert (rows + [r])[p] == rows[p];
    if DepthOf(rows[p]) < MAX_DEPTH {
      ShutNext(rows, r, p, k, k2);
      forall c | c in Calls(edges, f) ensures OneChild(rows + [r], p, c) {
        OneChildSame(rows, rows + [r], p, c);
      }
      forall i, j, a, b | i < j && Child(rows + [r], p, i, a) && Child(rows + [r], p, j, b) ensures a < b {
        assert Child(rows, p, i, a) && Child(rows, p, j, b);
      }
    }
  }

  lemma StillDone(edges: Graph, rows: seq<Row>, expanded: map<nat, nat>, but: set<nat>, k: nat, r: Row,
                  expanded2: map<nat, nat>, k2: nat)
    requires AllDone(edges, rows, expanded, but, k) && DepthOf(r) == k && Grown(rows, expanded, rows + [r], expanded2)
    ensures forall f :: f in expanded && f !in but ==> Done(edges, rows + [r], expanded2, f, k2)
  {
    forall f | f in expanded && f !in but ensures Done(edges, rows + [r], expanded2, f, k2) {
      assert Done(edges, rows, expanded, f, k);
      DoneNext(edges, rows, expanded, f, k, r, expanded2, k2);
    }
  }

  /** What is done for a row of a depth is for one less deep. */
  lemma DoneHigher(edges: Graph, rows: seq<Row>, expanded: map<nat, nat>, but: set<nat>, k: nat)
    requires AllDone(edges, rows, expanded, but, k + 1)
    ensures AllDone(edges, rows, expanded, but, k)
  {
    forall f | f in expanded && f !in but ensures Done(edges, rows, expanded, f, k) {
      assert Done(edges, rows, expanded, f, k + 1);
    }
  }

  /** Once each of its calls is printed under it a function is done too. */
  lemma DoneNow(edges: Graph, rows: seq<Row>, expanded: map<nat, nat>, but: set<nat>, off: nat, k: nat)
    requires AllDone(edges, rows, expanded, but + {off}, k + 1) && Calls(edges, off) <= expanded.Keys
    requires off in expanded && 1 <= expanded[off] <= |rows| && DepthOf(rows[expanded[off] - 1]) == k
    requires forall c :: c in Calls(edges, off) ==> OneChild(rows, expanded[off] - 1, c)
    requires ChildrenRise(rows, expanded[off] - 1)
    ensures AllDone(edges, rows, expanded, but, k)
  {
    DoneHigher(edges, rows, expanded, but + {off}, k);
    assert Done(edges, rows, expanded, off, k);
  }

  /** The subtree of a call adds its first row as a child, and nothing else: all below is deeper. */
  lemma SubtreeChild(was: seq<Row>, rows: seq<Row>, p: nat, depth: nat, c: nat, b: nat, i: nat)
    requires p < |was| < |rows| && rows[..|was|] == was && DepthOf(was[p]) == depth && Deep(was, p + 1, depth + 1)
    requires rows[|was|].Fun? && rows[|was|].off == c && rows[|was|].depth == depth + 1
             && Deep(rows, |was| + 1, depth + 2)
    ensures Child(rows, p, i, b) <==> Child(was, p, i, b) || (i == |was| && b == c)
  {
    assert forall m :: 0 <= m < |was| ==> rows[m] == rows[..|was|][m] == was[m];
  }

  lemma SubtreeChildren(was: seq<Row>, rows: seq<Row>, p: nat, depth: nat, c: nat)
    requires p < |was| < |rows| && rows[..|was|] == was && DepthOf(was[p]) == depth && Deep(was, p + 1, depth + 1)
    requires rows[|was|].Fun? && rows[|was|].off == c && rows[|was|].depth == depth + 1
             && Deep(rows, |was| + 1, depth + 2)
    ensures NoChild(was, p, c) ==> OneChild(rows, p, c)
    ensures forall b :: b != c && OneChild(was, p, b) ==> OneChild(rows, p, b)
    ensures forall b :: b != c && NoChild(was, p, b) ==> NoChild(rows, p, b)
    ensures forall b :: c < b && ChildrenBelow(was, p, b) ==> ChildrenBelow(rows, p, b)
    ensures ChildrenRise(was, p) && ChildrenBelow(was, p, c) ==> ChildrenRise(rows, p)
  {
    forall b, i ensures Child(rows, p, i, b) <==> Child(was, p, i, b) || (i == |was| && b == c) {
      SubtreeChild(was, rows, p, depth, c, b, i);
    }
    if NoChild(was, p, c) {
      assert Child(rows, p, |was|, c);
    }
    forall b | b != c && OneChild(was, p, b) ensures OneChild(rows, p, b) {
      OneChildSame(was, rows, p, b);
    }
  }

  lemma {:induction false} HeaderGood(edges: Graph, n: nat)
    ensures Good(edges, seq(n, _ => Header), map[])
  {
    if n > 0 {
      HeaderGood(edges, n - 1);
      assert seq(n, _ => Header)[..n - 1] == seq(n - 1, _ => Header);
    }
  }

  /** The text being written and the lines of the functions expanded so far. */
  class Printer {
    const edges: Graph
    var rows: seq<Row>
    var expanded: map<nat, nat>

    constructor (edges: Graph)
      ensures this.edges == edges && expanded == map[] && Good(edges, rows, expanded)
      ensures |rows| == HEADER_ROWS && forall r :: r in rows ==> r == Header
    {
      this.edges := edges;
      rows, expanded := seq(HEADER_ROWS, _ => Header), map[];
      HeaderGood(edges, HEADER_ROWS);
    }

    /** A row for a function printed before. */
    method AddRepeat(r: Row, ghost but: set<nat>, ghost p: nat)
      requires Good(edges, rows, expanded) && r.Fun? && AllDone(edges, rows, expanded, but, r.depth)
      requires r.off in expanded && r.mark != First && (r.mark.See? ==> r.mark.line == expanded[r.off])
      requires r.depth > 0 ==> Under(edges, rows, p, |rows|, r.off, r.depth)
      requires Marked(edges, rows, r)
      modifies this`rows
      ensures Good(edges, rows, expanded) && AllDone(edges, rows, expanded, but, r.depth)
      ensures rows == old(rows) + [r]
    {
      GoodAgain(edges, rows, expanded, r, p);
      StillDone(edges, rows, expanded, but, r.depth, r, expanded, r.depth);
      rows := rows + [r];
    }

    /** The first row of a function; its line is kept. */
    method AddFirst(off: nat, depth: nat, ghost but: set<nat>, ghost p: nat)
      requires Good(edges, rows, expanded) && AllDone(edges, rows, expanded, but, depth) && off !in expanded
      requires !OnChain(rows, off, depth)
      requires depth > 0 ==> Under(edges, rows, p, |rows|, off, depth)
      modifies this`rows, this`expanded
      ensures Good(edges, rows, expanded) && AllDone(edges, rows, expanded, but + {off}, depth + 1)
      ensures rows == old(rows) + [Fun(depth, off, First)] && expanded == old(expanded)[off := |rows|]
      ensures depth >= MAX_DEPTH ==> AllDone(edges, rows, expanded, but, depth + 1)
    {
      GoodFirst(edges, rows, expanded, off, depth, p);
      StillDone(edges, rows, expanded, but, depth, Fun(depth, off, First), expanded[off := |rows| + 1], depth + 1);
      expanded := expanded[off := |rows| + 1];
      rows := rows + [Fun(depth, off, First)];
    }

    method AddOmitted(depth: nat, ghost but: set<nat>)
      requires Good(edges, rows, expanded) && AllDone(edges, rows, expanded, but, depth)
      modifies this`rows
      ensures Good(edges, rows, expanded) && AllDone(edges, rows, expanded, but, depth)
      ensures rows == old(rows) + [Omitted(depth)]
    {
      GoodAgain(edges, rows, expanded, Omitted(depth), 0);
      StillDone(edges, rows, expanded, but, depth, Omitted(depth), expanded, depth);
      rows := rows + [Omitted(depth)];
    }

    /**
     pr. `funs` is any set of functions that holds this one and what its members call: fewer and fewer of it are
     left to expand, so it ends on every graph. `p` is the caller's row.
     */
    method Pr(off: nat, depth: nat, anc: set<nat>, ghost funs: set<nat>, ghost p: nat)
      requires Good(edges, rows, expanded) && AllDone(edges, rows, expanded, anc, depth) && anc <= expanded.Keys
      requires Closed(edges, funs) && off in funs && expanded.Keys <= funs
      requires depth > 0 ==> Under(edges, rows, p, |rows|, off, depth)
      requires ChainIs(rows, anc, depth)
      modifies this
      ensures Good(edges, rows, expanded) && AllDone(edges, rows, expanded, anc, depth)
      ensures Grown(old(rows), old(expanded), rows, expanded)
      ensures off in expanded && expanded.Keys <= funs
      ensures |rows| > |old(rows)| && rows[|old(rows)|].Fun? && rows[|old(rows)|].off == off
              && rows[|old(rows)|].depth == depth
      ensures off !in old(expanded) ==> rows[|old(rows)|].mark == First
      ensures Deep(rows, |old(rows)|, depth) && Deep(rows, |old(rows)| + 1, depth + 1)
      decreases funs - expanded.Keys, 1
    {
      var ch := SortedSet(Calls(edges, off));
      if off in anc {
        AddRepeat(Fun(depth, off, Recursive), anc, p);
        return;
      }
      if off in expanded {
        AddRepeat(Fun(depth, off, if ch != [] then See(expanded[off]) else Again), anc, p);
        return;
      }
      PrFirst(ch, off, depth, anc, funs, p);
    }

    /** A function that has not been printed before. */
    method PrFirst(ch: seq<nat>, off: nat, depth: nat, anc: set<nat>, ghost funs: set<nat>, ghost p: nat)
      requires Good(edges, rows, expanded) && AllDone(edges, rows, expanded, anc, depth) && anc <= expanded.Keys
      requires Closed(edges, funs) && off in funs && expanded.Keys <= funs
      requires depth > 0 ==> Under(edges, rows, p, |rows|, off, depth)
      requires Rising(ch) && forall c :: c in ch <==> c in Calls(edges, off)
      requires off !in anc && off !in expanded && ChainIs(rows, anc, depth)
      modifies this
      ensures Good(edges, rows, expanded) && AllDone(edges, rows, expanded, anc, depth)
      ensures Grown(old(rows), old(expanded), rows, expanded) && off in expanded && expanded.Keys <= funs
      ensures |rows| > |old(rows)| && rows[|old(rows)|] == Fun(depth, off, First)
      ensures Deep(rows, |old(rows)|, depth) && Deep(rows, |old(rows)| + 1, depth + 1)
      decreases funs - expanded.Keys, 0
    {
      ChainFirst(rows, anc, off, depth);
      AddFirst(off, depth, anc, p);
      if depth >= MAX_DEPTH {
        if ch != [] {
          AddOmitted(depth + 1, anc);
        }
        DoneHigher(edges, rows, expanded, anc, depth);
        return;
      }
      assert off in funs - old(expanded).Keys && off !in funs - expanded.Keys;
      assert funs - expanded.Keys < funs - old(expanded).Keys;
      PrCalls(ch, off, depth, anc, funs, old(rows), old(expanded));
    }

    /** One call of the function whose first row is row p. */
    method PrCall(c: nat, off: nat, depth: nat, anc: set<nat>, ghost funs: set<nat>, ghost p: nat)
      requires Good(edges, rows, expanded) && AllDone(edges, rows, expanded, anc, depth + 1) && anc <= expanded.Keys
      requires Closed(edges, funs) && off in funs && expanded.Keys <= funs && c in Calls(edges, off)
      requires p < |rows| && rows[p] == Fun(depth, off, First) && Deep(rows, p + 1, depth + 1)
      requires ChainIs(rows, anc, depth + 1)
      modifies this
      ensures Good(edges, rows, expanded) && AllDone(edges, rows, expanded, anc, depth + 1)
      ensures Grown(old(rows), old(expanded), rows, expanded) && c in expanded && expanded.Keys <= funs
      ensures Deep(rows, p + 1, depth + 1) && rows[p] == old(rows[p]) && ChainIs(rows, anc, depth + 1)
      ensures NoChild(old(rows), p, c) ==> OneChild(rows, p, c)
      ensures forall b :: b != c && OneChild(old(rows), p, b) ==> OneChild(rows, p, b)
      ensures forall b :: b != c && NoChild(old(rows), p, b) ==> NoChild(rows, p, b)
      ensures forall b :: c < b && ChildrenBelow(old(rows), p, b) ==> ChildrenBelow(rows, p, b)
      ensures ChildrenRise(old(rows), p) && ChildrenBelow(old(rows), p, c) ==> ChildrenRise(rows, p)
      decreases funs - expanded.Keys, 2
    {
      ghost var was := rows;
      Pr(c, depth + 1, anc, funs, p);
      DeepNext(was, rows, p + 1, depth + 1);
      SubtreeChildren(was, rows, p, depth, c);
      ChainDeep(was, rows, anc, depth + 1);
      assert rows[p] == rows[..|was|][p];
    }

    /** The loop over the sorted calls of a function whose first row, row p, has just been written. */
    method PrEach(ch: seq<nat>, off: nat, depth: nat, anc: set<nat>, ghost funs: set<nat>, ghost p: nat)
      requires Good(edges, rows, expanded) && AllDone(edges, rows, expanded, anc, depth + 1) && anc <= expanded.Keys
      requires Closed(edges, funs) && off in funs && expanded.Keys <= funs
      requires Rising(ch) && forall c :: c in ch ==> c in Calls(edges, off)
      requires p == |rows| - 1 && rows[p] == Fun(depth, off, First) && ChainIs(rows, anc, depth + 1)
      modifies this
      ensures Good(edges, rows, expanded) && AllDone(edges, rows, expanded, anc, depth + 1)
      ensures Grown(old(rows), old(expanded), rows, expanded) && expanded.Keys <= funs
      ensures forall c :: c in ch ==> c in expanded && OneChild(rows, p, c)
      ensures ChildrenRise(rows, p)
      ensures Deep(rows, p + 1, depth + 1)
      decreases funs - expanded.Keys, 3
    {
      ghost var rows1, expanded1 := rows, expanded;
      var k := 0;
      while k < |ch|
        invariant k <= |ch|
        invariant Good(edges, rows, expanded) && AllDone(edges, rows, expanded, anc, depth + 1)
        invariant Grown(rows1, expanded1, rows, expanded) && expanded.Keys <= funs
        invariant forall j :: 0 <= j < k ==> ch[j] in expanded && OneChild(rows, p, ch[j])
        invariant forall j :: k <= j < |ch| ==> NoChild(rows, p, ch[j]) && ChildrenBelow(rows, p, ch[j])
        invariant ChildrenRise(rows, p)
        invariant Deep(rows, p + 1, depth + 1) && rows[p] == Fun(depth, off, First)
        invariant ChainIs(rows, anc, depth + 1)
      {
        assert ch[k] in Calls(edges, off);
        assert funs - expanded.Keys <= funs - expanded1.Keys;
        ghost var was, had := rows, expanded;
        PrCall(ch[k], off, depth, anc, funs, p);
        GrownOn(rows1, expanded1, was, had, rows, expanded);
        k := k + 1;
      }
    }

    /** The calls of a function whose first row has just been written. */
    method PrCalls(ch: seq<nat>, off: nat, depth: nat, anc: set<nat>, ghost funs: set<nat>,
                   ghost rows0: seq<Row>, ghost expanded0: map<nat, nat>)
      requires Good(edges, rows, expanded) && AllDone(edges, rows, expanded, anc + {off}, depth + 1)
      requires anc <= expanded.Keys && Closed(edges, funs) && off in funs && expanded.Keys <= funs
      requires Rising(ch) && forall c :: c in ch <==> c in Calls(edges, off)
      requires off !in anc && off !in expanded0 && ChainIs(rows, anc + {off}, depth + 1)
      requires rows == rows0 + [Fun(depth, off, First)] && expanded == expanded0[off := |rows|]
      modifies this
      ensures Good(edges, rows, expanded) && AllDone(edges, rows, expanded, anc, depth)
      ensures Grown(rows0, expanded0, rows, expanded) && off in expanded && expanded.Keys <= funs
      ensures |rows| > |rows0| && rows[|rows0|] == Fun(depth, off, First)
      ensures Deep(rows, |rows0|, depth) && Deep(rows, |rows0| + 1, depth + 1)
      decreases funs - expanded.Keys, 4
    {
      ghost var rows1, expanded1 := rows, expanded;
      PrEach(ch, off, depth, anc + {off}, funs, |rows0|);
      assert rows[|rows0|] == rows[..|rows1|][|rows0|] == Fun(depth, off, First);
      GrownOn(rows0, expanded0, rows1, expanded1, rows, expanded);
      DoneNow(edges, rows, expanded, anc, off, depth);
    }
  }

  /** What a graph's function may call, and the entry: all there is to print. */
  function Functions(edges: Graph, entry: nat): (r: set<nat>)
    ensures entry in r && Closed(edges, r)
  {
    {entry} + set a, b | a in edges && b in edges[a] :: b
  }

  /** Every function printed is in any set that has the entry and what its members call. */
  lemma {:induction false} PrintedIsReached(edges: Graph, rows: seq<Row>, funs: set<nat>, i: nat)
    requires Nested(edges, rows) && Closed(edges, funs) && i < |rows| && rows[i].Fun?
    requires forall j :: 0 <= j < |rows| && rows[j].Fun? && rows[j].depth == 0 ==> rows[j].off in funs
    ensures rows[i].off in funs
  {
    if rows[i].depth > 0 {
      assert HasCaller(edges, rows, i);
      var p :| Under(edges, rows, p, i, rows[i].off, rows[i].depth);
      PrintedIsReached(edges, rows, funs, p);
    }
  }

  predicate Shallow(rows: seq<Row>) {
    forall i :: 0 <= i < |rows| ==> DepthOf(rows[i]) < 60
  }

  /** Below the header the root alone is not indented. */
  lemma OnlyRoot(header: seq<Row>, rows: seq<Row>)
    requires |header| == HEADER_ROWS && (forall r :: r in header ==> r == Header)
    requires |rows| > HEADER_ROWS && rows[..HEADER_ROWS] == header && Deep(rows, HEADER_ROWS + 1, 1)
    ensures forall j :: 0 <= j < |rows| && rows[j].Fun? && rows[j].depth == 0 ==> j == HEADER_ROWS
  {
    forall j | 0 <= j < HEADER_ROWS ensures rows[j] == Header {
      assert rows[..HEADER_ROWS][j] in header;
    }
  }

  lemma AllReached(edges: Graph, rows: seq<Row>, expanded: map<nat, nat>, funs: set<nat>)
    requires Firsts(rows, expanded) && Nested(edges, rows) && Closed(edges, funs)
    requires forall j :: 0 <= j < |rows| && rows[j].Fun? && rows[j].depth == 0 ==> rows[j].off in funs
    ensures expanded.Keys <= funs
  {
    forall f | f in expanded ensures f in funs {
      assert FirstRow(rows, f, expanded[f]);
      PrintedIsReached(edges, rows, funs, expanded[f] - 1);
    }
  }

  lemma ReachedFrom(edges: Graph, rows: seq<Row>, expanded: map<nat, nat>, entry: nat)
    requires Firsts(rows, expanded) && Nested(edges, rows)
    requires forall j :: 0 <= j < |rows| && rows[j].Fun? && rows[j].depth == 0 ==> rows[j].off == entry
    ensures forall funs :: entry in funs && Closed(edges, funs) ==> expanded.Keys <= funs
  {
    forall funs | entry in funs && Closed(edges, funs) ensures expanded.Keys <= funs {
      AllReached(edges, rows, expanded, funs);
    }
  }

  lemma AllComplete(edges: Graph, rows: seq<Row>, expanded: map<nat, nat>)
    requires Firsts(rows, expanded) && AllDone(edges, rows, expanded, {}, 0)
    ensures forall f :: f in expanded ==> expanded[f] > 0 && Complete(edges, rows, expanded[f] - 1, f)
  {
    forall f | f in expanded ensures expanded[f] > 0 && Complete(edges, rows, expanded[f] - 1, f) {
      assert Done(edges, rows, expanded, f, 0);
    }
  }

  lemma ShallowClosed(edges: Graph, rows: seq<Row>, expanded: map<nat, nat>)
    requires AllDone(edges, rows, expanded, {}, 0) && Shallow(rows)
    ensures Closed(edges, expanded.Keys)
  {
    forall f, c | f in expanded.Keys && c in Calls(edges, f) ensures c in expanded.Keys {
      assert Done(edges, rows, expanded, f, 0);
    }
  }

  /**
   The tree of a graph from its entry, cycles and all. Each function has one first row, above all its others; every
   reference names that row's line, a repeated function has one unless it calls nothing or is on the chain above the
   row, which is marked then and only then; every indented row stands under a caller, and under the first row of a
   function above the greatest depth each of its calls stands once; what is printed can be reached from the entry;
   and if nothing was too deep, all that can be reached is printed.
   */
  method PrintTree(edges: Graph, entry: nat) returns (rows: seq<Row>, expanded: map<nat, nat>)
    ensures Firsts(rows, expanded) && Refs(rows, expanded) && Nested(edges, rows) && AllMarked(edges, rows)
    ensures FirstRow(rows, entry, 15) && rows[14].depth == 0
    ensures forall f :: f in expanded ==> Complete(edges, rows, expanded[f] - 1, f)
    ensures forall funs :: entry in funs && Closed(edges, funs) ==> expanded.Keys <= funs
    ensures Shallow(rows) ==> entry in expanded && Closed(edges, expanded.Keys)
  {
    var p := new Printer(edges);
    ghost var before := p.rows;
    ChainTop(before);
    p.Pr(entry, 0, {}, Functions(edges, entry), 0);
    rows, expanded := p.rows, p.expanded;
    GoodFirsts(edges, rows, expanded);
    GoodRefs(edges, rows, expanded);
    GoodNested(edges, rows, expanded);
    GoodMarks(edges, rows, expanded);
    OnlyRoot(before, rows);
    AllComplete(edges, rows, expanded);
    ReachedFrom(edges, rows, expanded, entry);
    if Shallow(rows) {
      ShallowClosed(edges, rows, expanded);
    }
  }
}
