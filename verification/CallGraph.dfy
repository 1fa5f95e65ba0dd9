/**
 Rebuilding the call graph from an instruction trace: one pass over the lines with a stack of functions and one
 pending call. It is the inverse of writing a call tree out as the trace of its run.
 */
module CallGraph {
  import opened Bytes

  /** What a line of the log gives: nothing, or a library, an offset in it and a mnemonic. */
  datatype LogLine = Unmatched | Matched(so: string, off: nat, mn: string)

  predicate IsCall(mn: string) {
    mn == "bl" || mn == "blr"
  }

  predicate IsRet(mn: string) {
    mn == "ret"
  }

  /** A line that counts, with its library gone. */
  datatype Line = Line(off: nat, mn: string)

  /** The calls found so far, caller and callee in order of entry; the stack; the caller of a call not entered yet. */
  datatype State = State(calls: seq<(nat, nat)>, stack: seq<nat>, pending: Option<nat>, entry: Option<nat>)

  function Initial(entry: Option<nat>): State {
    State([], [], None, entry)
  }

  /** The bottom of the stack is there before anything else is done with a line. */
  function Based(s: State, line: Line): (r: State)
    ensures r.stack != [] && r.entry.Some?
  {
    var entry := if s.entry.None? then line.off else s.entry.value;
    s.(entry := Some(entry), stack := if s.stack == [] then [entry] else s.stack)
  }

  /** A pending call is entered at the line that follows it. */
  function Entered(s: State, line: Line): (r: State)
    requires s.stack != []
    ensures r.stack != [] && r.entry == s.entry && r.pending == None
  {
    if s.pending.Some? then
      s.(calls := s.calls + [(s.pending.value, line.off)], stack := s.stack + [line.off], pending := None)
    else s
  }

  /** The mnemonic: a call is noted for its function, a return leaves it, unless it is the last. */
  function Acted(s: State, line: Line): (r: State)
    requires s.stack != [] && s.pending == None
    ensures r.stack != [] && r.entry == s.entry && r.calls == s.calls
  {
    if IsCall(line.mn) then s.(pending := Some(s.stack[|s.stack| - 1]))
    else if IsRet(line.mn) && |s.stack| > 1 then s.(stack := s.stack[..|s.stack| - 1])
    else s
  }

  function Step(s: State, line: Line): (r: State)
    ensures r.stack != [] && r.entry.Some?
  {
    Acted(Entered(Based(s, line), line), line)
  }

  function Run(s: State, lines: seq<Line>): State
    decreases |lines|
  {
    if lines == [] then s else Run(Step(s, lines[0]), lines[1..])
  }

  lemma {:induction false} RunAppend(s: State, a: seq<Line>, b: seq<Line>)
    ensures Run(s, a + b) == Run(Run(s, a), b)
    decreases |a|
  {
    if a == [] {
      assert a + b == b;
    } else {
      assert (a + b)[1..] == a[1..] + b;
      RunAppend(Step(s, a[0]), a[1..], b);
    }
  }

  // ---- the pass as written ----

  /** The lines of the library looked for, or of any. */
  function Counted(log: seq<LogLine>, so: string): seq<Line>
    decreases |log|
  {
    if log == [] then []
    else
      var last := log[|log| - 1];
      Counted(log[..|log| - 1], so)
      + if last.Matched? && (so == "" || last.so == so) then [Line(last.off, last.mn)] else []
  }

  /** Part by part, line by line: a line counts if it is of the library looked for, or if none is. */
  lemma {:induction false} CountedParts(a: seq<LogLine>, b: seq<LogLine>, so: string)
    ensures Counted(a + b, so) == Counted(a, so) + Counted(b, so)
    decreases |b|
  {
    if b == [] {
      assert a + b == a;
    } else {
      var n := |b| - 1;
      assert (a + b)[..|a| + n] == a + b[..n] && (a + b)[|a| + n] == b[n];
      CountedParts(a, b[..n], so);
    }
  }

  lemma CountedOne(line: LogLine, so: string)
    ensures Counted([line], so)
            == if line.Matched? && (so == "" || line.so == so) then [Line(line.off, line.mn)] else []
  {
    assert [line][..0] == [];
  }

  /** The library of the first line that counts. */
  function FirstSo(log: seq<LogLine>, so: string): Option<string>
    decreases |log|
  {
    if log == [] then None
    else
      var last, before := log[|log| - 1], FirstSo(log[..|log| - 1], so);
      if before.None? && last.Matched? && (so == "" || last.so == so) then Some(last.so) else before
  }

  lemma FirstSoNext(log: seq<LogLine>, so: string, i: nat)
    requires i < |log|
    ensures FirstSo(log[..i + 1], so)
            == if FirstSo(log[..i], so).None? && log[i].Matched? && (so == "" || log[i].so == so) then Some(log[i].so)
               else FirstSo(log[..i], so)
  {
    assert log[..i + 1][..i] == log[..i];
  }

  /** Later lines do not change it. */
  lemma {:induction false} FirstSoStays(log: seq<LogLine>, so: string, i: nat)
    requires i <= |log| && FirstSo(log[..i], so).Some?
    ensures FirstSo(log, so) == FirstSo(log[..i], so)
    decreases |log| - i
  {
    if i == |log| {
      assert log[..i] == log;
    } else {
      FirstSoNext(log, so, i);
      FirstSoStays(log, so, i + 1);
    }
  }

  /** If lines before i do not count and line i does, it is that line's. */
  lemma {:induction false} FirstSoIs(log: seq<LogLine>, so: string, i: nat)
    requires i < |log| && Counted(log[..i], so) == [] && log[i].Matched? && (so == "" || log[i].so == so)
    ensures FirstSo(log, so) == Some(log[i].so)
  {
    NoneFirst(log[..i], so);
    FirstSoNext(log, so, i);
    FirstSoStays(log, so, i + 1);
  }

  lemma {:induction false} NoneFirst(log: seq<LogLine>, so: string)
    ensures FirstSo(log, so).None? <==> Counted(log, so) == []
    decreases |log|
  {
    if log != [] {
      NoneFirst(log[..|log| - 1], so);
    }
  }

  lemma CountedNext(log: seq<LogLine>, so: string, i: nat)
    requires i < |log|
    ensures Counted(log[..i + 1], so) ==
            if log[i].Matched? && (so == "" || log[i].so == so) then
              Counted(log[..i], so) + [Line(log[i].off, log[i].mn)]
            else Counted(log[..i], so)
  {
    assert log[..i + 1][..i] == log[..i];
  }

  lemma {:induction false} CountedBegins(log: seq<LogLine>, so: string, i: nat)
    requires i <= |log|
    ensures |Counted(log[..i], so)| <= |Counted(log, so)|
    ensures Counted(log, so)[..|Counted(log[..i], so)|] == Counted(log[..i], so)
    decreases |log| - i
  {
    if i == |log| {
      assert log[..i] == log;
    } else {
      CountedNext(log, so, i);
      CountedBegins(log, so, i + 1);
    }
  }

  /** The pass stops after maxn lines that count, but not before the first. */
  function FirstLines(lines: seq<Line>, maxn: int): seq<Line> {
    if |lines| <= Limit(maxn) then lines else lines[..Limit(maxn)]
  }

  function Limit(maxn: int): nat {
    if maxn > 1 then maxn else 1
  }

  /** The first maxn of them, or one if that is less than two, or all if there are no more. */
  lemma FirstLinesAre(lines: seq<Line>, maxn: int)
    ensures |FirstLines(lines, maxn)| == Min(|lines|, Max(maxn, 1))
    ensures FirstLines(lines, maxn) == lines[..|FirstLines(lines, maxn)|]
  {
  }

  lemma FirstLinesRead(log: seq<LogLine>, so: string, i: nat, maxn: int)
    requires i <= |log|
    requires |Counted(log[..i], so)| == Limit(maxn) || (i == |log| && |Counted(log[..i], so)| <= Limit(maxn))
    ensures FirstLines(Counted(log, so), maxn) == Counted(log[..i], so)
  {
    CountedBegins(log, so, i);
    if i == |log| {
      assert log[..i] == log;
    }
  }

  lemma RunSnoc(entry: Option<nat>, lines: seq<Line>, line: Line)
    ensures Run(Initial(entry), lines + [line]) == Step(Run(Initial(entry), lines), line)
  {
    RunAppend(Initial(entry), lines, [line]);
    assert [line][1..] == [];
  }

  type Graph = map<nat, map<nat, nat>>

  function CountOf(edges: Graph, a: nat, b: nat): nat {
    if a in edges && b in edges[a] then edges[a][b] else 0
  }

  function CountIn(fcount: map<nat, nat>, b: nat): nat {
    if b in fcount then fcount[b] else 0
  }

  function Callees(calls: seq<(nat, nat)>): (r: seq<nat>)
    ensures |r| == |calls|
  {
    seq(|calls|, i requires 0 <= i < |calls| => calls[i].1)
  }

  /** The table of edges is that of the calls: how often each was made, nothing with count 0. */
  ghost predicate EdgesOf(edges: Graph, calls: seq<(nat, nat)>) {
    && (forall a: nat, b: nat :: CountOf(edges, a, b) == multiset(calls)[(a, b)])
    && (forall a, b :: a in edges && b in edges[a] ==> edges[a][b] > 0)
  }

  ghost predicate CountsOf(fcount: map<nat, nat>, callees: seq<nat>) {
    && (forall b: nat :: CountIn(fcount, b) == multiset(callees)[b])
    && (forall b :: b in fcount ==> fcount[b] > 0)
  }

  ghost predicate Tabulates(edges: Graph, fcount: map<nat, nat>, calls: seq<(nat, nat)>) {
    EdgesOf(edges, calls) && CountsOf(fcount, Callees(calls))
  }

  function WithEdge(edges: Graph, a: nat, b: nat): Graph {
    var d: map<nat, nat> := if a in edges then edges[a] else map[];
    edges[a := d[b := CountIn(d, b) + 1]]
  }

  lemma EdgesNext(edges: Graph, calls: seq<(nat, nat)>, a: nat, b: nat)
    requires EdgesOf(edges, calls)
    ensures EdgesOf(WithEdge(edges, a, b), calls + [(a, b)])
  {
    forall x: nat, y: nat
      ensures CountOf(WithEdge(edges, a, b), x, y) == multiset(calls + [(a, b)])[(x, y)]
    {
      assert CountOf(WithEdge(edges, a, b), x, y) == CountOf(edges, x, y) + if x == a && y == b then 1 else 0;
    }
  }

  lemma CountsNext(fcount: map<nat, nat>, callees: seq<nat>, b: nat)
    requires CountsOf(fcount, callees)
    ensures CountsOf(fcount[b := CountIn(fcount, b) + 1], callees + [b])
  {
  }

  lemma TabulatesNext(edges: Graph, fcount: map<nat, nat>, calls: seq<(nat, nat)>, a: nat, b: nat)
    requires Tabulates(edges, fcount, calls)
    ensures Tabulates(WithEdge(edges, a, b), fcount[b := CountIn(fcount, b) + 1], calls + [(a, b)])
  {
    EdgesNext(edges, calls, a, b);
    CountsNext(fcount, Callees(calls), b);
    assert Callees(calls + [(a, b)]) == Callees(calls) + [b];
  }

  /** A sum over a finite set of keys. */
  ghost function Sum(keys: set<nat>, f: nat -> nat): nat {
    if keys == {} then 0 else
      var k :| k in keys;
      f(k) + Sum(keys - {k}, f)
  }

  lemma {:induction false} SumWithout(keys: set<nat>, f: nat -> nat, k: nat)
    requires k in keys
    ensures Sum(keys, f) == f(k) + Sum(keys - {k}, f)
  {
    var c :| c in keys && Sum(keys, f) == f(c) + Sum(keys - {c}, f);
    if c != k {
      SumWithout(keys - {c}, f, k);
      SumWithout(keys - {k}, f, c);
      assert keys - {c} - {k} == keys - {k} - {c};
    }
  }

  lemma {:induction false} SumAgrees(keys: set<nat>, f: nat -> nat, g: nat -> nat)
    requires forall k :: k in keys ==> f(k) == g(k)
    ensures Sum(keys, f) == Sum(keys, g)
  {
    if keys != {} {
      var k :| k in keys;
      SumWithout(keys, f, k);
      SumWithout(keys, g, k);
      SumAgrees(keys - {k}, f, g);
    }
  }

  /** One value grows by one; its key may be new if it counted nothing before. */
  lemma SumGrows(keys: set<nat>, f: nat -> nat, g: nat -> nat, k: nat)
    requires g(k) == f(k) + 1 && (k !in keys ==> f(k) == 0) && forall x :: x in keys && x != k ==> g(x) == f(x)
    ensures Sum(keys + {k}, g) == Sum(keys, f) + 1
  {
    SumWithout(keys + {k}, g, k);
    var rest := keys - {k};
    assert keys + {k} - {k} == rest;
    SumAgrees(rest, f, g);
    if k in keys {
      SumWithout(keys, f, k);
    } else {
      assert rest == keys;
    }
  }

  ghost function SumOf(m: map<nat, nat>): nat {
    Sum(m.Keys, b => CountIn(m, b))
  }

  ghost function Outgoing(edges: Graph, a: nat): nat {
    if a in edges then SumOf(edges[a]) else 0
  }

  ghost function SumEdges(edges: Graph): nat {
    Sum(edges.Keys, a => Outgoing(edges, a))
  }

  lemma SumOfGrows(m: map<nat, nat>, b: nat)
    ensures SumOf(m[b := CountIn(m, b) + 1]) == SumOf(m) + 1
  {
    var m2 := m[b := CountIn(m, b) + 1];
    assert m2.Keys == m.Keys + {b};
    SumGrows(m.Keys, x => CountIn(m, x), x => CountIn(m2, x), b);
  }

  lemma SumEdgesGrows(edges: Graph, a: nat, b: nat)
    ensures SumEdges(WithEdge(edges, a, b)) == SumEdges(edges) + 1
  {
    var e2 := WithEdge(edges, a, b);
    var d: map<nat, nat> := if a in edges then edges[a] else map[];
    SumOfGrows(d, b);
    assert e2.Keys == edges.Keys + {a};
    assert a !in edges ==> SumOf(d) == 0;
    SumGrows(edges.Keys, x => Outgoing(edges, x), x => Outgoing(e2, x), a);
  }

  /** The tables agree with the calls, and both sums with the total. */
  ghost predicate Books(edges: Graph, fcount: map<nat, nat>, total: nat, calls: seq<(nat, nat)>) {
    Tabulates(edges, fcount, calls) && total == |calls| && total == SumEdges(edges) && total == SumOf(fcount)
  }

  /** One more call in the books. */
  method Book(edges: Graph, fcount: map<nat, nat>, total: nat, a: nat, b: nat, ghost calls: seq<(nat, nat)>)
    returns (edges2: Graph, fcount2: map<nat, nat>, total2: nat)
    requires Books(edges, fcount, total, calls)
    ensures Books(edges2, fcount2, total2, calls + [(a, b)])
  {
    TabulatesNext(edges, fcount, calls, a, b);
    SumEdgesGrows(edges, a, b);
    SumOfGrows(fcount, b);
    edges2 := WithEdge(edges, a, b);
    fcount2 := fcount[b := CountIn(fcount, b) + 1];
    total2 := total + 1;
  }

  /** The body of the loop, for a line that counts. */
  method Take(edges: Graph, total: nat, fcount: map<nat, nat>, stack: seq<nat>, pending: Option<nat>,
              entry: Option<nat>, line: Line, ghost calls: seq<(nat, nat)>)
    returns (edges2: Graph, total2: nat, fcount2: map<nat, nat>, stack2: seq<nat>, pending2: Option<nat>,
             entry2: Option<nat>, ghost calls2: seq<(nat, nat)>)
    requires Books(edges, fcount, total, calls)
    ensures var s := Step(State(calls, stack, pending, entry), line);
            && Books(edges2, fcount2, total2, s.calls) && calls2 == s.calls
            && stack2 == s.stack && pending2 == s.pending && entry2 == s.entry
  {
    edges2, total2, fcount2, stack2, pending2, entry2, calls2 := edges, total, fcount, stack, pending, entry, calls;
    if entry2.None? {
      entry2 := Some(line.off);
    }
    if stack2 == [] {
      stack2 := [entry2.value];
    }
    edges2, total2, fcount2, stack2, calls2 := Enter(edges2, total2, fcount2, stack2, pending2, line.off, calls2);
    stack2, pending2 := Act(stack2, line.mn);
  }

  /** A noted call is booked, and its callee goes on the stack. */
  method Enter(edges: Graph, total: nat, fcount: map<nat, nat>, stack: seq<nat>, pending: Option<nat>, off: nat,
               ghost calls: seq<(nat, nat)>)
    returns (edges2: Graph, total2: nat, fcount2: map<nat, nat>, stack2: seq<nat>, ghost calls2: seq<(nat, nat)>)
    requires Books(edges, fcount, total, calls)
    ensures Books(edges2, fcount2, total2, calls2)
    ensures calls2 == if pending.Some? then calls + [(pending.value, off)] else calls
    ensures stack2 == if pending.Some? then stack + [off] else stack
  {
    edges2, total2, fcount2, stack2, calls2 := edges, total, fcount, stack, calls;
    if pending.Some? {
      edges2, fcount2, total2 := Book(edges2, fcount2, total2, pending.value, off, calls2);
      calls2 := calls2 + [(pending.value, off)];
      stack2 := stack2 + [off];
    }
  }

  /** What the mnemonic does to the stack, and the function that a call is noted for. */
  method Act(stack: seq<nat>, mn: string) returns (stack2: seq<nat>, pending2: Option<nat>)
    requires stack != []
    ensures pending2 == if IsCall(mn) then Some(stack[|stack| - 1]) else None
    ensures stack2 == if !IsCall(mn) && IsRet(mn) && |stack| > 1 then stack[..|stack| - 1] else stack
  {
    stack2, pending2 := stack, None;
    if IsCall(mn) {
      pending2 := Some(stack2[|stack2| - 1]);
    } else if IsRet(mn) {
      if |stack2| > 1 {
        stack2 := stack2[..|stack2| - 1];
      }
    }
  }

  lemma DetectedRead(log: seq<LogLine>, so: string, i: nat)
    requires i <= |log| && (i == |log| || FirstSo(log[..i], so).Some?)
    ensures FirstSo(log, so) == FirstSo(log[..i], so)
  {
    if i == |log| {
      assert log[..i] == log;
    } else {
      FirstSoStays(log, so, i);
    }
  }

  /**
   parse_file: the tables, the total, the entry and the number of lines are those of the specification run over the
   lines that count, up to the maximum.
   */
  method ParseFile(log: seq<LogLine>, so: string, entry: Option<nat>, maxn: int)
    returns (edges: Graph, total: nat, fcount: map<nat, nat>, entryOut: nat, detected: Option<string>, n: nat)
    ensures var lines := FirstLines(Counted(log, so), maxn);
            var s := Run(Initial(entry), lines);
            && n == |lines| && Books(edges, fcount, total, s.calls)
            && entryOut == (if s.entry.Some? then s.entry.value else 0)
    ensures detected == FirstSo(log, so)
    ensures detected.Some? <==> n > 0
  {
    edges, total, fcount, n, detected := map[], 0, map[], 0, None;
    var stack: seq<nat>, pending: Option<nat>, entrySet := [], None, entry;
    ghost var calls: seq<(nat, nat)>, seen: seq<Line> := [], [];
    var i, more := 0, true;
    while i < |log| && more
      invariant i <= |log| && seen == Counted(log[..i], so) && n == |seen|
      invariant if more then n == 0 || n < maxn else n == Limit(maxn)
      invariant Run(Initial(entry), seen) == State(calls, stack, pending, entrySet)
      invariant Books(edges, fcount, total, calls)
      invariant detected.Some? <==> n > 0
      invariant detected == FirstSo(log[..i], so)
      decreases |log| - i
    {
      var line := log[i];
      CountedNext(log, so, i);
      FirstSoNext(log, so, i);
      if line.Matched? && (so == "" || line.so == so) {
        RunSnoc(entry, seen, Line(line.off, line.mn));
        seen := seen + [Line(line.off, line.mn)];
        if detected.None? {
          detected := Some(line.so);
        }
        edges, total, fcount, stack, pending, entrySet, calls :=
          Take(edges, total, fcount, stack, pending, entrySet, Line(line.off, line.mn), calls);
        n := n + 1;
        more := n < maxn;
      }
      i := i + 1;
    }
    FirstLinesRead(log, so, i, maxn);
    DetectedRead(log, so, i);
    entryOut := if entrySet.Some? then entrySet.value else 0;
  }
}
