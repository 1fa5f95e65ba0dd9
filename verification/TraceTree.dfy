/**
 Call trees and the traces of their runs. Writing a tree out as a trace and parsing the trace gives the tree's calls
 back; parsing any beginning of the trace gives the calls entered in it.
 */
module TraceTree {
  import opened Bytes
  import opened CallGraph

  /** A function's run: its instructions in order, calls with the run of the function called, and the return. */
  datatype Fun = Fun(body: Body, ret: nat)

  datatype Body =
    | Done
    | Plain(off: nat, mn: string, rest: Body)
    | Call(off: nat, mn: string, callee: Fun, rest: Body)

  predicate BodyOk(b: Body) {
    match b
    case Done => true
    case Plain(_, mn, rest) => mn != "bl" && mn != "blr" && mn != "ret" && BodyOk(rest)
    case Call(_, mn, callee, rest) => (mn == "bl" || mn == "blr") && BodyOk(callee.body) && BodyOk(rest)
  }

  /** The trace: each call is followed by the callee's instructions, each function ends in its return. */
  function Lines(f: Fun): (r: seq<Line>)
    ensures |r| > 0
  {
    BodyLines(f.body) + [Line(f.ret, "ret")]
  }

  function BodyLines(b: Body): seq<Line> {
    match b
    case Done => []
    case Plain(off, mn, rest) => [Line(off, mn)] + BodyLines(rest)
    case Call(off, mn, callee, rest) => [Line(off, mn)] + Lines(callee) + BodyLines(rest)
  }

  /** A function goes by the offset of its first instruction. */
  function EntryOf(f: Fun): nat {
    Lines(f)[0].off
  }

  /** The calls of a tree, whatever their order. */
  function Edges(b: Body, caller: nat): multiset<(nat, nat)> {
    match b
    case Done => multiset{}
    case Plain(_, _, rest) => Edges(rest, caller)
    case Call(_, _, callee, rest) =>
      multiset{(caller, EntryOf(callee))} + Edges(callee.body, EntryOf(callee)) + Edges(rest, caller)
  }

  /** A call and the line at which the callee is entered. */
  datatype Entry = Entry(at: nat, caller: nat, callee: nat)

  /** The calls of a body that starts at line pos, in order of entry. */
  function Entries(b: Body, caller: nat, pos: nat): seq<Entry> {
    match b
    case Done => []
    case Plain(_, _, rest) => Entries(rest, caller, pos + 1)
    case Call(_, _, callee, rest) =>
      [Entry(pos + 1, caller, EntryOf(callee))] + Entries(callee.body, EntryOf(callee), pos + 1)
      + Entries(rest, caller, pos + 1 + |Lines(callee)|)
  }

  /** Those entered before line k. */
  function EnteredBefore(entries: seq<Entry>, k: nat): seq<(nat, nat)> {
    if entries == [] then []
    else (if entries[0].at < k then [(entries[0].caller, entries[0].callee)] else []) + EnteredBefore(entries[1..], k)
  }

  lemma {:induction false} EnteredAppend(a: seq<Entry>, b: seq<Entry>, k: nat)
    ensures EnteredBefore(a + b, k) == EnteredBefore(a, k) + EnteredBefore(b, k)
  {
    if a == [] {
      assert a + b == b;
    } else {
      assert (a + b)[1..] == a[1..] + b;
      EnteredAppend(a[1..], b, k);
    }
  }

  lemma EnteredOne(e: Entry, k: nat)
    ensures EnteredBefore([e], k) == if e.at < k then [(e.caller, e.callee)] else []
  {
    assert [e][1..] == [];
  }

  /** The calls of a body that begins with a call: that one, the callee's, and the others. */
  lemma EnteredCall(off: nat, mn: string, callee: Fun, rest: Body, caller: nat, pos: nat, k: nat)
    requires k > pos + 1
    ensures EnteredBefore(Entries(Call(off, mn, callee, rest), caller, pos), k)
            == [(caller, EntryOf(callee))] + EnteredBefore(Entries(callee.body, EntryOf(callee), pos + 1), k)
               + EnteredBefore(Entries(rest, caller, pos + 1 + |Lines(callee)|), k)
  {
    var head, in1 := Entry(pos + 1, caller, EntryOf(callee)), Entries(callee.body, EntryOf(callee), pos + 1);
    EnteredAppend([head], in1, k);
    EnteredAppend([head] + in1, Entries(rest, caller, pos + 1 + |Lines(callee)|), k);
    EnteredOne(head, k);
  }

  lemma Regroup(calls: seq<(nat, nat)>, a: seq<(nat, nat)>, b: seq<(nat, nat)>, c: seq<(nat, nat)>)
    ensures calls + (a + b) + c == calls + (a + b + c) && calls + a + b == calls + (a + b)
  {
  }

  predicate AllWithin(entries: seq<Entry>, lo: nat, hi: nat) {
    forall i :: 0 <= i < |entries| ==> lo < entries[i].at < hi
  }

  lemma {:induction false} EntriesWithin(b: Body, caller: nat, pos: nat)
    ensures AllWithin(Entries(b, caller, pos), pos, pos + |BodyLines(b)|)
  {
    match b
    case Done =>
    case Plain(_, _, rest) => EntriesWithin(rest, caller, pos + 1);
    case Call(_, _, callee, rest) =>
      EntriesWithin(callee.body, EntryOf(callee), pos + 1);
      EntriesWithin(rest, caller, pos + 1 + |Lines(callee)|);
  }

  lemma {:induction false} NoneEntered(entries: seq<Entry>, lo: nat, hi: nat, k: nat)
    requires AllWithin(entries, lo, hi) && k <= lo + 1
    ensures EnteredBefore(entries, k) == []
  {
    if entries != [] {
      NoneEntered(entries[1..], lo, hi, k);
    }
  }

  lemma {:induction false} AllEntered(entries: seq<Entry>, lo: nat, hi: nat, k: nat, k2: nat)
    requires AllWithin(entries, lo, hi) && hi <= k && hi <= k2
    ensures EnteredBefore(entries, k) == EnteredBefore(entries, k2)
  {
    if entries != [] {
      AllEntered(entries[1..], lo, hi, k, k2);
    }
  }

  // ---- parsing ----

  predicate Ready(s: State) {
    s.stack != [] && s.entry.Some? && s.pending == None
  }

  function Top(s: State): nat
    requires s.stack != []
  {
    s.stack[|s.stack| - 1]
  }

  function WithCalls(s: State, more: seq<(nat, nat)>): State {
    s.(calls := s.calls + more)
  }

  function Pushed(s: State, callee: nat): State
    requires Ready(s)
  {
    s.(calls := s.calls + [(Top(s), callee)], stack := s.stack + [callee])
  }

  /** The call instruction and the lines of the callee: as if the callee were entered between them. */
  lemma CallEnters(s: State, call: Line, lines: seq<Line>)
    requires Ready(s) && IsCall(call.mn) && lines != []
    ensures Run(s, [call] + lines) == Run(Pushed(s, lines[0].off), lines)
  {
    assert ([call] + lines)[1..] == lines;
    assert Step(Step(s, call), lines[0]) == Step(Pushed(s, lines[0].off), lines[0]);
  }

  /** A whole body leaves the stack as it was and adds its calls. */
  lemma {:induction false} BodyRuns(b: Body, s: State, pos: nat, k: nat)
    requires BodyOk(b) && Ready(s) && k >= pos + |BodyLines(b)|
    ensures Run(s, BodyLines(b)) == WithCalls(s, EnteredBefore(Entries(b, Top(s), pos), k))
    decreases b, 1
  {
    match b
    case Done =>
      assert WithCalls(s, []) == s;
    case Plain(off, mn, rest) =>
      assert BodyLines(b)[1..] == BodyLines(rest);
      assert Step(s, Line(off, mn)) == s;
      BodyRuns(rest, s, pos + 1, k);
    case Call(off, mn, callee, rest) =>
      CallRuns(callee, s, Line(off, mn), pos + 1, k);
      RunAppend(s, [Line(off, mn)] + Lines(callee), BodyLines(rest));
      var inner := EnteredBefore(Entries(callee.body, EntryOf(callee), pos + 1), k);
      BodyRuns(rest, WithCalls(s, [(Top(s), EntryOf(callee))] + inner), pos + 1 + |Lines(callee)|, k);
      EnteredCall(off, mn, callee, rest, Top(s), pos, k);
      Regroup(s.calls, [(Top(s), EntryOf(callee))], inner,
          EnteredBefore(Entries(rest, Top(s), pos + 1 + |Lines(callee)|), k));
  }

  /** A call and its callee's whole run. */
  lemma {:induction false} CallRuns(f: Fun, s: State, call: Line, pos: nat, k: nat)
    requires BodyOk(f.body) && Ready(s) && IsCall(call.mn) && k >= pos + |Lines(f)|
    ensures Run(s, [call] + Lines(f))
                == WithCalls(s, [(Top(s), EntryOf(f))] + EnteredBefore(Entries(f.body, EntryOf(f), pos), k))
    decreases f, 0
  {
    var inner := EnteredBefore(Entries(f.body, EntryOf(f), pos), k);
    CallEnters(s, call, Lines(f));
    RunAppend(Pushed(s, EntryOf(f)), BodyLines(f.body), [Line(f.ret, "ret")]);
    BodyRuns(f.body, Pushed(s, EntryOf(f)), pos, k);
    ReturnPops(s, EntryOf(f), inner, f.ret);
  }

  /** A return leaves an entered function with its calls added. */
  lemma ReturnPops(s: State, callee: nat, inner: seq<(nat, nat)>, ret: nat)
    requires Ready(s)
    ensures Run(WithCalls(Pushed(s, callee), inner), [Line(ret, "ret")]) == WithCalls(s, [(Top(s), callee)] + inner)
  {
    var q := WithCalls(Pushed(s, callee), inner);
    assert [Line(ret, "ret")][1..] == [];
    assert q.stack[..|q.stack| - 1] == s.stack;
    assert q.calls == s.calls + ([(Top(s), callee)] + inner);
  }

  /** Any beginning of a body. */
  lemma {:induction false} BodyPrefix(b: Body, s: State, pos: nat, k: nat)
    requires BodyOk(b) && Ready(s) && k <= |BodyLines(b)|
    ensures Run(s, BodyLines(b)[..k]).calls == s.calls + EnteredBefore(Entries(b, Top(s), pos), pos + k)
    decreases b, 1
  {
    EntriesWithin(b, Top(s), pos);
    if k <= 1 {
      NoneEntered(Entries(b, Top(s), pos), pos, pos + |BodyLines(b)|, pos + k);
      if k == 1 {
        assert BodyLines(b)[..1] == [BodyLines(b)[0]];
        assert [BodyLines(b)[0]][1..] == [];
      }
    } else {
      match b
      case Plain(off, mn, rest) =>
        assert BodyLines(b)[..k] == [Line(off, mn)] + BodyLines(rest)[..k - 1];
        assert BodyLines(b)[..k][1..] == BodyLines(rest)[..k - 1];
        assert Step(s, Line(off, mn)) == s;
        BodyPrefix(rest, s, pos + 1, k - 1);
      case Call(off, mn, callee, rest) =>
        if k <= 1 + |Lines(callee)| {
          PrefixInCallee(off, mn, callee, rest, s, pos, k);
        } else {
          PrefixPastCallee(off, mn, callee, rest, s, pos, k);
        }
    }
  }

  lemma EnteredInCallee(off: nat, mn: string, callee: Fun, rest: Body, caller: nat, pos: nat, k: nat)
    requires pos + 1 < k <= pos + 1 + |Lines(callee)|
    ensures EnteredBefore(Entries(Call(off, mn, callee, rest), caller, pos), k)
            == [(caller, EntryOf(callee))] + EnteredBefore(Entries(callee.body, EntryOf(callee), pos + 1), k)
  {
    var start := pos + 1 + |Lines(callee)|;
    var after := Entries(rest, caller, start);
    EnteredCall(off, mn, callee, rest, caller, pos, k);
    EntriesWithin(rest, caller, start);
    NoneEntered(after, start, start + |BodyLines(rest)|, k);
    NothingMore([(caller, EntryOf(callee))] + EnteredBefore(Entries(callee.body, EntryOf(callee), pos + 1), k),
                EnteredBefore(after, k));
  }

  lemma NothingMore(a: seq<(nat, nat)>, b: seq<(nat, nat)>)
    requires b == []
    ensures a + b == a
  {
  }

  lemma LinesInCallee(off: nat, mn: string, callee: Fun, rest: Body, k: nat)
    requires 1 < k <= 1 + |Lines(callee)|
    ensures k <= |BodyLines(Call(off, mn, callee, rest))|
    ensures BodyLines(Call(off, mn, callee, rest))[..k] == [Line(off, mn)] + Lines(callee)[..k - 1]
  {
  }

  /** The beginning ends in the callee. */
  lemma {:induction false} PrefixInCallee(off: nat, mn: string, callee: Fun, rest: Body, s: State, pos: nat, k: nat)
    requires var b := Call(off, mn, callee, rest); BodyOk(b) && Ready(s) && 1 < k <= 1 + |Lines(callee)|
    ensures var b := Call(off, mn, callee, rest);
            Run(s, BodyLines(b)[..k]).calls == s.calls + EnteredBefore(Entries(b, Top(s), pos), pos + k)
    decreases Call(off, mn, callee, rest), 0
  {
    var b, e, n := Call(off, mn, callee, rest), EntryOf(callee), |Lines(callee)|;
    var part, in1 := Lines(callee)[..k - 1], EnteredBefore(Entries(callee.body, e, pos + 1), pos + k);
    FunPrefix(callee, Pushed(s, e), pos + 1, k - 1);
    assert Run(Pushed(s, e), part).calls == s.calls + [(Top(s), e)] + in1;
    CallEnters(s, Line(off, mn), part);
    LinesInCallee(off, mn, callee, rest, k);
    EnteredInCallee(off, mn, callee, rest, Top(s), pos, pos + k);
    Regroup(s.calls, [(Top(s), e)], in1, []);
  }

  /** The beginning of the rest, behind the calls the callee made. */
  lemma {:induction false} AfterCallee(rest: Body, s: State, made: seq<(nat, nat)>, pos: nat, k: nat)
    requires BodyOk(rest) && Ready(s) && k <= |BodyLines(rest)|
    ensures Run(WithCalls(s, made), BodyLines(rest)[..k]).calls
                == s.calls + (made + EnteredBefore(Entries(rest, Top(s), pos), pos + k))
    decreases rest, 2
  {
    BodyPrefix(rest, WithCalls(s, made), pos, k);
    Regroup(s.calls, made, EnteredBefore(Entries(rest, Top(s), pos), pos + k), []);
  }

  lemma LinesPast(off: nat, mn: string, callee: Fun, rest: Body, k: nat)
    requires 1 + |Lines(callee)| <= k <= |BodyLines(Call(off, mn, callee, rest))|
    ensures |BodyLines(Call(off, mn, callee, rest))| == 1 + |Lines(callee)| + |BodyLines(rest)|
    ensures BodyLines(Call(off, mn, callee, rest))[..k]
            == ([Line(off, mn)] + Lines(callee)) + BodyLines(rest)[..k - 1 - |Lines(callee)|]
  {
  }

  /** It ends after the callee. */
  lemma {:induction false} PrefixPastCallee(off: nat, mn: string, callee: Fun, rest: Body, s: State, pos: nat, k: nat)
    requires var b := Call(off, mn, callee, rest); BodyOk(b) && Ready(s) && 1 + |Lines(callee)| < k <= |BodyLines(b)|
    ensures var b := Call(off, mn, callee, rest);
            Run(s, BodyLines(b)[..k]).calls == s.calls + EnteredBefore(Entries(b, Top(s), pos), pos + k)
    decreases Call(off, mn, callee, rest), 0
  {
    var e, n := EntryOf(callee), |Lines(callee)|;
    var in1 := EnteredBefore(Entries(callee.body, e, pos + 1), pos + k);
    EnteredCall(off, mn, callee, rest, Top(s), pos, pos + k);
    LinesPast(off, mn, callee, rest, k);
    CallRuns(callee, s, Line(off, mn), pos + 1, pos + k);
    RunAppend(s, [Line(off, mn)] + Lines(callee), BodyLines(rest)[..k - 1 - n]);
    AfterCallee(rest, s, [(Top(s), e)] + in1, pos + 1 + n, k - 1 - n);
  }

  /** Any beginning of an entered function's lines, the return included. */
  lemma {:induction false} FunPrefix(f: Fun, s: State, pos: nat, k: nat)
    requires BodyOk(f.body) && Ready(s) && k <= |Lines(f)|
    ensures Run(s, Lines(f)[..k]).calls == s.calls + EnteredBefore(Entries(f.body, Top(s), pos), pos + k)
    decreases f, 2
  {
    var n := |BodyLines(f.body)|;
    if k <= n {
      assert Lines(f)[..k] == BodyLines(f.body)[..k];
      BodyPrefix(f.body, s, pos, k);
    } else {
      assert Lines(f)[..k] == BodyLines(f.body) + [Line(f.ret, "ret")];
      RunAppend(s, BodyLines(f.body), [Line(f.ret, "ret")]);
      BodyRuns(f.body, s, pos, pos + k);
      assert [Line(f.ret, "ret")][1..] == [];
    }
  }

  /** What the root goes by: the entry given, or its first instruction. */
  function RootName(f: Fun, entry: Option<nat>): nat {
    if entry.Some? then entry.value else EntryOf(f)
  }

  /**
   Call-graph inverse, on any beginning: of the first k lines of a tree's trace, parsing finds exactly the calls
   whose callee was entered in them, in order.
   */
  lemma ParsePrefix(f: Fun, entry: Option<nat>, k: nat)
    requires BodyOk(f.body) && k <= |Lines(f)|
    ensures Run(Initial(entry), Lines(f)[..k]).calls == EnteredBefore(Entries(f.body, RootName(f, entry), 0), k)
  {
    var s := State([], [RootName(f, entry)], None, Some(RootName(f, entry)));
    if k > 0 {
      assert Step(Initial(entry), Lines(f)[0]) == Step(s, Lines(f)[0]);
      FunPrefix(f, s, 0, k);
    } else {
      EntriesWithin(f.body, RootName(f, entry), 0);
      NoneEntered(Entries(f.body, RootName(f, entry), 0), 0, |BodyLines(f.body)|, 0);
    }
  }

  lemma {:induction false} EntriesAreEdges(b: Body, caller: nat, pos: nat, k: nat)
    requires k >= pos + |BodyLines(b)|
    ensures multiset(EnteredBefore(Entries(b, caller, pos), k)) == Edges(b, caller)
  {
    match b
    case Done =>
    case Plain(_, _, rest) => EntriesAreEdges(rest, caller, pos + 1, k);
    case Call(off, mn, callee, rest) =>
      EntriesAreEdges(callee.body, EntryOf(callee), pos + 1, k);
      EntriesAreEdges(rest, caller, pos + 1 + |Lines(callee)|, k);
      EdgesJoin(off, mn, callee, rest, caller, pos, k);
  }

  lemma EdgesJoin(off: nat, mn: string, callee: Fun, rest: Body, caller: nat, pos: nat, k: nat)
    requires k > pos + 1
    requires multiset(EnteredBefore(Entries(callee.body, EntryOf(callee), pos + 1), k))
                 == Edges(callee.body, EntryOf(callee))
    requires multiset(EnteredBefore(Entries(rest, caller, pos + 1 + |Lines(callee)|), k)) == Edges(rest, caller)
    ensures var b := Call(off, mn, callee, rest);
            multiset(EnteredBefore(Entries(b, caller, pos), k)) == Edges(b, caller)
  {
    EnteredCall(off, mn, callee, rest, caller, pos, k);
    Gather((caller, EntryOf(callee)), EnteredBefore(Entries(callee.body, EntryOf(callee), pos + 1), k),
           EnteredBefore(Entries(rest, caller, pos + 1 + |Lines(callee)|), k));
  }

  lemma Gather(x: (nat, nat), a: seq<(nat, nat)>, b: seq<(nat, nat)>)
    ensures multiset([x] + a + b) == multiset{x} + multiset(a) + multiset(b)
  {
  }

  /** Call-graph inverse: parsing a tree's trace gives the tree's calls, each as often as it was made. */
  lemma ParseInverts(f: Fun, entry: Option<nat>)
    requires BodyOk(f.body)
    ensures multiset(Run(Initial(entry), Lines(f)).calls) == Edges(f.body, RootName(f, entry))
  {
    var n := |Lines(f)|;
    assert Lines(f)[..n] == Lines(f);
    ParsePrefix(f, entry, n);
    EntriesAreEdges(f.body, RootName(f, entry), 0, n);
  }

  /**
   parse_file's tables for a tree: every edge as often as it was called, every function as often as it was entered.
   */
  lemma TableOfTree(f: Fun, entry: Option<nat>, edges: Graph, fcount: map<nat, nat>, total: nat)
    requires BodyOk(f.body) && Books(edges, fcount, total, Run(Initial(entry), Lines(f)).calls)
    ensures forall a: nat, b: nat :: CountOf(edges, a, b) == Edges(f.body, RootName(f, entry))[(a, b)]
    ensures total == |Edges(f.body, RootName(f, entry))| == SumEdges(edges) == SumOf(fcount)
  {
    ParseInverts(f, entry);
  }
}
