/**
 From the runtime's pretty text of a method or field to names and descriptors. On texts printed from types and names
 this is the inverse of printing, with the descriptors of sections 4.3.2 and 4.3.3 of the Java Virtual Machine
 Specification; and walking such a descriptor takes one step for each parameter.
 */
module PrettySig {
  import opened Bytes

  // ---- types, their texts and their descriptors ----

  datatype Primitive = Void | Boolean | Byte | Char | Short | Int | Long | Float | Double

  datatype JType = Base(p: Primitive) | Object(segments: seq<string>) | Array(elem: JType)

  function Keyword(p: Primitive): string {
    match p
    case Void => "void"
    case Boolean => "boolean"
    case Byte => "byte"
    case Char => "char"
    case Short => "short"
    case Int => "int"
    case Long => "long"
    case Float => "float"
    case Double => "double"
  }

  function Letter(p: Primitive): char {
    match p
    case Void => 'V'
    case Boolean => 'Z'
    case Byte => 'B'
    case Char => 'C'
    case Short => 'S'
    case Int => 'I'
    case Long => 'J'
    case Float => 'F'
    case Double => 'D'
  }

  /** What may not stand in a name. */
  predicate NameChar(c: char) {
    c != ' ' && c != ',' && c != '.' && c != '(' && c != ')' && c != '[' && c != ']' && c != ';' && c != '/'
  }

  predicate Name(s: string) {
    s != "" && forall i :: 0 <= i < |s| ==> NameChar(s[i])
  }

  function Joined(segments: seq<string>, sep: string): string {
    if segments == [] then ""
    else if |segments| == 1 then segments[0]
    else segments[0] + sep + Joined(segments[1..], sep)
  }

  /** A qualified name that is not a keyword. */
  predicate ClassOk(segments: seq<string>) {
    && segments != [] && (forall i :: 0 <= i < |segments| ==> Name(segments[i]))
    && PrimOf(Joined(segments, ".")).None?
  }

  predicate TypeOk(t: JType) {
    match t
    case Base(_) => true
    case Object(segments) => ClassOk(segments)
    case Array(e) => TypeOk(e) && e != Base(Void)
  }

  function Pretty(t: JType): string {
    match t
    case Base(p) => Keyword(p)
    case Object(segments) => Joined(segments, ".")
    case Array(e) => Pretty(e) + "[]"
  }

  function Descriptor(t: JType): string {
    match t
    case Base(p) => [Letter(p)]
    case Object(segments) => "L" + Joined(segments, "/") + ";"
    case Array(e) => "[" + Descriptor(e)
  }

  // ---- classNameToSig ----

  function PrimOf(name: string): Option<Primitive> {
    if name == "void" then Some(Void)
    else if name == "boolean" then Some(Boolean)
    else if name == "byte" then Some(Byte)
    else if name == "char" then Some(Char)
    else if name == "short" then Some(Short)
    else if name == "int" then Some(Int)
    else if name == "long" then Some(Long)
    else if name == "float" then Some(Float)
    else if name == "double" then Some(Double)
    else None
  }

  function Slashed(s: string): (r: string)
    ensures |r| == |s|
  {
    seq(|s|, i requires 0 <= i < |s| => if s[i] == '.' then '/' else s[i])
  }

  predicate EndsInDims(s: string) {
    |s| >= 2 && s[|s| - 2] == '[' && s[|s| - 1] == ']'
  }

  function Stripped(s: string): (r: string)
    ensures |r| <= |s|
  {
    if EndsInDims(s) then Stripped(s[..|s| - 2]) else s
  }

  function Dims(s: string): string {
    if EndsInDims(s) then "[" + Dims(s[..|s| - 2]) else ""
  }

  function ClassSig(name: string): string
    decreases |name|
  {
    if PrimOf(name).Some? then [Letter(PrimOf(name).value)]
    else if name != "" && name[0] == '[' then Slashed(name)
    else if |name| >= 3 && EndsInDims(name) then Dims(name) + ClassSig(Stripped(name[..|name| - 2]))
    else "L" + Slashed(name) + ";"
  }

  lemma {:induction false} DimsSnoc(s: string)
    requires EndsInDims(s)
    ensures Dims(s) == Dims(s[..|s| - 2]) + "["
    decreases |s|
  {
    if EndsInDims(s[..|s| - 2]) {
      DimsSnoc(s[..|s| - 2]);
    }
  }

  /** classNameToSig, with its loops. */
  method ClassNameToSig(name: string) returns (r: string)
    ensures r == ClassSig(name)
    decreases |name|
  {
    var prim := PrimOf(name);
    if prim.Some? {
      return [Letter(prim.value)];
    }
    if name != "" && name[0] == '[' {
      r := ReplaceDots(name);
      return;
    }
    if |name| >= 3 && EndsInDims(name) {
      var base, prefix := name, "";
      while EndsInDims(base)
        invariant |base| <= |name| && (base == name || |base| <= |name| - 2)
        invariant prefix + Dims(base) == Dims(name) && Stripped(base) == Stripped(name)
        decreases |base|
      {
        DimsSnoc(base);
        DimsTurn(base);
        prefix := prefix + "[";
        base := base[..|base| - 2];
      }
      assert base == Stripped(name) == Stripped(name[..|name| - 2]) && prefix == Dims(name);
      var inner := ClassNameToSig(base);
      return prefix + inner;
    }
    var body := ReplaceDots(name);
    r := "L" + body + ";";
  }

  lemma DimsTurn(s: string)
    requires EndsInDims(s)
    ensures Dims(s) == "[" + Dims(s[..|s| - 2])
  {
  }

  method ReplaceDots(s: string) returns (r: string)
    ensures r == Slashed(s)
  {
    r := "";
    for i := 0 to |s|
      invariant r == Slashed(s)[..i]
    {
      r := r + [if s[i] == '.' then '/' else s[i]];
    }
  }

  // ---- the inverse on types ----

  predicate TypeChar(c: char) {
    NameChar(c) || c == '.' || c == '[' || c == ']'
  }

  predicate TypeText(s: string) {
    s != "" && (forall i :: 0 <= i < |s| ==> TypeChar(s[i])) && s[0] != '['
  }

  lemma {:induction false} JoinedText(segments: seq<string>)
    requires segments != [] && forall i :: 0 <= i < |segments| ==> Name(segments[i])
    ensures var s := Joined(segments, ".");
            && TypeText(s) && NameChar(s[|s| - 1]) && Slashed(s) == Joined(segments, "/")
            && forall i :: 0 <= i < |s| ==> s[i] != '['
  {
    if |segments| > 1 {
      JoinedText(segments[1..]);
      var a, b := segments[0], Joined(segments[1..], ".");
      assert Slashed(a + "." + b) == a + "/" + Slashed(b);
    } else {
      assert Slashed(segments[0]) == segments[0];
    }
  }

  lemma {:induction false} PrettyText(t: JType)
    requires TypeOk(t)
    ensures TypeText(Pretty(t))
  {
    match t
    case Base(p) =>
    case Object(segments) => JoinedText(segments);
    case Array(e) => PrettyText(e);
  }

  lemma KeywordBack(p: Primitive)
    ensures ClassSig(Keyword(p)) == [Letter(p)] && !EndsInDims(Keyword(p))
  {
    assert PrimOf(Keyword(p)) == Some(p);
  }

  lemma ClassBack(segments: seq<string>)
    requires ClassOk(segments)
    ensures ClassSig(Joined(segments, ".")) == "L" + Joined(segments, "/") + ";" && !EndsInDims(Joined(segments, "."))
  {
    JoinedText(segments);
  }

  lemma DimsOfMore(s: string)
    ensures EndsInDims(s + "[]") && Dims(s + "[]") == "[" + Dims(s) && Stripped(s + "[]") == Stripped(s)
  {
    assert (s + "[]")[..|s|] == s;
  }

  /** A text that ends in brackets is no keyword. */
  lemma NoKeyword(s: string)
    requires EndsInDims(s)
    ensures PrimOf(s).None?
  {
  }

  /** A type's text splits into its element's and its dimensions. */
  lemma {:induction false} PrettySplits(t: JType)
    requires TypeOk(t)
    ensures Dims(Pretty(t)) + ClassSig(Stripped(Pretty(t))) == Descriptor(t)
    ensures !t.Array? ==> Stripped(Pretty(t)) == Pretty(t) && Dims(Pretty(t)) == ""
  {
    match t
    case Base(p) =>
      KeywordBack(p);
      FlatSplits(Pretty(t), Descriptor(t));
    case Object(segments) =>
      ClassBack(segments);
      FlatSplits(Pretty(t), Descriptor(t));
    case Array(e) =>
      PrettySplits(e);
      MoreSplits(Pretty(e), Descriptor(e));
  }

  lemma FlatSplits(s: string, d: string)
    requires !EndsInDims(s) && ClassSig(s) == d
    ensures Stripped(s) == s && Dims(s) == "" && Dims(s) + ClassSig(Stripped(s)) == d
  {
  }

  lemma MoreSplits(s: string, d: string)
    requires Dims(s) + ClassSig(Stripped(s)) == d
    ensures Dims(s + "[]") + ClassSig(Stripped(s + "[]")) == "[" + d
  {
    DimsOfMore(s);
    ConcatAssociative("[", Dims(s), ClassSig(Stripped(s)));
  }

  /** Descriptors of section 4.3.2: the type of any depth and qualified name comes back from its text. */
  lemma TypeBack(t: JType)
    requires TypeOk(t)
    ensures ClassSig(Pretty(t)) == Descriptor(t)
  {
    PrettySplits(t);
    PrettyText(t);
    if t.Array? {
      var s := Pretty(t);
      PrettyText(t.elem);
      NoKeyword(s);
      assert Stripped(s) == Stripped(s[..|s| - 2]);
    }
  }

  /** A name that is an array's already keeps its letters, with slashes for dots. */
  lemma ArrayKept(name: string)
    requires name != "" && name[0] == '['
    ensures |ClassSig(name)| == |name|
    ensures forall i :: 0 <= i < |name| ==> ClassSig(name)[i] == if name[i] == '.' then '/' else name[i]
  {
  }

  /** The keywords and their letters. */
  lemma KeywordLetters()
    ensures ClassSig("void") == "V" && ClassSig("boolean") == "Z" && ClassSig("byte") == "B" && ClassSig("char") == "C"
    ensures ClassSig("short") == "S" && ClassSig("int") == "I" && ClassSig("long") == "J" && ClassSig("float") == "F"
    ensures ClassSig("double") == "D"
    ensures Pretty(Base(Void)) == "void" && Pretty(Base(Boolean)) == "boolean" && Pretty(Base(Byte)) == "byte"
    ensures Pretty(Base(Char)) == "char" && Pretty(Base(Short)) == "short" && Pretty(Base(Int)) == "int"
    ensures Pretty(Base(Long)) == "long" && Pretty(Base(Float)) == "float" && Pretty(Base(Double)) == "double"
  {
  }

  // ---- finding characters ----

  /** The first place of a character, or the length. */
  function IndexOf(s: string, c: char): (r: nat)
    ensures r <= |s| && (r < |s| ==> s[r] == c) && forall i :: 0 <= i < r ==> s[i] != c
  {
    if s == "" || s[0] == c then 0 else 1 + IndexOf(s[1..], c)
  }

  /** One past the last place of a character, or 0. */
  function AfterLast(s: string, c: char): (r: nat)
    ensures r <= |s| && (r > 0 ==> s[r - 1] == c) && forall i :: r <= i < |s| ==> s[i] != c
  {
    if s == "" then 0 else if s[|s| - 1] == c then |s| else AfterLast(s[..|s| - 1], c)
  }

  predicate Lacks(s: string, c: char) {
    forall i :: 0 <= i < |s| ==> s[i] != c
  }

  lemma IndexOfIs(a: string, c: char, b: string)
    requires Lacks(a, c)
    ensures IndexOf(a + [c] + b, c) == |a|
  {
    var s := a + [c] + b;
    assert s[|a|] == c;
    assert forall i :: 0 <= i < |a| ==> s[i] == a[i];
  }

  lemma {:induction false} AfterLastIs(a: string, c: char, b: string)
    requires Lacks(b, c)
    ensures AfterLast(a + [c] + b, c) == |a| + 1
  {
    var s := a + [c] + b;
    if b == "" {
      assert s[|s| - 1] == c;
    } else {
      assert s[..|s| - 1] == a + [c] + b[..|b| - 1] && s[|s| - 1] == b[|b| - 1];
      AfterLastIs(a, c, b[..|b| - 1]);
    }
  }

  // ---- the parameter list ----

  function SkipSpaces(s: string): (r: string)
    ensures |r| <= |s|
  {
    if s != "" && s[0] == ' ' then SkipSpaces(s[1..]) else s
  }

  function TrimRight(s: string): string {
    if s != "" && s[|s| - 1] == ' ' then TrimRight(s[..|s| - 1]) else s
  }

  /** What one parameter adds, and what is left after it. */
  function OneSig(s: string): string {
    var text := TrimRight(s[..IndexOf(s, ',')]);
    if text != "" then ClassSig(text) else ""
  }

  function AfterOne(s: string): (r: string)
    ensures s != "" ==> |r| < |s|
  {
    var comma := IndexOf(s, ',');
    if comma < |s| then s[comma + 1..] else ""
  }

  /** The descriptors of what is left of the list. */
  function ParamSigs(rest: string): string
    decreases |rest|, 1
  {
    FromParam(SkipSpaces(rest))
  }

  /** The same from a place that is no space. */
  function FromParam(s: string): string
    decreases |s|, 0
  {
    if s == "" then "" else OneSig(s) + ParamSigs(AfterOne(s))
  }

  function Descriptors(ts: seq<JType>): string {
    if ts == [] then "" else Descriptor(ts[0]) + Descriptors(ts[1..])
  }

  function PrettyList(ts: seq<JType>): string {
    if ts == [] then "" else if |ts| == 1 then Pretty(ts[0]) else Pretty(ts[0]) + ", " + PrettyList(ts[1..])
  }

  predicate ParamsOk(ts: seq<JType>) {
    forall i {:trigger TypeOk(ts[i])} :: 0 <= i < |ts| ==> TypeOk(ts[i]) && ts[i] != Base(Void)
  }

  lemma TextLacks(s: string)
    requires TypeText(s)
    ensures Lacks(s, ',') && Lacks(s, ' ') && Lacks(s, '(') && Lacks(s, ')')
    ensures SkipSpaces(s) == s == TrimRight(s)
  {
  }

  lemma AloneText(a: string)
    requires TypeText(a)
    ensures a != "" && IndexOf(a, ',') == |a| && TrimRight(a[..IndexOf(a, ',')]) == a
  {
    TextLacks(a);
    assert a[..|a|] == a;
  }

  lemma AloneCut(a: string)
    requires TypeText(a)
    ensures OneSig(a) == ClassSig(a) && AfterOne(a) == ""
  {
    AloneText(a);
  }

  lemma FirstCut(a: string, rest: string)
    requires TypeText(a)
    ensures OneSig(a + [','] + rest) == ClassSig(a) && AfterOne(a + [','] + rest) == rest
  {
    var s := a + [','] + rest;
    TextLacks(a);
    IndexOfIs(a, ',', rest);
    assert s[..|a|] == a && s[|a| + 1..] == rest;
  }

  function Spaces(n: nat): string {
    if n == 0 then "" else " " + Spaces(n - 1)
  }

  lemma {:induction false} SkipsSpaces(n: nat, a: string)
    requires a == "" || a[0] != ' '
    ensures SkipSpaces(Spaces(n) + a) == a
  {
    if n > 0 {
      assert (Spaces(n) + a)[1..] == Spaces(n - 1) + a;
      SkipsSpaces(n - 1, a);
    } else {
      assert Spaces(0) + a == a;
    }
  }

  lemma {:induction false} TrimsSpaces(a: string, n: nat)
    requires a == "" || a[|a| - 1] != ' '
    ensures TrimRight(a + Spaces(n)) == a
  {
    if n > 0 {
      SpacesEnd(n);
      assert (a + Spaces(n))[..|a + Spaces(n)| - 1] == a + Spaces(n - 1);
      TrimsSpaces(a, n - 1);
    } else {
      assert a + Spaces(0) == a;
    }
  }

  lemma {:induction false} SpacesEnd(n: nat)
    requires n > 0
    ensures |Spaces(n)| == n && Spaces(n)[n - 1] == ' ' && Spaces(n)[..n - 1] == Spaces(n - 1)
  {
    if n > 1 {
      SpacesEnd(n - 1);
      assert Spaces(n)[..n - 1] == " " + Spaces(n - 1)[..n - 2];
    }
  }

  /** Spaces around a text do not count. */
  lemma SpacesAround(a: string, m: nat, n: nat)
    requires TypeText(a)
    ensures ParamSigs(Spaces(m) + (a + Spaces(n))) == ClassSig(a)
  {
    TextLacks(a);
    SpacesLack(n);
    LacksConcat(a, Spaces(n), ',');
    SkipsSpaces(m, a + Spaces(n));
    TrimsSpaces(a, n);
    var s := a + Spaces(n);
    assert IndexOf(s, ',') == |s| && s[..|s|] == s;
    assert OneSig(s) == ClassSig(a) && AfterOne(s) == "";
    assert ParamSigs("") == "";
  }

  lemma {:induction false} SpacesLack(n: nat)
    ensures Lacks(Spaces(n), ',')
  {
    if n > 0 {
      SpacesLack(n - 1);
    }
  }

  /** A list's first text, alone or with more behind it. */
  lemma FirstSig(a: string, more: string)
    requires TypeText(a)
    ensures ParamSigs(a) == ClassSig(a) && ParamSigs(a + ", " + more) == ClassSig(a) + ParamSigs(more)
  {
    var s := a + [','] + (" " + more);
    assert a + ", " + more == s;
    AloneCut(a);
    FirstCut(a, " " + more);
    ParamSigsStep("", a);
    ParamSigsStep("", s);
    LeadingSpace(more);
  }

  lemma {:induction false} ListBack(ts: seq<JType>)
    requires ParamsOk(ts)
    ensures ParamSigs(PrettyList(ts)) == Descriptors(ts)
  {
    if ts != [] {
      PrettyText(ts[0]);
      TypeBack(ts[0]);
      FirstSig(Pretty(ts[0]), PrettyList(ts[1..]));
      ListBack(ts[1..]);
    }
  }

  lemma SkipOne(s: string)
    ensures SkipSpaces(" " + s) == SkipSpaces(s)
  {
    assert (" " + s)[1..] == s;
  }

  lemma LeadingSpace(s: string)
    ensures ParamSigs(" " + s) == ParamSigs(s)
  {
    SkipOne(s);
  }

  method Skip(params: string, from: nat) returns (start: nat)
    requires from <= |params|
    ensures from <= start <= |params| && params[start..] == SkipSpaces(params[from..])
  {
    start := from;
    while start < |params| && params[start] == ' '
      invariant from <= start <= |params| && SkipSpaces(params[start..]) == SkipSpaces(params[from..])
    {
      assert params[start..][1..] == params[start + 1..];
      start := start + 1;
    }
  }

  method Trim(text: string) returns (r: string)
    ensures r == TrimRight(text)
  {
    r := text;
    while r != "" && r[|r| - 1] == ' '
      invariant TrimRight(r) == TrimRight(text)
      decreases |r|
    {
      r := r[..|r| - 1];
    }
  }

  method OneParam(s: string) returns (r: string)
    ensures r == OneSig(s)
  {
    var text := Trim(s[..IndexOf(s, ',')]);
    r := "";
    if text != "" {
      r := ClassNameToSig(text);
    }
  }

  lemma ParamSigsStep(sig: string, rest: string)
    ensures var s := SkipSpaces(rest);
            sig + ParamSigs(rest) == if s == "" then sig else (sig + OneSig(s)) + ParamSigs(AfterOne(s))
  {
    var s := SkipSpaces(rest);
    FromParamStep(s);
    ConcatAssociative(sig, OneSig(s), ParamSigs(AfterOne(s)));
  }

  lemma FromParamStep(s: string)
    ensures FromParam(s) == if s == "" then "" else OneSig(s) + ParamSigs(AfterOne(s))
  {
  }

  /** Where the cursor goes after a parameter that begins at it. */
  method NextStart(params: string, start: nat) returns (next: nat)
    requires start < |params|
    ensures start < next <= |params| && params[next..] == AfterOne(params[start..])
  {
    var s := params[start..];
    var comma := IndexOf(s, ',');
    next := if comma < |s| then start + comma + 1 else |params|;
    assert comma < |s| ==> s[comma + 1..] == params[next..];
  }

  /** The parameter loop, with its cursor. */
  method ParseParams(params: string) returns (sig: string)
    ensures sig == ParamSigs(params)
  {
    sig := "";
    var start := 0;
    ghost var goal := ParamSigs(params);
    assert params[0..] == params;
    while start < |params|
      invariant 0 <= start <= |params|
      invariant sig + ParamSigs(params[start..]) == goal
    {
      ParamSigsStep(sig, params[start..]);
      start := Skip(params, start);
      if start >= |params| {
        return;
      }
      var one := OneParam(params[start..]);
      sig := sig + one;
      start := NextStart(params, start);
    }
  }

  // ---- whole methods and fields ----

  datatype Member = Member(className: string, name: string, signature: string)

  /** parsePrettyMethod: everything empty if the text is not of a method. */
  function ParseMethod(pretty: string): Member {
    var none := Member("", "", "");
    var open := IndexOf(pretty, '(');
    if open == |pretty| then none else FromHead(pretty[..open], ListOf(pretty, open))
  }

  /** The part before the parenthesis: the result's type, then class and name. */
  function FromHead(before: string, params: string): Member {
    var none := Member("", "", "");
    var space := IndexOf(before, ' ');
    if space == |before| then none
    else
      var full := before[space + 1..];
      var dot := AfterLast(full, '.');
      if dot == 0 then none else Build(full[..dot - 1], full[dot..], params, before[..space])
  }

  /** What stands between the parentheses. */
  function ListOf(pretty: string, open: nat): string {
    var close := AfterLast(pretty, ')');
    if close > open + 2 then pretty[open + 1..close - 1] else ""
  }

  function Build(class0: string, name: string, params: string, ret: string): Member {
    Member(Slashed(class0), name, "(" + ParamSigs(params) + ")" + ClassSig(ret))
  }

  method BuildMember(class0: string, name: string, params: string, ret: string) returns (m: Member)
    ensures m == Build(class0, name, params, ret)
  {
    var slashed := ReplaceDots(class0);
    var sig := ParseParams(params);
    var result := ClassNameToSig(ret);
    m := Member(slashed, name, "(" + sig + ")" + result);
  }

  method ParsePrettyMethod(pretty: string) returns (m: Member)
    ensures m == ParseMethod(pretty)
  {
    m := Member("", "", "");
    var open := IndexOf(pretty, '(');
    if open == |pretty| {
      return;
    }
    var before := pretty[..open];
    var space := IndexOf(before, ' ');
    if space == |before| {
      return;
    }
    var full := before[space + 1..];
    var dot := AfterLast(full, '.');
    if dot == 0 {
      return;
    }
    var params := Between(pretty, open);
    m := BuildMember(full[..dot - 1], full[dot..], params, before[..space]);
  }

  method Between(pretty: string, open: nat) returns (params: string)
    ensures params == ListOf(pretty, open)
  {
    var close := AfterLast(pretty, ')');
    params := "";
    if close > 0 && close - 1 > open + 1 {
      params := pretty[open + 1..close - 1];
    }
  }

  /** A method as it is declared. */
  datatype Method = Method(ret: JType, segments: seq<string>, name: string, params: seq<JType>)

  predicate MethodOk(m: Method) {
    && TypeOk(m.ret) && ParamsOk(m.params) && Name(m.name)
    && m.segments != [] && forall i :: 0 <= i < |m.segments| ==> Name(m.segments[i])
  }

  function PrettyMethod(m: Method): string {
    Pretty(m.ret) + " " + Joined(m.segments, ".") + "." + m.name + "(" + PrettyList(m.params) + ")"
  }

  /** Section 4.3.3: the parameters' descriptors in parentheses, then the result's. */
  function MethodDescriptor(m: Method): string {
    "(" + Descriptors(m.params) + ")" + Descriptor(m.ret)
  }

  lemma {:induction false} ListLacks(ts: seq<JType>)
    requires ParamsOk(ts)
    ensures Lacks(PrettyList(ts), ')')
  {
    if ts != [] {
      PrettyText(ts[0]);
      TextLacks(Pretty(ts[0]));
      if |ts| > 1 {
        ListLacks(ts[1..]);
      }
    }
  }

  lemma LacksConcat(a: string, b: string, c: char)
    requires Lacks(a, c) && Lacks(b, c)
    ensures Lacks(a + b, c)
  {
  }

  /** The text cut at its first parenthesis, its first space and the last dot before it. */
  lemma HeadCut(ret: string, cls: string, name: string, tail: string)
    requires Lacks(ret, '(') && Lacks(ret, ' ') && Lacks(cls, '(') && Name(name)
    ensures var head := ret + " " + cls + "." + name; var pretty := head + "(" + tail;
            && IndexOf(pretty, '(') == |head| && pretty[..|head|] == head && IndexOf(head, ' ') == |ret|
            && head[..|ret|] == ret && head[|ret| + 1..] == cls + "." + name
            && AfterLast(cls + "." + name, '.') == |cls| + 1
            && (cls + "." + name)[..|cls|] == cls && (cls + "." + name)[|cls| + 1..] == name
  {
    var full := cls + "." + name;
    var head := ret + " " + cls + "." + name;
    assert head == ret + [' '] + full;
    assert full == cls + ['.'] + name;
    assert head + "(" + tail == head + ['('] + tail;
    LacksConcat(ret, " ", '(');
    LacksConcat(ret + " ", cls, '(');
    LacksConcat(ret + " " + cls, ".", '(');
    LacksConcat(ret + " " + cls + ".", name, '(');
    IndexOfIs(head, '(', tail);
    IndexOfIs(ret, ' ', full);
    AfterLastIs(cls, '.', name);
  }

  /** So the text is taken apart into what it was put together from. */
  lemma PartsBack(ret: string, cls: string, name: string, list: string)
    requires Lacks(ret, '(') && Lacks(ret, ' ') && Lacks(cls, '(') && Name(name) && Lacks(list, ')')
    ensures ParseMethod(ret + " " + cls + "." + name + "(" + list + ")") == Build(cls, name, list, ret)
  {
    var head := ret + " " + cls + "." + name;
    var pretty := head + "(" + list + ")";
    assert pretty == head + "(" + (list + ")");
    HeadCut(ret, cls, name, list + ")");
    ListCut(head, list);
    var before := pretty[..|head|];
    assert before == head && IndexOf(pretty, '(') == |head| < |pretty| && IndexOf(before, ' ') == |ret| < |before|;
    assert before[|ret| + 1..] == cls + "." + name;
  }

  lemma ListCut(head: string, list: string)
    requires Lacks(list, ')')
    ensures ListOf(head + "(" + list + ")", |head|) == list
  {
    var pretty := head + "(" + list + ")";
    assert pretty == (head + "(" + list) + [')'] + "";
    AfterLastIs(head + "(" + list, ')', "");
    assert AfterLast(pretty, ')') == |pretty|;
    assert pretty[|head| + 1..|pretty| - 1] == list;
  }

  /** The parser undoes the printer: names and descriptors of any method with types of any depth. */
  lemma MethodBack(m: Method)
    requires MethodOk(m)
    ensures ParseMethod(PrettyMethod(m)) == Member(Joined(m.segments, "/"), m.name, MethodDescriptor(m))
  {
    PrettyText(m.ret);
    TextLacks(Pretty(m.ret));
    JoinedText(m.segments);
    TextLacks(Joined(m.segments, "."));
    ListLacks(m.params);
    PartsBack(Pretty(m.ret), Joined(m.segments, "."), m.name, PrettyList(m.params));
    TypeBack(m.ret);
    ListBack(m.params);
  }

  /** A text without a parenthesis, without a space before it, or without a dot between, is refused. */
  lemma Refused(pretty: string)
    ensures Lacks(pretty, '(') ==> ParseMethod(pretty) == Member("", "", "")
    ensures Lacks(pretty, ' ') ==>
                ParseMethod(pretty) == Member("", "", "") && ParseField(pretty) == Member("", "?", "?")
    ensures Lacks(pretty, '.') ==>
                ParseMethod(pretty) == Member("", "", "") && ParseField(pretty) == Member("", "?", "?")
  {
  }

  /** parsePrettyField */
  function ParseField(pretty: string): Member {
    var none := Member("", "?", "?");
    var space := IndexOf(pretty, ' ');
    if space == |pretty| then none
    else
      var full := pretty[space + 1..];
      var dot := AfterLast(full, '.');
      if dot == 0 then none else Member(Slashed(full[..dot - 1]), full[dot..], ClassSig(pretty[..space]))
  }

  lemma FieldBack(t: JType, segments: seq<string>, name: string)
    requires TypeOk(t) && Name(name) && segments != [] && forall i :: 0 <= i < |segments| ==> Name(segments[i])
    ensures ParseField(Pretty(t) + " " + Joined(segments, ".") + "." + name)
            == Member(Joined(segments, "/"), name, Descriptor(t))
  {
    PrettyText(t);
    JoinedText(segments);
    FieldCut(Pretty(t), Joined(segments, "."), name);
    TypeBack(t);
  }

  lemma FieldCut(text: string, cls: string, name: string)
    requires TypeText(text) && TypeText(cls) && Name(name)
    ensures ParseField(text + " " + cls + "." + name) == Member(Slashed(cls), name, ClassSig(text))
  {
    TextLacks(text);
    TextLacks(cls);
    HeadCut(text, cls, name, "");
    FieldParts(text + " " + cls + "." + name, text, cls + "." + name, cls, name);
  }

  lemma FieldParts(pretty: string, text: string, full: string, cls: string, name: string)
    requires IndexOf(pretty, ' ') == |text| < |pretty| && pretty[..|text|] == text && pretty[|text| + 1..] == full
    requires AfterLast(full, '.') == |cls| + 1 && full[..|cls|] == cls && full[|cls| + 1..] == name
    ensures ParseField(pretty) == Member(Slashed(cls), name, ClassSig(text))
  {
  }

  // ---- the walk over a descriptor ----

  /** One past the next semicolon, or the end. */
  function PastSemicolon(sig: string, i: nat): (r: nat)
    requires i <= |sig|
    ensures i <= r <= |sig|
    decreases |sig| - i
  {
    if i == |sig| then i else if sig[i] == ';' then i + 1 else PastSemicolon(sig, i + 1)
  }

  function PastBrackets(sig: string, i: nat): (r: nat)
    requires i <= |sig|
    ensures i <= r <= |sig|
    decreases |sig| - i
  {
    if i < |sig| && sig[i] == '[' then PastBrackets(sig, i + 1) else i
  }

  /** Where the walk goes from a parameter: the switch on its first character. */
  function NextParam(sig: string, i: nat): (r: nat)
    requires i < |sig|
    ensures i < r <= |sig|
  {
    if sig[i] == 'L' then PastSemicolon(sig, i)
    else if sig[i] == '[' then
      var j := PastBrackets(sig, i + 1);
      if j == |sig| then j else if sig[j] == 'L' then PastSemicolon(sig, j) else j + 1
    else i + 1
  }

  /** The places at which an argument is taken. */
  function Walk(sig: string, i: nat): seq<nat>
    requires i <= |sig|
    decreases |sig| - i
  {
    if i == |sig| || sig[i] == ')' then [] else [i] + Walk(sig, NextParam(sig, i))
  }

  method SkipClass(sig: string, i: nat) returns (p: nat)
    requires i <= |sig|
    ensures p == PastSemicolon(sig, i)
  {
    p := i;
    while p < |sig| && sig[p] != ';'
      invariant i <= p <= |sig| && PastSemicolon(sig, p) == PastSemicolon(sig, i)
    {
      p := p + 1;
    }
    if p < |sig| {
      p := p + 1;
    }
  }

  /** The switch. */
  method StepArg(sig: string, i: nat) returns (p: nat)
    requires i < |sig|
    ensures p == NextParam(sig, i)
  {
    if sig[i] == 'L' {
      p := SkipClass(sig, i);
    } else if sig[i] == '[' {
      p := i + 1;
      while p < |sig| && sig[p] == '['
        invariant i < p <= |sig| && PastBrackets(sig, p) == PastBrackets(sig, i + 1)
      {
        p := p + 1;
      }
      if p < |sig| && sig[p] == 'L' {
        p := SkipClass(sig, p);
      } else if p < |sig| {
        p := p + 1;
      }
    } else {
      p := i + 1;
    }
  }

  /** The walk as written; `taken` are the places at which an argument was taken. */
  method WalkArgs(sig: string) returns (taken: seq<nat>)
    ensures var paren := IndexOf(sig, '('); taken == if paren == |sig| then [] else Walk(sig, paren + 1)
  {
    taken := [];
    var paren := IndexOf(sig, '(');
    if paren == |sig| {
      return;
    }
    var p := paren + 1;
    while p < |sig| && sig[p] != ')'
      invariant paren < p <= |sig| && taken + Walk(sig, p) == Walk(sig, paren + 1)
    {
      assert taken + ([p] + Walk(sig, NextParam(sig, p))) == (taken + [p]) + Walk(sig, NextParam(sig, p));
      taken := taken + [p];
      p := StepArg(sig, p);
    }
  }

  /** Where each parameter's descriptor begins. */
  function Starts(ts: seq<JType>, i: nat): (r: seq<nat>)
    ensures |r| == |ts|
  {
    if ts == [] then [] else [i] + Starts(ts[1..], i + |Descriptor(ts[0])|)
  }

  lemma {:induction false} SlashText(segments: seq<string>)
    requires segments != [] && forall i :: 0 <= i < |segments| ==> Name(segments[i])
    ensures Lacks(Joined(segments, "/"), ';')
  {
    if |segments| > 1 {
      SlashText(segments[1..]);
    }
  }

  /** A descriptor in a longer text, from place i on. */
  predicate At(sig: string, i: nat, d: string) {
    i + |d| <= |sig| && sig[i..i + |d|] == d
  }

  lemma AtChars(sig: string, i: nat, d: string, k: nat)
    requires At(sig, i, d) && k < |d|
    ensures sig[i + k] == d[k]
  {
    assert sig[i..i + |d|][k] == d[k];
  }

  /** The next semicolon from inside a descriptor that has one only at its end is that one. */
  lemma {:induction false} PassesTo(sig: string, i: nat, d: string, k: nat)
    requires At(sig, i, d + ";") && k <= |d| && Lacks(d, ';')
    ensures PastSemicolon(sig, i + k) == i + |d| + 1
    decreases |d| - k
  {
    AtChars(sig, i, d + ";", k);
    if k < |d| {
      PassesTo(sig, i, d, k + 1);
    }
  }

  /** From an 'L', the walk passes the whole class descriptor. */
  lemma PassesClass(sig: string, i: nat, segments: seq<string>)
    requires ClassOk(segments) && At(sig, i, Descriptor(Object(segments)))
    ensures sig[i] == 'L' && PastSemicolon(sig, i) == i + |Descriptor(Object(segments))|
  {
    SlashText(segments);
    LacksConcat("L", Joined(segments, "/"), ';');
    PassesTo(sig, i, "L" + Joined(segments, "/"), 0);
    AtChars(sig, i, Descriptor(Object(segments)), 0);
  }

  lemma AtSplit(sig: string, i: nat, a: string, b: string)
    requires At(sig, i, a + b)
    ensures At(sig, i, a) && At(sig, i + |a|, b)
  {
    var all := sig[i..i + |a + b|];
    assert sig[i..i + |a|] == all[..|a|] == a;
    assert sig[i + |a|..i + |a| + |b|] == all[|a|..] == b;
  }

  /** From any place inside an array's dimensions, the walk passes the rest of the descriptor. */
  lemma {:induction false} PassesArray(sig: string, i: nat, e: JType)
    requires TypeOk(e) && e != Base(Void) && At(sig, i, Descriptor(e))
    ensures var j := PastBrackets(sig, i);
            j < |sig| && (if sig[j] == 'L' then PastSemicolon(sig, j) else j + 1) == i + |Descriptor(e)|
    decreases e
  {
    AtChars(sig, i, Descriptor(e), 0);
    match e
    case Base(_) =>
    case Object(segments) => PassesClass(sig, i, segments);
    case Array(f) =>
      AtSplit(sig, i, "[", Descriptor(f));
      PassesArray(sig, i + 1, f);
  }

  /** One step of the walk passes exactly one parameter. */
  lemma StepPasses(sig: string, i: nat, t: JType)
    requires TypeOk(t) && t != Base(Void) && At(sig, i, Descriptor(t))
    ensures i < |sig| && sig[i] != ')' && NextParam(sig, i) == i + |Descriptor(t)|
  {
    AtChars(sig, i, Descriptor(t), 0);
    match t
    case Base(_) =>
    case Object(segments) => PassesClass(sig, i, segments);
    case Array(e) =>
      AtSplit(sig, i, "[", Descriptor(e));
      PassesArray(sig, i + 1, e);
  }

  lemma WalkStep(sig: string, i: nat, next: nat)
    requires i < |sig| && sig[i] != ')' && next == NextParam(sig, i)
    ensures next <= |sig| && Walk(sig, i) == [i] + Walk(sig, next)
  {
  }

  /** The walk takes the first parameter of a list and goes on behind it. */
  lemma WalkFirst(sig: string, i: nat, t: JType, rest: seq<JType>)
    requires TypeOk(t) && t != Base(Void) && At(sig, i, Descriptor(t) + Descriptors(rest))
    ensures var next := i + |Descriptor(t)|; At(sig, next, Descriptors(rest)) && Walk(sig, i) == [i] + Walk(sig, next)
  {
    AtSplit(sig, i, Descriptor(t), Descriptors(rest));
    StepPasses(sig, i, t);
    WalkStep(sig, i, i + |Descriptor(t)|);
  }

  lemma StartsMore(ts: seq<JType>, i: nat, next: nat)
    requires ts != [] && next == i + |Descriptor(ts[0])|
    ensures Starts(ts, i) == [i] + Starts(ts[1..], next)
  {
  }

  lemma ParamsRest(ts: seq<JType>)
    requires ParamsOk(ts) && ts != []
    ensures ParamsOk(ts[1..]) && TypeOk(ts[0]) && ts[0] != Base(Void)
    ensures Descriptors(ts) == Descriptor(ts[0]) + Descriptors(ts[1..])
  {
    assert TypeOk(ts[0]);
  }

  lemma {:induction false} WalkList(sig: string, i: nat, ts: seq<JType>)
    requires ParamsOk(ts) && At(sig, i, Descriptors(ts)) && i + |Descriptors(ts)| < |sig|
             && sig[i + |Descriptors(ts)|] == ')'
    ensures Walk(sig, i) == Starts(ts, i)
    decreases |ts|
  {
    if ts != [] {
      ParamsRest(ts);
      var next := i + |Descriptor(ts[0])|;
      WalkFirst(sig, i, ts[0], ts[1..]);
      assert next + |Descriptors(ts[1..])| == i + |Descriptors(ts)|;
      WalkList(sig, next, ts[1..]);
      StartsMore(ts, i, next);
    }
  }

  /** The walk over a method's descriptor takes one argument for each parameter, at the beginning of its descriptor. */
  lemma WalkCounts(m: Method)
    requires MethodOk(m)
    ensures IndexOf(MethodDescriptor(m), '(') == 0
    ensures Walk(MethodDescriptor(m), 1) == Starts(m.params, 1)
    ensures |Walk(MethodDescriptor(m), 1)| == |m.params|
  {
    var sig, ds := MethodDescriptor(m), Descriptors(m.params);
    assert sig[1..1 + |ds|] == ds && sig[1 + |ds|] == ')';
    WalkList(sig, 1, m.params);
  }
}
