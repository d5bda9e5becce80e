/** `validators/behavior.py`: which text a recipe runs, and from which entry point. */
module Regions {
  import opened Options

  const MAX_INLINE_DEPTH := 8

  const ENTRY_POINTS := {"prepare", "build", "check", "package", "pkgver"}

  predicate IsWord(c: char) {
    'a' <= c <= 'z' || 'A' <= c <= 'Z' || '0' <= c <= '9' || c == '_'
  }

  predicate IsName(s: string) { s != "" && forall i :: 0 <= i < |s| ==> IsWord(s[i]) }

  // ---- Brace matching ----

  /** The brace-depth loop from position `i`: where the depth first comes back to zero. */
  function Close(text: string, i: nat, depth: int): Option<nat>
    decreases |text| - i
  {
    if i >= |text| then None
    else if text[i] == '{' then Close(text, i + 1, depth + 1)
    else if text[i] == '}' then
      if depth - 1 == 0 then Some(i) else Close(text, i + 1, depth - 1)
    else Close(text, i + 1, depth)
  }

  /** Opening minus closing braces in `text[a..b]`. */
  ghost function Depth(text: string, a: nat, b: nat): int
    requires a <= b <= |text|
  {
    if a == b then 0
    else Depth(text, a, b - 1) + (if text[b - 1] == '{' then 1 else if text[b - 1] == '}' then -1 else 0)
  }

  /** `k` is the brace that closes the one at `start`: the first place the depth is back to zero. */
  ghost predicate Closes(text: string, start: nat, k: nat) {
    start < k < |text| && text[k] == '}' && Depth(text, start, k + 1) == 0 &&
    forall j :: start < j <= k ==> Depth(text, start, j) > 0
  }

  lemma {:induction false} CloseFrom(text: string, start: nat, i: nat, depth: int)
    requires start < i <= |text| && text[start] == '{' && depth == Depth(text, start, i)
    requires forall j :: start < j <= i ==> Depth(text, start, j) > 0
    ensures
      match Close(text, i, depth)
      case Some(k) => i <= k && Closes(text, start, k)
      case None => forall j :: start < j <= |text| ==> Depth(text, start, j) > 0
    decreases |text| - i
  {
    if i < |text| {
      var next := Depth(text, start, i + 1);
      if next > 0 { CloseFrom(text, start, i + 1, next); }
    }
  }

  /** The loop finds the closing brace when there is one, and nothing when the text ends first. */
  lemma CloseIsTheMatch(text: string, start: nat)
    requires start < |text| && text[start] == '{'
    ensures
      match Close(text, start, 0)
      case Some(k) => Closes(text, start, k)
      case None => !exists k :: Closes(text, start, k)
  {
    assert Depth(text, start, start + 1) == Depth(text, start, start) + 1 == 1;
    CloseFrom(text, start, start + 1, 1);
    if Close(text, start, 0).None? {
      forall k | start < k < |text| ensures !Closes(text, start, k) {
        assert Depth(text, start, k + 1) > 0;
      }
    }
  }

  // ---- Function spans and the top-level region ----

  /** One match of the function-header scanner: where it starts, where its `{` is, and the name it captured. */
  datatype Found = Found(start: nat, brace: nat, name: string)

  /** A function's extent: header start, opening brace, closing brace. */
  datatype Span = Span(start: nat, brace: nat, close: nat)

  /** What `finditer` with the header pattern yields: matches in order, each ending at a `{` and capturing a name. */
  ghost predicate Scanned(text: string, found: seq<Found>) {
    && (forall f :: f in found ==> f.start <= f.brace < |text| && text[f.brace] == '{' && IsName(f.name))
    && forall i, j :: 0 <= i < j < |found| ==> found[i].brace < found[j].start
  }

  /** The span recorded under each name: a later definition replaces an earlier one. */
  function Spans(text: string, found: seq<Found>): map<string, Span> {
    if found == [] then map[]
    else
      var f := found[|found| - 1];
      var earlier := Spans(text, found[..|found| - 1]);
      match Close(text, f.brace, 0)
      case None => earlier
      case Some(k) => earlier[f.name := Span(f.start, f.brace, k)]
  }

  predicate InSpan(s: Span, i: int) { s.start <= i <= s.close }

  /** `found[j]` closes, and no later match of the same name does: the definition that is kept. */
  ghost predicate LastDefinition(text: string, found: seq<Found>, j: int) {
    && 0 <= j < |found| && Close(text, found[j].brace, 0).Some?
    && forall k :: j < k < |found| && found[k].name == found[j].name ==> Close(text, found[k].brace, 0).None?
  }

  function SpanOf(text: string, f: Found): Span
    requires Close(text, f.brace, 0).Some?
  {
    Span(f.start, f.brace, Close(text, f.brace, 0).value)
  }

  lemma {:induction false} SpansAreLastDefinitions(text: string, found: seq<Found>, name: string)
    ensures name in Spans(text, found) ==>
      exists j :: LastDefinition(text, found, j) && found[j].name == name && Spans(text, found)[name] == SpanOf(text, found[j])
    ensures name !in Spans(text, found) ==>
      forall j :: 0 <= j < |found| && found[j].name == name ==> Close(text, found[j].brace, 0).None?
  {
    if found != [] {
      var n := |found| - 1;
      SpansAreLastDefinitions(text, found[..n], name);
      if name in Spans(text, found) {
        if found[n].name == name && Close(text, found[n].brace, 0).Some? {
          assert LastDefinition(text, found, n);
        } else {
          var j :| LastDefinition(text, found[..n], j) && found[j].name == name &&
                   Spans(text, found[..n])[name] == SpanOf(text, found[j]);
          assert LastDefinition(text, found, j);
        }
      }
    }
  }

  // ---- Spans nest ----

  lemma {:induction false} DepthSplits(text: string, a: nat, b: nat, c: nat)
    requires a <= b <= c <= |text|
    ensures Depth(text, a, c) == Depth(text, a, b) + Depth(text, b, c)
    decreases c - b
  {
    if b < c { DepthSplits(text, a, b, c - 1); }
  }

  /** A brace opened inside a pair of matching ones is closed inside it. */
  lemma PairsNest(text: string, a: nat, aClose: nat, b: nat, bClose: nat)
    requires Closes(text, a, aClose) && Closes(text, b, bClose) && a < b <= aClose
    ensures bClose < aClose
  {
    DepthSplits(text, a, b, aClose + 1);
    assert Depth(text, b, aClose + 1) < 0;
  }

  /** No match holds a closing brace: the pattern knows white space, a word, parentheses and the `{` it ends at. */
  ghost predicate OpenHeaders(text: string, found: seq<Found>) {
    forall j, i :: 0 <= j < |found| && found[j].start <= i < found[j].brace && i < |text| ==> text[i] != '}'
  }

  /** `inner` lies between the braces of `outer`. */
  predicate Within(inner: Span, outer: Span) { outer.brace < inner.start && inner.close < outer.close }

  /** A position inside one function's braces and inside the span of another: one of the two lies within the other. */
  lemma SpansNest(text: string, found: seq<Found>, f: nat, g: nat, x: int)
    requires Scanned(text, found) && OpenHeaders(text, found) && f < |found| && g < |found| && f != g
    requires Close(text, found[f].brace, 0).Some? && Close(text, found[g].brace, 0).Some?
    requires InSpan(SpanOf(text, found[f]), x)
    requires found[g].brace < x < SpanOf(text, found[g]).close
    ensures Within(SpanOf(text, found[f]), SpanOf(text, found[g])) || Within(SpanOf(text, found[g]), SpanOf(text, found[f]))
  {
    assert found[f] in found && found[g] in found;
    CloseIsTheMatch(text, found[f].brace);
    CloseIsTheMatch(text, found[g].brace);
    var a, b := SpanOf(text, found[f]), SpanOf(text, found[g]);
    if f < g {
      PairsNest(text, a.brace, a.close, b.brace, b.close);
    } else {
      assert text[b.close] == '}';
      PairsNest(text, b.brace, b.close, a.brace, a.close);
    }
  }

  /** `text` with the characters of every span blanked. */
  ghost predicate Blanked(top: string, text: string, spans: map<string, Span>) {
    && |top| == |text|
    && forall i :: 0 <= i < |text| ==>
         top[i] == if exists n :: n in spans && InSpan(spans[n], i) then ' ' else text[i]
  }

  /** `top_chars`: overwrite the text in place, one span after the other. */
  method BlankSpans(text: string, spans: map<string, Span>) returns (top: string)
    requires forall n :: n in spans ==> spans[n].start <= spans[n].close < |text|
    ensures Blanked(top, text, spans)
  {
    var chars := new char[|text|](i requires 0 <= i < |text| => text[i]);
    var left := spans.Keys;
    while left != {}
      invariant left <= spans.Keys
      invariant forall i :: 0 <= i < |text| ==>
        chars[i] == if exists n :: n in spans && n !in left && InSpan(spans[n], i) then ' ' else text[i]
      decreases |left|
    {
      var name :| name in left;
      ghost var before := chars[..];
      for i := spans[name].start to spans[name].close + 1
        invariant forall j :: 0 <= j < |text| ==>
          chars[j] == if spans[name].start <= j < i then ' ' else before[j]
      {
        chars[i] := ' ';
      }
      left := left - {name};
    }
    top := chars[..];
  }

  ghost predicate CoveredBy(text: string, found: seq<Found>, i: int, j: int) {
    0 <= j < |found| && Close(text, found[j].brace, 0).Some? && InSpan(SpanOf(text, found[j]), i)
  }

  /** With each name defined once, the top-level region blanks exactly the matched function spans. */
  lemma TopLevelBlanksEveryFunction(text: string, found: seq<Found>, top: string, i: int)
    requires Blanked(top, text, Spans(text, found)) && 0 <= i < |text|
    requires forall j, k :: 0 <= j < k < |found| ==> found[j].name != found[k].name
    ensures top[i] == if exists j :: CoveredBy(text, found, i, j) then ' ' else text[i]
  {
    var spans := Spans(text, found);
    if j :| CoveredBy(text, found, i, j) {
      SpansAreLastDefinitions(text, found, found[j].name);
      assert InSpan(spans[found[j].name], i);
    }
    if n :| n in spans && InSpan(spans[n], i) {
      SpansAreLastDefinitions(text, found, n);
      var j :| LastDefinition(text, found, j) && found[j].name == n && spans[n] == SpanOf(text, found[j]);
      assert CoveredBy(text, found, i, j);
    }
  }

  /** Whatever the names, exactly the last definition of each is blanked: an earlier body stays as top-level text. */
  lemma TopLevelBlanksLastDefinitions(text: string, found: seq<Found>, top: string, i: int)
    requires Blanked(top, text, Spans(text, found)) && 0 <= i < |text|
    ensures top[i] ==
      if exists j :: LastDefinition(text, found, j) && InSpan(SpanOf(text, found[j]), i) then ' ' else text[i]
  {
    var spans := Spans(text, found);
    if j :| LastDefinition(text, found, j) && InSpan(SpanOf(text, found[j]), i) {
      var n := found[j].name;
      SpansAreLastDefinitions(text, found, n);
      var k :| LastDefinition(text, found, k) && found[k].name == n && spans[n] == SpanOf(text, found[k]);
      assert k == j;
      assert InSpan(spans[n], i);
    }
    if n :| n in spans && InSpan(spans[n], i) {
      SpansAreLastDefinitions(text, found, n);
    }
  }

  /** Every character of every matched function that closes is blank. */
  ghost predicate AllBlank(top: string, text: string, found: seq<Found>) {
    forall i, j :: 0 <= i < |top| && CoveredBy(text, found, i, j) ==> top[i] == ' '
  }

  ghost predicate InLastDefinition(text: string, found: seq<Found>, i: int) {
    exists k :: LastDefinition(text, found, k) && InSpan(SpanOf(text, found[k]), i)
  }

  /** What a superseded definition shows - its characters that are not spaces - lies inside the last one of some name. */
  ghost predicate SupersededHidden(text: string, found: seq<Found>) {
    forall i, j :: 0 <= i < |text| && CoveredBy(text, found, i, j) && !LastDefinition(text, found, j) && text[i] != ' ' ==>
      InLastDefinition(text, found, i)
  }

  /** The top level blanks every matched function exactly when no superseded definition shows anything outside last ones. */
  lemma AllBlankIff(text: string, found: seq<Found>, top: string)
    requires Blanked(top, text, Spans(text, found))
    ensures AllBlank(top, text, found) <==> SupersededHidden(text, found)
  {
    forall i | 0 <= i < |text| ensures top[i] == if InLastDefinition(text, found, i) then ' ' else text[i] {
      TopLevelBlanksLastDefinitions(text, found, top, i);
    }
    if SupersededHidden(text, found) {
      forall i, j | 0 <= i < |top| && CoveredBy(text, found, i, j) ensures top[i] == ' ' {
        if LastDefinition(text, found, j) { assert InLastDefinition(text, found, i); }
      }
    }
  }

  /** A text where one name is defined twice: the first body is inside a matched span and still top-level text. */
  lemma RedefinedBodyStays()
    ensures
      var text, found := "f(){a}\nf(){}", [Found(0, 3, "f"), Found(7, 10, "f")];
      && Scanned(text, found) && CoveredBy(text, found, 4, 0)
      && forall top :: Blanked(top, text, Spans(text, found)) ==> top[4] == 'a'
  {
    var text, found := "f(){a}\nf(){}", [Found(0, 3, "f"), Found(7, 10, "f")];
    assert |text| == 12;
    assert Close(text, 3, 0) == Close(text, 4, 1) == Close(text, 5, 1) == Some(5);
    assert Close(text, 10, 0) == Close(text, 11, 1) == Some(11);
    assert found[..1][..0] == [] && Spans(text, found[..1][..0]) == map[];
    assert Spans(text, found[..1]) == map["f" := Span(0, 3, 5)];
    assert Spans(text, found) == map["f" := Span(7, 10, 11)];
  }

  /** The depth loop over one function's text. */
  method FindClose(text: string, start: nat) returns (close: Option<nat>)
    requires start < |text| && text[start] == '{'
    ensures close == Close(text, start, 0)
    ensures close.Some? ==> start < close.value < |text|
  {
    CloseIsTheMatch(text, start);
    var depth, index := 0, start;
    while index < |text|
      invariant start <= index <= |text| && Close(text, index, depth) == Close(text, start, 0)
    {
      if text[index] == '{' {
        depth := depth + 1;
      } else if text[index] == '}' {
        depth := depth - 1;
        if depth == 0 {
          return Some(index);
        }
      }
      index := index + 1;
    }
    return None;
  }

  /** The body recorded under each name: the text between the braces of its last definition. */
  function Bodies(text: string, found: seq<Found>): map<string, string> {
    if found == [] then map[]
    else
      var f := found[|found| - 1];
      var earlier := Bodies(text, found[..|found| - 1]);
      match Close(text, f.brace, 0)
      case None => earlier
      case Some(k) => if f.brace < k <= |text| then earlier[f.name := text[f.brace + 1..k]] else earlier
  }

  /** One definition recorded, or skipped because it never closes. */
  lemma TableStep(text: string, found: seq<Found>, m: nat)
    requires m < |found|
    ensures
      var f, k := found[m], Close(text, found[m].brace, 0);
      && (k.None? ==> Spans(text, found[..m + 1]) == Spans(text, found[..m]))
      && (k.None? ==> Bodies(text, found[..m + 1]) == Bodies(text, found[..m]))
      && (k.Some? ==> Spans(text, found[..m + 1]) == Spans(text, found[..m])[f.name := Span(f.start, f.brace, k.value)])
      && (k.Some? && f.brace < k.value <= |text| ==>
            Bodies(text, found[..m + 1]) == Bodies(text, found[..m])[f.name := text[f.brace + 1..k.value]])
  {
    assert found[..m + 1][..m] == found[..m];
  }

  /** The function table of a text: what `_reachable_regions` keeps of each match. */
  method FunctionTable(text: string, found: seq<Found>) returns (bodies: map<string, string>, spans: map<string, Span>)
    requires Scanned(text, found)
    ensures spans == Spans(text, found) && bodies == Bodies(text, found)
  {
    bodies, spans := map[], map[];
    for m := 0 to |found|
      invariant spans == Spans(text, found[..m])
      invariant bodies == Bodies(text, found[..m])
    {
      TableStep(text, found, m);
      var f := found[m];
      assert f in found;
      var close := FindClose(text, f.brace);
      if close.Some? {
        bodies := bodies[f.name := text[f.brace + 1..close.value]];
        spans := spans[f.name := Span(f.start, f.brace, close.value)];
      }
    }
    assert found[..|found|] == found;
  }

  /** Every recorded body is the text inside its span, every name is a name, and every span lies in the text. */
  lemma {:induction false} TableFacts(text: string, found: seq<Found>, name: string)
    requires Scanned(text, found) && name in Spans(text, found)
    ensures IsName(name) && name in Bodies(text, found)
    ensures
      var s := Spans(text, found)[name];
      s.start <= s.brace < s.close < |text| && Bodies(text, found)[name] == text[s.brace + 1..s.close]
  {
    var n := |found| - 1;
    assert found[n] in found;
    CloseBounds(text, found[n].brace);
    forall f | f in found[..n] ensures f in found { }
    if name in Spans(text, found[..n]) { TableFacts(text, found[..n], name); }
  }

  lemma CloseBounds(text: string, start: nat)
    requires start < |text| && text[start] == '{'
    ensures Close(text, start, 0).Some? ==> start < Close(text, start, 0).value < |text|
  {
    CloseIsTheMatch(text, start);
  }

  lemma {:induction false} TableKeys(text: string, found: seq<Found>)
    requires Scanned(text, found)
    ensures Bodies(text, found).Keys == Spans(text, found).Keys
  {
    if found != [] {
      var n := |found| - 1;
      assert found[n] in found;
      CloseBounds(text, found[n].brace);
      forall f | f in found[..n] ensures f in found { }
      TableKeys(text, found[..n]);
    }
  }
}
