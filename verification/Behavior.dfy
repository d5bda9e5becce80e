/** `validators/behavior.py`, `BehaviorValidator.validate` over abstract matchers: what a proven chain rests on. */
module Behavior {
  import opened Text
  import opened Regions
  import opened Inlining
  import opened Heredoc
  import opened Options

  /** One match of a pattern. */
  datatype Hit = Hit(start: nat, token: string)

  /**
   * The patterns, as finders of all their matches from left to right, and the shell parse that says whether a token
   * stands in command position on its line.
   */
  datatype Patterns = Patterns(
    fetch: string -> seq<Hit>,
    sink: string -> seq<Hit>,
    pipeShell: string -> seq<Hit>,
    terminator: string -> seq<Hit>,
    deadGuard: string -> seq<Hit>,
    inCommandPosition: (string, string) -> bool,
    declaresSource: string -> bool,
    inBuildTree: string -> bool,
    sinkDeclared: (string, string) -> bool)

  predicate Ordered(hits: seq<Hit>) { forall i, j :: 0 <= i < j < |hits| ==> hits[i].start < hits[j].start }

  /** Matches come from left to right and lie in the text. */
  ghost predicate FindsInOrder(find: string -> seq<Hit>) {
    forall s :: Ordered(find(s)) && forall h :: h in find(s) ==> h.start <= |s|
  }

  ghost predicate Scanners(ps: Patterns) {
    && FindsInOrder(ps.fetch) && FindsInOrder(ps.sink) && FindsInOrder(ps.pipeShell)
    && FindsInOrder(ps.terminator) && FindsInOrder(ps.deadGuard)
  }

  // ---- Lines and truncation ----

  function LineStart(s: string, i: nat): (a: nat)
    requires i <= |s|
    ensures a <= i
  {
    if i == 0 || s[i - 1] == '\n' then i else LineStart(s, i - 1)
  }

  function LineEnd(s: string, i: nat): (b: nat)
    requires i <= |s|
    ensures i <= b <= |s|
    decreases |s| - i
  {
    if i == |s| || s[i] == '\n' then i else LineEnd(s, i + 1)
  }

  /** The line a position falls on. */
  function LineAt(s: string, i: nat): string
    requires i <= |s|
  {
    s[LineStart(s, i)..LineEnd(s, i)]
  }

  function CutAt(s: string, hits: seq<Hit>): (t: string)
    ensures t <= s
  {
    if hits == [] || hits[0].start > |s| then s else s[..hits[0].start]
  }

  /** A region up to its first terminator, and then up to the first dead guard of what is left. */
  function Live(region: string, ps: Patterns): (t: string)
    ensures t <= region
  {
    var t := CutAt(region, ps.terminator(region));
    CutAt(t, ps.deadGuard(t))
  }

  // ---- The arms ----

  predicate Commands(s: string, h: Hit, ps: Patterns) { h.start <= |s| && ps.inCommandPosition(LineAt(s, h.start), h.token) }

  /** The first match that is a command. */
  function FirstCommand(s: string, hits: seq<Hit>, ps: Patterns): Option<Hit> {
    if hits == [] then None
    else if Commands(s, hits[0], ps) then Some(hits[0])
    else FirstCommand(s, hits[1..], ps)
  }

  datatype Chain = Direct(fetch: Hit) | TwoStep(fetch: Hit, sink: Hit) | Declared(sink: Hit)

  /** A fetch, the first of its line and a command, with a command shell behind a pipe after it. */
  function LineChain(line: string, ps: Patterns): Option<Chain> {
    var fetches := ps.fetch(line);
    if fetches == [] || !ps.inCommandPosition(line, fetches[0].token) then None
    else
      match FirstCommand(line, ps.pipeShell(line), ps)
      case None => None
      case Some(pipe) => if pipe.start > fetches[0].start then Some(Direct(fetches[0])) else None
  }

  function DirectPipeline(lines: seq<string>, ps: Patterns): Option<Chain> {
    if lines == [] then None
    else if LineChain(lines[0], ps).Some? then LineChain(lines[0], ps)
    else DirectPipeline(lines[1..], ps)
  }

  /** What one live region proves, given what the whole text declares. */
  function Proves(region: string, text: string, ps: Patterns): Option<Chain> {
    var fetch, sink := FirstCommand(region, ps.fetch(region), ps), FirstCommand(region, ps.sink(region), ps);
    if forall c :: c in region ==> IsSpace(c) then None
    else if DirectPipeline(Split(region, '\n'), ps).Some? then DirectPipeline(Split(region, '\n'), ps)
    else if fetch.Some? && sink.Some? && sink.value.start > fetch.value.start then Some(TwoStep(fetch.value, sink.value))
    else if ps.declaresSource(text) && sink.Some? && ps.inBuildTree(region) && ps.sinkDeclared(sink.value.token, text) then
      Some(Declared(sink.value))
    else None
  }

  /** The first region that proves something. */
  function Verdict(regions: seq<(string, string)>, text: string, ps: Patterns): Option<(string, Chain)> {
    if regions == [] then None
    else
      match Proves(Live(regions[0].1, ps), text, ps)
      case Some(chain) => Some((regions[0].0, chain))
      case None => Verdict(regions[1..], text, ps)
  }

  // ---- What the arms mean ----

  lemma {:induction false} FirstCommandIs(s: string, hits: seq<Hit>, ps: Patterns)
    requires Ordered(hits)
    ensures FirstCommand(s, hits, ps).None? <==> forall h :: h in hits ==> !Commands(s, h, ps)
    ensures FirstCommand(s, hits, ps).Some? ==>
      var f := FirstCommand(s, hits, ps).value;
      f in hits && Commands(s, f, ps) && forall h :: h in hits && Commands(s, h, ps) ==> f.start <= h.start
  {
    if hits != [] {
      var rest := hits[1..];
      FirstCommandIs(s, rest, ps);
      assert forall h :: h in hits <==> h == hits[0] || h in rest;
      forall h | h in rest ensures hits[0].start < h.start {
        var i :| 0 <= i < |rest| && rest[i] == h;
        assert hits[i + 1] == h;
      }
    }
  }

  predicate BeforeSinks(region: string, f: Hit, ps: Patterns) {
    forall s :: s in ps.sink(region) && Commands(region, s, ps) ==> f.start < s.start
  }

  /**
   * The two-step test looks at first matches only, and so holds exactly when some fetch command lies before every sink
   * command and there is a sink command at all: a sink before the fetch hides a later one.
   */
  lemma TwoStepIff(region: string, ps: Patterns)
    requires Scanners(ps)
    ensures
      var fetch, sink := FirstCommand(region, ps.fetch(region), ps), FirstCommand(region, ps.sink(region), ps);
      (fetch.Some? && sink.Some? && sink.value.start > fetch.value.start) <==>
        && (exists s :: s in ps.sink(region) && Commands(region, s, ps))
        && (exists f :: f in ps.fetch(region) && Commands(region, f, ps) && BeforeSinks(region, f, ps))
  {
    FirstCommandIs(region, ps.fetch(region), ps);
    FirstCommandIs(region, ps.sink(region), ps);
    var fetch, sink := FirstCommand(region, ps.fetch(region), ps), FirstCommand(region, ps.sink(region), ps);
    if f :| f in ps.fetch(region) && Commands(region, f, ps) && BeforeSinks(region, f, ps) {
      assert fetch.value.start <= f.start;
    }
  }

  /** Patterns that find `eval`, `curl` and `eval` as the three lines of a text, and nothing in any other. */
  function ThreeCommands(region: string): Patterns {
    Patterns(s => if s == region then [Hit(7, "curl")] else [],
             s => if s == region then [Hit(0, "eval"), Hit(14, "eval")] else [],
             s => [], s => [], s => [], (line, token) => true, s => false, s => false, (token, s) => false)
  }

  lemma {:induction false} NoPipeNoChain(lines: seq<string>, region: string)
    ensures DirectPipeline(lines, ThreeCommands(region)).None?
  {
    if lines != [] { NoPipeNoChain(lines[1..], region); }
  }

  /**
   * An `eval` before the fetch and one after it, as in "eval a\ncurl b\neval c": the fetch and the later sink are both
   * commands, and no chain is found.
   */
  lemma EarlierSinkHidesChain(region: string)
    requires |region| == 20
    ensures
      var ps := ThreeCommands(region);
      && Scanners(ps) && Hit(7, "curl") in ps.fetch(region) && Hit(14, "eval") in ps.sink(region)
      && Commands(region, Hit(7, "curl"), ps) && Commands(region, Hit(14, "eval"), ps)
      && Proves(region, region, ps).None?
  {
    ThreeCommandsScan(region);
    FirstSinkIsFirst(region);
    NoPipeNoChain(Split(region, '\n'), region);
  }

  lemma ThreeCommandsScan(region: string)
    requires |region| == 20
    ensures Scanners(ThreeCommands(region))
  {
    var ps := ThreeCommands(region);
    assert FindsInOrder(ps.fetch) by {
      forall s ensures Ordered(ps.fetch(s)) && forall h :: h in ps.fetch(s) ==> h.start <= |s| {
        assert s != region ==> ps.fetch(s) == [];
      }
    }
    assert FindsInOrder(ps.sink) by {
      forall s ensures Ordered(ps.sink(s)) && forall h :: h in ps.sink(s) ==> h.start <= |s| {
        assert s != region ==> ps.sink(s) == [];
      }
    }
  }

  lemma FirstSinkIsFirst(region: string)
    requires |region| == 20
    ensures
      var ps := ThreeCommands(region);
      && ps.fetch(region) == [Hit(7, "curl")] && ps.sink(region) == [Hit(0, "eval"), Hit(14, "eval")]
      && FirstCommand(region, ps.fetch(region), ps) == Some(Hit(7, "curl"))
      && FirstCommand(region, ps.sink(region), ps) == Some(Hit(0, "eval"))
  {
  }

  /** The verdict is the first region that proves something, and there is none exactly when no region does. */
  lemma {:induction false} VerdictIs(regions: seq<(string, string)>, text: string, ps: Patterns)
    ensures Verdict(regions, text, ps).None? <==>
      forall i :: 0 <= i < |regions| ==> Proves(Live(regions[i].1, ps), text, ps).None?
    ensures Verdict(regions, text, ps).Some? ==>
      var (context, chain) := Verdict(regions, text, ps).value;
      exists i :: 0 <= i < |regions| && ProvesFirst(regions, i, context, chain, text, ps)
  {
    if regions != [] {
      var rest := regions[1..];
      VerdictIs(rest, text, ps);
      if Proves(Live(regions[0].1, ps), text, ps).Some? {
        assert ProvesFirst(regions, 0, regions[0].0, Proves(Live(regions[0].1, ps), text, ps).value, text, ps);
      } else {
        assert forall i :: 0 < i < |regions| ==> regions[i] == rest[i - 1];
        if Verdict(rest, text, ps).Some? {
          var (context, chain) := Verdict(rest, text, ps).value;
          var i :| 0 <= i < |rest| && ProvesFirst(rest, i, context, chain, text, ps);
          assert ProvesFirst(regions, i + 1, context, chain, text, ps);
        }
      }
    }
  }

  /** Region `i` proves the chain, and no region before it proves any. */
  predicate ProvesFirst(regions: seq<(string, string)>, i: nat, context: string, chain: Chain, text: string, ps: Patterns)
    requires i < |regions|
  {
    && regions[i].0 == context && Proves(Live(regions[i].1, ps), text, ps) == Some(chain)
    && forall j :: 0 <= j < i ==> Proves(Live(regions[j].1, ps), text, ps).None?
  }

  /** What is left of a region reached from an entry point is still made only of text reachable from it. */
  lemma LiveIsReached(region: string, bodies: Table, entry: string, ps: Patterns)
    requires ReachedFrom(region, bodies, entry)
    ensures ReachedFrom(Live(region, ps), bodies, entry)
  {
    var t :| From(t, bodies, entry) && region == Erase(t, bodies);
    var n := |Live(region, ps)|;
    var front := t[..n];
    assert From(front, bodies, entry);
    assert Live(region, ps) == region[..n];
    assert Erase(front, bodies) == region[..n];
  }

  // ---- The loops ----

  method FirstCommandMatch(s: string, hits: seq<Hit>, ps: Patterns) returns (r: Option<Hit>)
    ensures r == FirstCommand(s, hits, ps)
  {
    var k := 0;
    assert hits[0..] == hits;
    while k < |hits|
      invariant 0 <= k <= |hits| && FirstCommand(s, hits, ps) == FirstCommand(s, hits[k..], ps)
    {
      assert hits[k..][0] == hits[k] && hits[k..][1..] == hits[k + 1..];
      if Commands(s, hits[k], ps) { return Some(hits[k]); }
      k := k + 1;
    }
    r := None;
  }

  method FindDirect(region: string, ps: Patterns) returns (r: Option<Chain>)
    ensures r == DirectPipeline(Split(region, '\n'), ps)
  {
    var lines := Split(region, '\n');
    var k := 0;
    assert lines[0..] == lines;
    while k < |lines|
      invariant 0 <= k <= |lines| && DirectPipeline(lines, ps) == DirectPipeline(lines[k..], ps)
    {
      assert lines[k..][0] == lines[k] && lines[k..][1..] == lines[k + 1..];
      var line := lines[k];
      k := k + 1;
      var fetches := ps.fetch(line);
      if fetches == [] || !ps.inCommandPosition(line, fetches[0].token) { continue; }
      var pipe := FirstCommandMatch(line, ps.pipeShell(line), ps);
      if pipe.Some? && pipe.value.start > fetches[0].start { return Some(Direct(fetches[0])); }
    }
    r := None;
  }

  /** The loop over the regions. */
  method ValidateRegions(regions: seq<(string, string)>, text: string, ps: Patterns) returns (r: Option<(string, Chain)>)
    ensures r == Verdict(regions, text, ps)
  {
    var declared := ps.declaresSource(text);
    var k := 0;
    assert regions[0..] == regions;
    while k < |regions|
      invariant 0 <= k <= |regions| && Verdict(regions, text, ps) == Verdict(regions[k..], text, ps)
    {
      assert regions[k..][0] == regions[k] && regions[k..][1..] == regions[k + 1..];
      var context, region := regions[k].0, Live(regions[k].1, ps);
      k := k + 1;
      if forall c :: c in region ==> IsSpace(c) { continue; }
      var direct := FindDirect(region, ps);
      if direct.Some? { return Some((context, direct.value)); }
      var fetch := FirstCommandMatch(region, ps.fetch(region), ps);
      var sink := FirstCommandMatch(region, ps.sink(region), ps);
      if fetch.Some? && sink.Some? && sink.value.start > fetch.value.start {
        return Some((context, TwoStep(fetch.value, sink.value)));
      }
      if declared && sink.Some? && ps.inBuildTree(region) && ps.sinkDeclared(sink.value.token, text) {
        return Some((context, Declared(sink.value)));
      }
    }
    r := None;
  }

  /** The live text of some region that names `context` and proves `chain`. */
  ghost predicate Evidence(live: string, context: string, chain: Chain, text: string, found: seq<Found>, ps: Patterns) {
    && Proves(live, text, ps) == Some(chain)
    && if context == "top-level" then
         exists top :: live <= top && Blanked(top, text, Spans(text, found))
       else context in ENTRY_POINTS && ReachedFrom(live, Bodies(text, found), context)
  }

  /** The regions of a text: every entry point it defines, inlined, and the top level. */
  ghost predicate RegionsOf(regions: seq<(string, string)>, text: string, found: seq<Found>, order: seq<string>) {
    var entries := EntriesIn(order);
    && |regions| == |entries| + 1 && (forall n :: n in order ==> IsName(n))
    && (forall i :: 0 <= i < |entries| ==>
          && regions[i].0 == entries[i]
          && regions[i].1 == Erase(Inline(entries[i], Bodies(text, found), order, {}, 0), Bodies(text, found)))
    && regions[|entries|].0 == "top-level" && Blanked(regions[|entries|].1, text, Spans(text, found))
  }

  /** Each region is reached from the entry point it is named after, or is the top level. */
  ghost predicate RegionReached(region: (string, string), text: string, found: seq<Found>) {
    || (region.0 == "top-level" && Blanked(region.1, text, Spans(text, found)))
    || (region.0 in ENTRY_POINTS && ReachedFrom(region.1, Bodies(text, found), region.0))
  }

  method FindRegions(text: string, found: seq<Found>, order: seq<string>) returns (regions: seq<(string, string)>)
    requires Scanned(text, found) && forall n :: n in order <==> n in Bodies(text, found)
    ensures RegionsOf(regions, text, found, order)
    ensures forall i :: 0 <= i < |regions| ==> RegionReached(regions[i], text, found)
  {
    regions := ReachableRegions(text, found, order);
    EntriesAreEntries(order);
    forall i | 0 <= i < |regions| ensures RegionReached(regions[i], text, found) {
      if i < |EntriesIn(order)| {
        assert regions[i].0 == EntriesIn(order)[i];
      }
    }
  }

  /**
   * `validate`: a chain is only ever proven by text that runs. Either its context is an entry point and the whole text
   * that proves it comes from bodies of functions reachable from there, cut at the first terminator and dead guard, or it
   * is the top level with every function span blanked. `found` is what the function-header pattern finds in the text
   * without comments and heredocs.
   */
  method Validate(newText: string, scan: string -> seq<Found>, order: string -> seq<string>, ps: Patterns)
    returns (text: string, ghost regions: seq<(string, string)>, r: Option<(string, Chain)>)
    requires forall t :: Scanned(t, scan(t)) && forall n :: n in order(t) <==> n in Bodies(t, scan(t))
    ensures text == Join(WithoutHeredocs(WithoutComments(Split(newText, '\n')), Delimiters), '\n')
    ensures RegionsOf(regions, text, scan(text), order(text)) && r == Verdict(regions, text, ps)
    ensures r.Some? ==> exists live :: Evidence(live, r.value.0, r.value.1, text, scan(text), ps)
  {
    var code := StripComments(Split(newText, '\n'));
    var kept := StripHeredocBodies(code);
    text := Join(kept, '\n');
    var found := scan(text);
    var all := FindRegions(text, found, order(text));
    regions := all;
    r := ValidateRegions(all, text, ps);
    if r.Some? { VerdictHasEvidence(regions, text, found, order(text), ps); }
  }

  lemma VerdictHasEvidence(regions: seq<(string, string)>, text: string, found: seq<Found>, order: seq<string>, ps: Patterns)
    requires Verdict(regions, text, ps).Some? && forall i :: 0 <= i < |regions| ==> RegionReached(regions[i], text, found)
    ensures
      var (context, chain) := Verdict(regions, text, ps).value;
      exists live :: Evidence(live, context, chain, text, found, ps)
  {
    VerdictIs(regions, text, ps);
    var (context, chain) := Verdict(regions, text, ps).value;
    var i :| 0 <= i < |regions| && ProvesFirst(regions, i, context, chain, text, ps);
    var live := Live(regions[i].1, ps);
    EntriesAreEntries(order);
    if context != "top-level" {
      LiveIsReached(regions[i].1, Bodies(text, found), context, ps);
    }
    assert Evidence(live, context, chain, text, found, ps);
  }

  lemma {:induction false} EntriesAreEntries(order: seq<string>)
    ensures forall i :: 0 <= i < |EntriesIn(order)| ==> EntriesIn(order)[i] in ENTRY_POINTS
    ensures "top-level" !in ENTRY_POINTS
  {
    if order != [] {
      EntriesAreEntries(order[..|order| - 1]);
    } else {
      assert |"top-level"| == 9;
    }
  }
}
