/** `validators/behavior.py`: what the arms of the validator ask of a region, in terms of the matches in it. */
module ChainMeaning {
  import opened Text
  import opened Regions
  import opened Inlining
  import opened Behavior
  import opened Options

  // ---- Lines ----

  /** `s[a..b]` is a whole line. */
  predicate WholeLine(s: string, a: int, b: int) {
    0 <= a <= b <= |s| && (a == 0 || s[a - 1] == '\n') && (b == |s| || s[b] == '\n') && '\n' !in s[a..b]
  }

  lemma {:induction false} StartsLine(s: string, i: nat)
    requires i <= |s|
    ensures
      var a := LineStart(s, i);
      (a == 0 || s[a - 1] == '\n') && '\n' !in s[a..i]
  {
    if !(i == 0 || s[i - 1] == '\n') {
      StartsLine(s, i - 1);
      var a := LineStart(s, i);
      assert s[a..i] == s[a..i - 1] + [s[i - 1]];
    }
  }

  lemma {:induction false} EndsLine(s: string, i: nat)
    requires i <= |s|
    ensures
      var b := LineEnd(s, i);
      (b == |s| || s[b] == '\n') && '\n' !in s[i..b]
    decreases |s| - i
  {
    if !(i == |s| || s[i] == '\n') {
      EndsLine(s, i + 1);
      var b := LineEnd(s, i);
      assert s[i..b] == [s[i]] + s[i + 1..b];
    }
  }

  /** The line of a position is the whole line it stands on, the break that ends it included. */
  lemma LineAtIs(s: string, i: nat)
    requires i <= |s|
    ensures
      var (a, b) := (LineStart(s, i), LineEnd(s, i));
      a <= i <= b && WholeLine(s, a, b) && LineAt(s, i) == s[a..b]
  {
    StartsLine(s, i);
    EndsLine(s, i);
    var a, b := LineStart(s, i), LineEnd(s, i);
    assert s[a..b] == s[a..i] + s[i..b];
  }

  // ---- What is live ----

  /** Where a text is cut: at its first match, and not at all when there is none. */
  predicate CutBy(s: string, hits: seq<Hit>, t: string) {
    if hits == [] then t == s else hits[0].start <= |s| && t == s[..hits[0].start]
  }

  /** The live part: cut at the first terminator, and what is left of it at the first dead guard. */
  lemma LiveIs(region: string, ps: Patterns)
    requires Scanners(ps)
    ensures exists t :: CutBy(region, ps.terminator(region), t) && CutBy(t, ps.deadGuard(t), Live(region, ps))
    ensures forall h :: h in ps.terminator(region) ==> |Live(region, ps)| <= h.start
    ensures ps.terminator(region) == [] && ps.deadGuard(region) == [] ==> Live(region, ps) == region
  {
    var t := CutAt(region, ps.terminator(region));
    Cuts(region, ps.terminator);
    Cuts(t, ps.deadGuard);
    assert CutBy(region, ps.terminator(region), t) && CutBy(t, ps.deadGuard(t), Live(region, ps));
    var hits := ps.terminator(region);
    forall h | h in hits ensures |Live(region, ps)| <= h.start {
      var k :| 0 <= k < |hits| && hits[k] == h;
      assert k > 0 ==> hits[0].start < hits[k].start;
    }
  }

  lemma Cuts(s: string, find: string -> seq<Hit>)
    requires FindsInOrder(find)
    ensures CutBy(s, find(s), CutAt(s, find(s))) && Ordered(find(s))
  {
    if find(s) != [] { assert find(s)[0] in find(s); }
  }

  // ---- The arms ----

  /** A fetch, the first of the line and a command, and behind it every command that is a pipe into a shell, of which there is one. */
  ghost predicate PipedLine(line: string, ps: Patterns) {
    && ps.fetch(line) != [] && ps.inCommandPosition(line, ps.fetch(line)[0].token)
    && (exists h :: h in ps.pipeShell(line) && Commands(line, h, ps))
    && (forall h :: h in ps.pipeShell(line) && Commands(line, h, ps) ==> h.start > ps.fetch(line)[0].start)
  }

  lemma LineChainIff(line: string, ps: Patterns)
    requires Scanners(ps)
    ensures LineChain(line, ps).Some? <==> PipedLine(line, ps)
    ensures LineChain(line, ps).Some? ==> LineChain(line, ps).value == Direct(ps.fetch(line)[0])
  {
    FirstCommandIs(line, ps.pipeShell(line), ps);
  }

  /** Line `i` is the first piped one, and its first fetch is the one answered. */
  ghost predicate AnswersLine(lines: seq<string>, i: int, chain: Chain, ps: Patterns) {
    && 0 <= i < |lines| && PipedLine(lines[i], ps) && (forall k :: 0 <= k < i ==> !PipedLine(lines[k], ps))
    && ps.fetch(lines[i]) != [] && chain == Direct(ps.fetch(lines[i])[0])
  }

  /** The direct arm proves a chain exactly when some line is piped, and answers the fetch of the first such line. */
  lemma {:induction false} DirectIff(lines: seq<string>, ps: Patterns)
    requires Scanners(ps)
    ensures DirectPipeline(lines, ps).Some? <==> exists i :: 0 <= i < |lines| && PipedLine(lines[i], ps)
    ensures DirectPipeline(lines, ps).Some? ==> exists i :: AnswersLine(lines, i, DirectPipeline(lines, ps).value, ps)
  {
    hide PipedLine, LineChain;
    if lines != [] {
      var rest := lines[1..];
      assert forall k :: 0 < k < |lines| ==> lines[k] == rest[k - 1];
      FirstLine(lines, ps);
      DirectIff(rest, ps);
      if LineChain(lines[0], ps).None? && DirectPipeline(rest, ps).Some? {
        var chain := DirectPipeline(rest, ps).value;
        var i :| AnswersLine(rest, i, chain, ps);
        assert lines[i + 1] == rest[i];
        assert AnswersLine(lines, i + 1, chain, ps);
      }
    }
  }

  lemma FirstLine(lines: seq<string>, ps: Patterns)
    requires Scanners(ps) && lines != []
    ensures LineChain(lines[0], ps).Some? <==> PipedLine(lines[0], ps)
    ensures LineChain(lines[0], ps).Some? ==> AnswersLine(lines, 0, LineChain(lines[0], ps).value, ps)
  {
    LineChainIff(lines[0], ps);
  }

  /** A sink command with every sink command behind some fetch command. */
  ghost predicate TwoSteps(region: string, ps: Patterns) {
    && (exists s :: s in ps.sink(region) && Commands(region, s, ps))
    && (exists f :: f in ps.fetch(region) && Commands(region, f, ps) && BeforeSinks(region, f, ps))
  }

  /** The first sink command, run from the build tree and named by what the text declares as a source. */
  ghost predicate DeclaredSink(region: string, text: string, ps: Patterns) {
    && ps.declaresSource(text) && ps.inBuildTree(region)
    && exists s :: s in ps.sink(region) && Commands(region, s, ps) && ps.sinkDeclared(s.token, text)
         && forall h :: h in ps.sink(region) && Commands(region, h, ps) ==> s.start <= h.start
  }

  /**
   * A region proves a chain exactly when it is not blank and one of its lines is piped, or it has the two steps, or its
   * sink is a declared source; the arms are looked at in that order.
   */
  lemma ProvesIff(region: string, text: string, ps: Patterns)
    requires Scanners(ps)
    ensures
      var piped := exists i :: 0 <= i < |Split(region, '\n')| && PipedLine(Split(region, '\n')[i], ps);
      var blank := forall c :: c in region ==> IsSpace(c);
      && (Proves(region, text, ps).Some? <==> !blank && (piped || TwoSteps(region, ps) || DeclaredSink(region, text, ps)))
      && (Proves(region, text, ps).Some? ==>
            && (Proves(region, text, ps).value.Direct? <==> piped)
            && (Proves(region, text, ps).value.TwoStep? <==> !piped && TwoSteps(region, ps)))
  {
    hide PipedLine, AnswersLine, BeforeSinks, DirectPipeline, FirstCommand, Commands, DeclaredSink, TwoSteps, Scanners;
    DirectIff(Split(region, '\n'), ps);
    if DirectPipeline(Split(region, '\n'), ps).Some? { DirectIsDirect(region, ps); }
    TwoStepsIff(region, ps);
    SinkIsFirst(region, text, ps);
  }

  lemma DirectIsDirect(region: string, ps: Patterns)
    requires Scanners(ps) && DirectPipeline(Split(region, '\n'), ps).Some?
    ensures DirectPipeline(Split(region, '\n'), ps).value.Direct?
  {
    hide PipedLine;
    DirectIff(Split(region, '\n'), ps);
  }

  lemma TwoStepsIff(region: string, ps: Patterns)
    requires Scanners(ps)
    ensures
      var fetch, sink := FirstCommand(region, ps.fetch(region), ps), FirstCommand(region, ps.sink(region), ps);
      TwoSteps(region, ps) <==> fetch.Some? && sink.Some? && sink.value.start > fetch.value.start
  {
    hide BeforeSinks;
    TwoStepIff(region, ps);
  }

  lemma SinkIsFirst(region: string, text: string, ps: Patterns)
    requires Scanners(ps)
    ensures
      var sink := FirstCommand(region, ps.sink(region), ps);
      DeclaredSink(region, text, ps) <==>
        ps.declaresSource(text) && sink.Some? && ps.inBuildTree(region) && ps.sinkDeclared(sink.value.token, text)
  {
    hide Commands;
    var hits, sink := ps.sink(region), FirstCommand(region, ps.sink(region), ps);
    FirstCommandIs(region, hits, ps);
    forall s | s in hits && sink.Some? && s.start == sink.value.start ensures s == sink.value {
      StartsApart(hits, s, sink.value);
    }
  }

  lemma StartsApart(hits: seq<Hit>, g: Hit, h: Hit)
    requires Ordered(hits) && g in hits && h in hits && g.start == h.start
    ensures g == h
  {
    var i :| 0 <= i < |hits| && hits[i] == g;
    var k :| 0 <= k < |hits| && hits[k] == h;
    assert i == k;
  }

  // ---- Entry points ----

  /** The regions are those of the functions makepkg calls, in the order they are listed. */
  lemma {:induction false} EntriesAre(order: seq<string>, n: string)
    ensures n in EntriesIn(order) <==> n in order && n in {"prepare", "build", "check", "package", "pkgver"}
  {
    if order != [] {
      var k := |order| - 1;
      EntriesAre(order[..k], n);
      assert n in order <==> n in order[..k] || n == order[k];
    }
  }
}
