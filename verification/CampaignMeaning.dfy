/** `harness/campaign.py`: what one attempt comes to and what it leaves behind, in terms of the attempt. */
module CampaignMeaning {
  import A = Archive
  import P = ArchiveProtocol
  import opened Campaign
  import opened Judge
  import opened Options

  // ---- Cells ----

  /** Attempts share a key exactly when they share rule and shape, and behaviour too where the shape is unnamed. */
  lemma SemanticKeyIff(rule: string, shape: seq<string>, signature: string, rule': string, shape': seq<string>, signature': string)
    ensures SemanticKey(rule, shape, signature) == SemanticKey(rule', shape', signature') <==>
      rule == rule' && shape == shape' && (shape == ["unshaped"] ==> signature == signature')
  {
  }

  /** Cell `i` is that of rule `i`, with the shape found for the rule or the unnamed one. */
  lemma {:induction false} CellsAre(rules: seq<string>, p: Produced, id: (string, seq<string>) -> string)
    ensures |CellsFor(rules, p, id)| == |rules|
    ensures forall i :: 0 <= i < |rules| ==>
      var shape := if rules[i] in p.shapes then p.shapes[rules[i]] else ["unshaped"];
      CellsFor(rules, p, id)[i].id == id(rules[i], shape)
      && CellsFor(rules, p, id)[i].key == SemanticKey(rules[i], shape, p.signature)
  {
    if rules != [] { CellsAre(rules[1..], p, id); }
  }

  // ---- The stages before the analysis ----

  /** A digest met before in this campaign, or known from this very version. */
  predicate Met(s: State, p: Produced, c: Config) {
    p.digest in s.seen || (p.digest in c.known && c.known[p.digest] == c.version)
  }

  /** Which stage stops an attempt: the first it fails; an attempt whose cells are closed or measured is a duplicate. */
  lemma StoppedIff(s: State, p: Produced, cells: seq<Slot>, c: Config)
    ensures
      var gate := Validate(s, p, cells, c).1;
      var unmet := p.clean && !Met(s, p, c);
      var checked := unmet && p.syntax && p.constraints && p.preserved;
      && (gate == Stop(SanitizationFailure) <==> !p.clean)
      && (gate == Stop(SyntaxError) <==> unmet && !p.syntax)
      && (gate == Stop(ConstraintViolation) <==> unmet && p.syntax && !p.constraints)
      && (gate == Stop(BehaviorLost) <==> unmet && p.syntax && p.constraints && !p.preserved)
      && (gate == Stop(Duplicate) <==>
            (p.clean && Met(s, p, c)) || (checked && cells != [] && (AllClosed(cells, s.grid, c) || Measured(s, cells))))
      && (gate.Go? <==> checked && (cells == [] || (!AllClosed(cells, s.grid, c) && !Measured(s, cells))))
  {
    hide AllClosed;
    MeasuredIff(s, cells);
  }

  /** Every cell has a key measured before. */
  predicate Measured(s: State, cells: seq<Slot>) { forall x :: x in cells ==> x.key in s.keys }

  lemma MeasuredIff(s: State, cells: seq<Slot>)
    ensures Measured(s, cells) <==> KeysOf(cells) - s.keys == {}
  {
    if Measured(s, cells) {
      forall k | k in KeysOf(cells) ensures k in s.keys {
        var x :| x in cells && x.key == k;
      }
    } else {
      var x :| x in cells && x.key !in s.keys;
      assert x.key in KeysOf(cells) - s.keys;
    }
  }

  /** An attempt whose cells are worth measuring: every stage passes and some cell is open. */
  predicate Observable(s: State, p: Produced, cells: seq<Slot>, c: Config) {
    p.clean && !Met(s, p, c) && p.syntax && p.constraints && p.preserved && cells != [] && !AllClosed(cells, s.grid, c)
  }

  /** What the stages leave behind: digest, keys and counts, and a duplicate noted in each cell where nothing was new. */
  lemma LeftBehind(s: State, p: Produced, cells: seq<Slot>, c: Config)
    ensures
      var now := Validate(s, p, cells, c).0;
      var observable := Observable(s, p, cells, c);
      && now.seen == s.seen + (if p.clean then {p.digest} else {})
      && now.keys == s.keys + (if observable then KeysOf(cells) else {})
      && now.observations == s.observations + (if observable then 1 else 0)
      && now.duplicates == s.duplicates + (if observable && Measured(s, cells) then 1 else 0)
      && now.grid == (if observable && Measured(s, cells) then NoteAll(s.grid, cells, c.version) else s.grid)
  {
    hide AllClosed, NoteAll, Measured;
    MeasuredIff(s, cells);
    assert s.keys + KeysOf(cells) == s.keys + (KeysOf(cells) - s.keys);
    if p.clean && p.digest in s.seen { assert s.seen + {p.digest} == s.seen; }
    assert s.seen + {} == s.seen && s.keys + {} == s.keys;
    assert KeysOf(cells) - s.keys == {} ==> s.keys + KeysOf(cells) == s.keys;
  }

  // ---- When a campaign raises ----

  /** A report with a severity or a gap that nobody knows. */
  predicate Foreign(r: Report, c: Config) {
    || (exists f :: f in r.findings && f.severity !in KNOWN_SEVERITIES)
    || (exists g :: g in r.gaps && g !in c.modeGaps && g !in KNOWN_GAPS)
  }

  /**
   * An attempt ends the campaign in an exception exactly when it passes and the environment refuses, or its report is
   * foreign, or the analysis fails for the attempt that makes more than a fifth of at least ten fail.
   */
  lemma RaisesIff(s: State, p: Produced, cells: seq<Slot>, c: Config)
    ensures Step(s, p, cells, c).None? <==>
      && Passes(s, p, cells, c)
      && match p.analysis
         case Refuses => true
         case Fails => |s.traces| + 1 >= 10 && (s.errors + 1) * 5 > |s.traces| + 1
         case Gives(report) => Foreign(report, c)
  {
    hide Passes;
    AnalysedIff(s, p, cells, c);
    var mid := Validate(s, p, cells, c).0;
    assert mid.traces == s.traces && mid.errors == s.errors;
  }

  /** How far a run gets: it raises at the first attempt that does, and ends only done or with nothing more to try. */
  lemma {:induction false} RunEnds(s: State, ps: seq<Produced>, c: Config, id: (string, seq<string>) -> string)
    ensures Run(s, ps, c, id).Some? ==>
      var now := Run(s, ps, c, id).value;
      || |now.traces| >= c.attempts || (c.stopAfter > 0 && |now.bypassHashes| >= c.stopAfter)
      || |now.traces| == |s.traces| + |ps|
    decreases |ps|
  {
    hide Step, CellsFor;
    if !Done(s, c) && ps != [] {
      var cells := CellsFor(c.rules, ps[0], id);
      if Step(s, ps[0], cells, c).Some? {
        StepTraces(s, ps[0], cells, c);
        RunEnds(Step(s, ps[0], cells, c).value, ps[1..], c, id);
      }
    }
  }

  // ---- What a verdict adds ----

  /** The trace of an attempt: its place, its digest, how far it got and the keys it measured first. */
  lemma TraceIs(s: State, p: Produced, cells: seq<Slot>, c: Config)
    requires Step(s, p, cells, c).Some?
    ensures
      var now := Step(s, p, cells, c).value;
      var t := now.traces[|s.traces|];
      && now.traces == s.traces + [t] && t.attempt == |s.traces| && t.digest == p.digest
      && (t.reached == Stopped <==> !Passes(s, p, cells, c))
      && (t.reached != Stopped ==> t.claimed == KeysOf(cells) - s.keys && (t.reached == Failed <==> p.analysis.Fails?))
      && (t.status == HarnessError <==> t.reached == Failed)
      && now.errors == s.errors + (if t.reached == Failed then 1 else 0)
      && now.bypassHashes == s.bypassHashes + (if t.status == Bypass then [p.digest] else [])
      && now.filled == s.filled + (if t.status == Bypass then set x | x in cells :: x.id else {})
  {
    AnalysedIff(s, p, cells, c);
    hide Passes, ObserveAll, Judge.Judge, Validate;
    GateIs(s, p, cells, c);
    assert s.filled + {} == s.filled && s.bypassHashes + [] == s.bypassHashes;
    if p.analysis.Gives? { VerdictIsJudged(p.analysis.report, c); }
  }

  lemma GateIs(s: State, p: Produced, cells: seq<Slot>, c: Config)
    ensures
      var (mid, gate) := Validate(s, p, cells, c);
      && mid.traces == s.traces && mid.errors == s.errors && mid.bypassHashes == s.bypassHashes && mid.filled == s.filled
      && (gate.Go? ==> gate.claimed == KeysOf(cells) - s.keys)
      && (gate.Stop? ==> gate.status !in {Bypass, KnownBypassMatch, HarnessError})
  {
    hide AllClosed, NoteAll;
  }

  /** The observation an attempt makes. */
  function Made(p: Produced, attempt: nat, c: Config): A.Obs {
    A.Obs(A.ObsKey(c.name, attempt, c.version), p.cost)
  }

  /** How many of the cells are the one called `k`. */
  function Times(cells: seq<Slot>, k: string): nat
    decreases |cells|
  {
    if cells == [] then 0 else (if cells[0].id == k then 1 else 0) + Times(cells[1..], k)
  }

  function Seen(g: A.Grid, k: string): seq<A.Obs> { if k in g then g[k].observations else [] }

  /** A fresh bypass is observed in each of its cells, behind what the cell holds, and no other cell changes. */
  lemma {:induction false} ObservedIs(g: A.Grid, cells: seq<Slot>, p: Produced, attempt: nat, c: Config, k: string)
    ensures
      var now := ObserveAll(g, cells, p, attempt, c);
      && (k in now <==> k in g || Times(cells, k) > 0)
      && Seen(now, k) == Seen(g, k) + seq(Times(cells, k), _ => Made(p, attempt, c))
      && (Times(cells, k) == 0 && k in g ==> now[k] == g[k])
    decreases |cells|
  {
    if cells != [] {
      var next := P.ObserveIn(g, cells[0].id, p.representative, Made(p, attempt, c), p.degraded);
      ObservedIs(next, cells[1..], p, attempt, c, k);
      if cells[0].id == k {
        var o, more := Made(p, attempt, c), Times(cells[1..], k);
        assert [o] + seq(more, _ => o) == seq(more + 1, _ => o);
        assert Seen(next, k) == Seen(g, k) + [o];
      }
    }
  }

  function Noted(g: A.Grid, k: string, version: string): nat { if k in g then A.Count(g[k].duplicates, version) else 0 }

  /** A duplicate is noted once for each of its cells, for this version, and no observation changes. */
  lemma {:induction false} NotedIs(g: A.Grid, cells: seq<Slot>, version: string, k: string, v: string)
    ensures
      var now := NoteAll(g, cells, version);
      && (k in now <==> k in g || Times(cells, k) > 0)
      && Noted(now, k, v) == Noted(g, k, v) + (if v == version then Times(cells, k) else 0)
      && Seen(now, k) == Seen(g, k)
    decreases |cells|
  {
    if cells != [] {
      NotedIs(P.NoteDuplicateIn(g, cells[0].id, version), cells[1..], version, k, v);
    }
  }
}
