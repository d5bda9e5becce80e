/** `harness/campaign.py`, the attempt loop of `run_campaign`, with `harness/dedup.py` and `harness/recorder.py`. */
module Campaign {
  import A = Archive
  import P = ArchiveProtocol
  import opened Judge
  import opened Options
  import opened Sets

  // ---- Attempts ----

  /** What two attempts must share to count as one: the rule and its shape, or its behaviour where the shape is unnamed. */
  datatype Key = Shaped(rule: string, shape: seq<string>) | Chained(rule: string, signature: string)

  const UNSHAPED := "unshaped"

  function SemanticKey(rule: string, shape: seq<string>, signature: string): Key {
    if shape == [UNSHAPED] then Chained(rule, signature) else Shaped(rule, shape)
  }

  /** A cell as an attempt meets it: its name in the archive, and the key it is deduplicated by. */
  datatype Slot = Slot(id: string, key: Key)

  /** How the analysis of an attempt ends: it fails or times out, a check of the environment refuses, or there is a report. */
  datatype Analysis = Fails | Refuses | Gives(report: Report)

  /** One generated diff and what every stage finds about it. */
  datatype Produced = Produced(
    digest: string, clean: bool, syntax: bool, constraints: bool, preserved: bool,
    shapes: map<string, seq<string>>, signature: string, degraded: bool, analysis: Analysis,
    representative: string, cost: real)

  datatype Config = Config(name: string, version: string, rules: seq<string>, threshold: int, modeGaps: set<string>,
                           saturation: nat, attempts: nat, stopAfter: nat, known: map<string, string>)

  function ShapeOf(p: Produced, rule: string): seq<string> { if rule in p.shapes then p.shapes[rule] else [UNSHAPED] }

  /** `cells_for`: one cell for each expected rule. */
  function CellsFor(rules: seq<string>, p: Produced, id: (string, seq<string>) -> string): seq<Slot> {
    if rules == [] then []
    else
      var shape := ShapeOf(p, rules[0]);
      [Slot(id(rules[0], shape), SemanticKey(rules[0], shape, p.signature))] + CellsFor(rules[1..], p, id)
  }

  function KeysOf(cells: seq<Slot>): set<Key> { set x | x in cells :: x.key }

  // ---- What a campaign carries along ----

  /** How far an attempt got: stopped before the analysis, analysed without a report, or reported on. */
  datatype Reach = Stopped | Failed | Reported

  /** The line of one attempt, with the keys it was the first to measure. */
  datatype Trace = Trace(attempt: nat, digest: string, status: Status, reached: Reach, claimed: set<Key>)

  /** A patch status: whether a known bypass, met again, was caught. */
  datatype Match = Match(digest: string, attempt: nat, held: bool)

  datatype State = State(seen: set<string>, keys: set<Key>, observations: nat, duplicates: nat, errors: nat, grid: A.Grid,
                         traces: seq<Trace>, bypassHashes: seq<string>, matches: seq<Match>, filled: set<string>)

  function Start(grid: A.Grid): State { State({}, {}, 0, 0, 0, grid, [], [], [], {}) }

  const MIN_ATTEMPTS := 10

  /** More than a fifth of at least ten attempts. */
  predicate Aborts(errors: nat, attempts: nat) { attempts >= MIN_ATTEMPTS && 5 * errors > attempts }

  predicate AllClosed(cells: seq<Slot>, grid: A.Grid, c: Config) {
    forall x :: x in cells ==> P.IsClosed(grid, x.id, c.version, c.saturation)
  }

  function NoteAll(grid: A.Grid, cells: seq<Slot>, version: string): A.Grid
    decreases |cells|
  {
    if cells == [] then grid else NoteAll(P.NoteDuplicateIn(grid, cells[0].id, version), cells[1..], version)
  }

  function ObserveAll(grid: A.Grid, cells: seq<Slot>, p: Produced, attempt: nat, c: Config): A.Grid
    decreases |cells|
  {
    if cells == [] then grid
    else
      var o := A.Obs(A.ObsKey(c.name, attempt, c.version), p.cost);
      ObserveAll(P.ObserveIn(grid, cells[0].id, p.representative, o, p.degraded), cells[1..], p, attempt, c)
  }

  datatype Gate = Stop(status: Status) | Go(claimed: set<Key>)

  /** The stages before the analysis, in order, and what they leave behind. */
  function Validate(s: State, p: Produced, cells: seq<Slot>, c: Config): (State, Gate) {
    if !p.clean then (s, Stop(SanitizationFailure))
    else if p.digest in s.seen then (s, Stop(Duplicate))
    else
      var s := s.(seen := s.seen + {p.digest});
      if p.digest in c.known && c.known[p.digest] == c.version then (s, Stop(Duplicate))
      else if !p.syntax then (s, Stop(SyntaxError))
      else if !p.constraints then (s, Stop(ConstraintViolation))
      else if !p.preserved then (s, Stop(BehaviorLost))
      else if cells == [] then (s, Go({}))
      else if AllClosed(cells, s.grid, c) then (s, Stop(Duplicate))
      else
        var claimed := KeysOf(cells) - s.keys;
        var s := s.(observations := s.observations + 1);
        if claimed == {} then
          (s.(duplicates := s.duplicates + 1, grid := NoteAll(s.grid, cells, c.version)), Stop(Duplicate))
        else (s.(keys := s.keys + claimed), Go(claimed))
  }

  function Record(s: State, p: Produced, status: Status, reached: Reach, claimed: set<Key>): State {
    var t := Trace(|s.traces|, p.digest, status, reached, claimed);
    s.(traces := s.traces + [t], bypassHashes := if status == Bypass then s.bypassHashes + [p.digest] else s.bypassHashes)
  }

  /** What a verdict adds: a patch status for a known digest, cells filled by a fresh bypass, and the trace. */
  function Settle(s: State, p: Produced, cells: seq<Slot>, verdict: Status, claimed: set<Key>, c: Config): State {
    if p.digest in c.known then
      var m := Match(p.digest, |s.traces|, verdict != Bypass && verdict != FailClosedCatch);
      Record(s.(matches := s.matches + [m]), p, KnownBypassMatch, Reported, claimed)
    else if verdict == Bypass then
      var ids := set x | x in cells :: x.id;
      var g := ObserveAll(s.grid, cells, p, |s.traces|, c);
      Record(s.(grid := g, filled := s.filled + ids), p, Bypass, Reported, claimed)
    else Record(s, p, verdict, Reported, claimed)
  }

  function FailedState(s: State, p: Produced, claimed: set<Key>): State {
    Record(s.(errors := s.errors + 1), p, HarnessError, Failed, claimed)
  }

  /** The analysis and what comes of it; `None` where the campaign ends in an exception. */
  function Analyse(s: State, p: Produced, cells: seq<Slot>, claimed: set<Key>, c: Config): Option<State> {
    match p.analysis
    case Refuses => None
    case Fails =>
      if Aborts(s.errors + 1, |s.traces| + 1) then None else Some(FailedState(s, p, claimed))
    case Gives(report) =>
      match Judge.Judge(report, c.threshold, c.rules, c.modeGaps)
      case None => None
      case Some(verdict) => Some(Settle(s, p, cells, verdict, claimed, c))
  }

  /** One attempt. */
  function Step(s: State, p: Produced, cells: seq<Slot>, c: Config): Option<State> {
    var (mid, gate) := Validate(s, p, cells, c);
    match gate
    case Stop(status) => Some(Record(mid, p, status, Stopped, {}))
    case Go(claimed) => Analyse(mid, p, cells, claimed, c)
  }

  predicate Done(s: State, c: Config) {
    |s.traces| >= c.attempts || (c.stopAfter > 0 && |s.bypassHashes| >= c.stopAfter)
  }

  /** The loop, over what the generator produces until it is exhausted. */
  function Run(s: State, ps: seq<Produced>, c: Config, id: (string, seq<string>) -> string): Option<State>
    decreases |ps|
  {
    if Done(s, c) || ps == [] then Some(s)
    else
      match Step(s, ps[0], CellsFor(c.rules, ps[0], id), c)
      case None => None
      case Some(next) => Run(next, ps[1..], c, id)
  }

  // ---- What every attempt keeps ----

  function CountOf(traces: seq<Trace>, status: Status): nat {
    if traces == [] then 0
    else CountOf(traces[..|traces| - 1], status) + (if traces[|traces| - 1].status == status then 1 else 0)
  }

  /** The attempts that went on to the analysis. */
  function Passed(traces: seq<Trace>): nat {
    if traces == [] then 0
    else Passed(traces[..|traces| - 1]) + (if traces[|traces| - 1].reached != Stopped then 1 else 0)
  }

  lemma TraceAppend(traces: seq<Trace>, t: Trace, status: Status)
    ensures CountOf(traces + [t], status) == CountOf(traces, status) + (if t.status == status then 1 else 0)
    ensures Passed(traces + [t]) == Passed(traces) + (if t.reached != Stopped then 1 else 0)
  {
    assert (traces + [t])[..|traces|] == traces;
  }

  /** Bypass hashes are distinct, have been seen, and none was known. */
  predicate HashesOk(s: State, c: Config) {
    && (forall i, j :: 0 <= i < j < |s.bypassHashes| ==> s.bypassHashes[i] != s.bypassHashes[j])
    && (forall h :: h in s.bypassHashes ==> h in s.seen && h !in c.known)
  }

  /** A patch status belongs to an attempt that was reported on, for a digest known from another version. */
  predicate MatchesOk(s: State, c: Config) {
    forall m :: m in s.matches ==>
      && m.digest in c.known && c.known[m.digest] != c.version && m.attempt < |s.traces|
      && s.traces[m.attempt].digest == m.digest && s.traces[m.attempt].status == KnownBypassMatch
      && s.traces[m.attempt].reached == Reported
  }

  /** Attempts that went on have digests of their own, and each is the first to measure some key. */
  predicate TracesOk(s: State, c: Config) {
    && (forall i :: 0 <= i < |s.traces| ==> s.traces[i].attempt == i)
    && (forall i :: 0 <= i < |s.traces| && s.traces[i].reached != Stopped ==>
          s.traces[i].digest in s.seen && s.traces[i].claimed <= s.keys && (c.rules != [] ==> s.traces[i].claimed != {}))
    && (forall i, j :: 0 <= i < j < |s.traces| && s.traces[i].reached != Stopped && s.traces[j].reached != Stopped ==>
          s.traces[i].digest != s.traces[j].digest && s.traces[i].claimed !! s.traces[j].claimed)
  }

  predicate CountsOk(s: State, c: Config) {
    && s.observations == s.duplicates + (if c.rules != [] then Passed(s.traces) else 0)
    && s.errors == CountOf(s.traces, HarnessError)
    && |s.bypassHashes| == CountOf(s.traces, Bypass) && |s.matches| == CountOf(s.traces, KnownBypassMatch)
    && s.errors <= |s.traces| && (s.errors < MIN_ATTEMPTS || 5 * s.errors <= |s.traces|)
  }

  predicate Inv(s: State, c: Config) { HashesOk(s, c) && MatchesOk(s, c) && TracesOk(s, c) && CountsOk(s, c) }

  /** What the stages before the analysis may do. */
  lemma ValidateFacts(s: State, p: Produced, cells: seq<Slot>, c: Config)
    requires cells == [] <==> c.rules == []
    ensures
      var (now, gate) := Validate(s, p, cells, c);
      && now.traces == s.traces && now.bypassHashes == s.bypassHashes && now.matches == s.matches && now.errors == s.errors
      && now.filled == s.filled && s.seen <= now.seen && s.keys <= now.keys
      && (gate.Stop? ==> now.observations - now.duplicates == s.observations - s.duplicates)
      && (gate.Stop? ==> gate.status !in {Bypass, KnownBypassMatch, HarnessError})
      && (gate.Go? ==>
            && p.digest !in s.seen && p.digest in now.seen && gate.claimed !! s.keys && gate.claimed <= now.keys
            && (p.digest in c.known ==> c.known[p.digest] != c.version)
            && (c.rules != [] <==> gate.claimed != {})
            && now.observations - now.duplicates == s.observations - s.duplicates + (if c.rules != [] then 1 else 0))
  {
  }

  /** Every stage passes the attempt, and where rules are expected some cell is open and some key new. */
  predicate Passes(s: State, p: Produced, cells: seq<Slot>, c: Config) {
    && p.clean && p.syntax && p.constraints && p.preserved && p.digest !in s.seen
    && (p.digest in c.known ==> c.known[p.digest] != c.version)
    && (cells != [] ==>
          && (exists x :: x in cells && !P.IsClosed(s.grid, x.id, c.version, c.saturation))
          && (exists x :: x in cells && x.key !in s.keys))
  }

  /** An attempt is analysed exactly when it passes. */
  lemma AnalysedIff(s: State, p: Produced, cells: seq<Slot>, c: Config)
    ensures Validate(s, p, cells, c).1.Go? <==> Passes(s, p, cells, c)
  {
    if cells != [] {
      if x :| x in cells && x.key !in s.keys {
        assert x.key in KeysOf(cells) - s.keys;
      }
      if k :| k in KeysOf(cells) - s.keys {
        var x :| x in cells && x.key == k;
      }
    }
  }

  // ---- A trace is added ----

  lemma RecordHashes(s: State, p: Produced, status: Status, reached: Reach, claimed: set<Key>, c: Config)
    requires HashesOk(s, c)
    requires status == Bypass ==> p.digest in s.seen && p.digest !in s.bypassHashes && p.digest !in c.known
    ensures HashesOk(Record(s, p, status, reached, claimed), c)
  {
  }

  lemma RecordTraces(s: State, p: Produced, status: Status, reached: Reach, claimed: set<Key>, c: Config)
    requires TracesOk(s, c)
    requires reached != Stopped ==> p.digest in s.seen && claimed <= s.keys && (c.rules != [] ==> claimed != {})
    requires reached != Stopped ==> forall t :: t in s.traces && t.reached != Stopped ==> t.digest != p.digest && t.claimed !! claimed
    ensures TracesOk(Record(s, p, status, reached, claimed), c)
  {
    var now := Record(s, p, status, reached, claimed);
    assert forall i :: 0 <= i < |s.traces| ==> now.traces[i] == s.traces[i] && s.traces[i] in s.traces;
    forall i, j | 0 <= i < j < |now.traces| && now.traces[i].reached != Stopped && now.traces[j].reached != Stopped
      ensures now.traces[i].digest != now.traces[j].digest && now.traces[i].claimed !! now.traces[j].claimed
    {
    }
  }

  lemma RecordMatches(s: State, p: Produced, status: Status, reached: Reach, claimed: set<Key>, c: Config)
    requires MatchesOk(s, c)
    ensures MatchesOk(Record(s, p, status, reached, claimed), c)
  {
    var now := Record(s, p, status, reached, claimed);
    assert forall i :: 0 <= i < |s.traces| ==> now.traces[i] == s.traces[i];
  }

  lemma RecordCounts(s: State, p: Produced, status: Status, reached: Reach, claimed: set<Key>, c: Config)
    ensures
      var (was, now) := (s.traces, Record(s, p, status, reached, claimed).traces);
      && CountOf(now, Bypass) == CountOf(was, Bypass) + (if status == Bypass then 1 else 0)
      && CountOf(now, HarnessError) == CountOf(was, HarnessError) + (if status == HarnessError then 1 else 0)
      && CountOf(now, KnownBypassMatch) == CountOf(was, KnownBypassMatch) + (if status == KnownBypassMatch then 1 else 0)
      && Passed(now) == Passed(was) + (if reached != Stopped then 1 else 0)
  {
    var t := Trace(|s.traces|, p.digest, status, reached, claimed);
    TraceAppend(s.traces, t, Bypass);
    TraceAppend(s.traces, t, HarnessError);
    TraceAppend(s.traces, t, KnownBypassMatch);
  }

  lemma StopKeeps(s: State, p: Produced, cells: seq<Slot>, c: Config)
    requires Inv(s, c) && (cells == [] <==> c.rules == []) && Validate(s, p, cells, c).1.Stop?
    ensures Inv(Step(s, p, cells, c).value, c)
  {
    ValidateFacts(s, p, cells, c);
    var (mid, gate) := Validate(s, p, cells, c);
    RecordHashes(mid, p, gate.status, Stopped, {}, c);
    RecordTraces(mid, p, gate.status, Stopped, {}, c);
    RecordMatches(mid, p, gate.status, Stopped, {}, c);
    RecordCounts(mid, p, gate.status, Stopped, {}, c);
  }

  /** The counts with one pass more than there are traces of. */
  predicate PassCounts(s: State, c: Config) {
    && s.observations == s.duplicates + (if c.rules != [] then Passed(s.traces) + 1 else 0)
    && s.errors == CountOf(s.traces, HarnessError)
    && |s.bypassHashes| == CountOf(s.traces, Bypass) && |s.matches| == CountOf(s.traces, KnownBypassMatch)
    && s.errors <= |s.traces| && (s.errors < MIN_ATTEMPTS || 5 * s.errors <= |s.traces|)
  }

  /** Past the gate: the digest and the keys are new to every attempt that went on before, and one more pass is counted. */
  predicate Passing(s: State, p: Produced, claimed: set<Key>, c: Config) {
    && HashesOk(s, c) && MatchesOk(s, c) && TracesOk(s, c) && p.digest !in s.bypassHashes
    && p.digest in s.seen && claimed <= s.keys && (c.rules != [] ==> claimed != {})
    && (p.digest in c.known ==> c.known[p.digest] != c.version)
    && (forall t :: t in s.traces && t.reached != Stopped ==> t.digest != p.digest && t.claimed !! claimed)
    && PassCounts(s, c)
  }

  lemma GoIsNew(s: State, p: Produced, cells: seq<Slot>, c: Config)
    requires Inv(s, c) && (cells == [] <==> c.rules == []) && Validate(s, p, cells, c).1.Go?
    ensures Passing(Validate(s, p, cells, c).0, p, Validate(s, p, cells, c).1.claimed, c)
  {
    ValidateFacts(s, p, cells, c);
    var (mid, gate) := Validate(s, p, cells, c);
    forall t | t in mid.traces && t.reached != Stopped ensures t.digest != p.digest && t.claimed !! gate.claimed {
      var i :| 0 <= i < |s.traces| && s.traces[i] == t;
      assert s.traces[i].digest in s.seen && s.traces[i].claimed <= s.keys;
    }
  }

  lemma FailSound(s: State, p: Produced, claimed: set<Key>, c: Config)
    requires Passing(s, p, claimed, c)
    ensures
      var now := FailedState(s, p, claimed);
      HashesOk(now, c) && MatchesOk(now, c) && TracesOk(now, c)
  {
    var failed := s.(errors := s.errors + 1);
    RecordHashes(failed, p, HarnessError, Failed, claimed, c);
    RecordTraces(failed, p, HarnessError, Failed, claimed, c);
    RecordMatches(failed, p, HarnessError, Failed, claimed, c);
  }

  lemma FailCounts(s: State, p: Produced, claimed: set<Key>, c: Config)
    requires PassCounts(s, c) && !Aborts(s.errors + 1, |s.traces| + 1)
    ensures CountsOk(FailedState(s, p, claimed), c)
  {
    RecordCounts(s.(errors := s.errors + 1), p, HarnessError, Failed, claimed, c);
  }

  lemma SettleKeeps(s: State, p: Produced, cells: seq<Slot>, verdict: Status, claimed: set<Key>, c: Config)
    requires HashesOk(s, c) && MatchesOk(s, c) && TracesOk(s, c) && p.digest !in s.bypassHashes && p.digest in s.seen
    requires claimed <= s.keys && (c.rules != [] ==> claimed != {})
    requires forall t :: t in s.traces && t.reached != Stopped ==> t.digest != p.digest && t.claimed !! claimed
    requires p.digest in c.known ==> c.known[p.digest] != c.version
    ensures
      var now := Settle(s, p, cells, verdict, claimed, c);
      HashesOk(now, c) && MatchesOk(now, c) && TracesOk(now, c)
  {
    if p.digest in c.known {
      var m := Match(p.digest, |s.traces|, verdict != Bypass && verdict != FailClosedCatch);
      var with := s.(matches := s.matches + [m]);
      RecordHashes(with, p, KnownBypassMatch, Reported, claimed, c);
      RecordTraces(with, p, KnownBypassMatch, Reported, claimed, c);
      RecordMatches(s, p, KnownBypassMatch, Reported, claimed, c);
    } else if verdict == Bypass {
      var filled := s.(grid := ObserveAll(s.grid, cells, p, |s.traces|, c), filled := s.filled + set x | x in cells :: x.id);
      RecordHashes(filled, p, Bypass, Reported, claimed, c);
      RecordTraces(filled, p, Bypass, Reported, claimed, c);
      RecordMatches(filled, p, Bypass, Reported, claimed, c);
    } else {
      RecordHashes(s, p, verdict, Reported, claimed, c);
      RecordTraces(s, p, verdict, Reported, claimed, c);
      RecordMatches(s, p, verdict, Reported, claimed, c);
    }
  }

  lemma SettleCounts(s: State, p: Produced, cells: seq<Slot>, verdict: Status, claimed: set<Key>, c: Config)
    requires verdict != HarnessError && verdict != KnownBypassMatch
    ensures
      var now := Settle(s, p, cells, verdict, claimed, c);
      && now.observations == s.observations && now.duplicates == s.duplicates && now.errors == s.errors
      && |now.traces| == |s.traces| + 1 && Passed(now.traces) == Passed(s.traces) + 1
      && CountOf(now.traces, HarnessError) == CountOf(s.traces, HarnessError)
      && |now.bypassHashes| - CountOf(now.traces, Bypass) == |s.bypassHashes| - CountOf(s.traces, Bypass)
      && |now.matches| - CountOf(now.traces, KnownBypassMatch) == |s.matches| - CountOf(s.traces, KnownBypassMatch)
  {
    RecordCounts(s, p, KnownBypassMatch, Reported, claimed, c);
    RecordCounts(s, p, verdict, Reported, claimed, c);
  }

  lemma ReportKeeps(s: State, p: Produced, cells: seq<Slot>, verdict: Status, claimed: set<Key>, c: Config)
    requires Passing(s, p, claimed, c) && verdict != HarnessError && verdict != KnownBypassMatch
    ensures Inv(Settle(s, p, cells, verdict, claimed, c), c)
  {
    SettleKeeps(s, p, cells, verdict, claimed, c);
    SettleCounts(s, p, cells, verdict, claimed, c);
  }

  lemma VerdictIsJudged(r: Report, c: Config)
    ensures
      var v := Judge.Judge(r, c.threshold, c.rules, c.modeGaps);
      v.Some? ==> v.value != HarnessError && v.value != KnownBypassMatch
  {
  }

  /** One attempt keeps every invariant. */
  lemma StepKeeps(s: State, p: Produced, cells: seq<Slot>, c: Config)
    requires Inv(s, c) && (cells == [] <==> c.rules == [])
    ensures Step(s, p, cells, c).Some? ==> Inv(Step(s, p, cells, c).value, c)
  {
    var (mid, gate) := Validate(s, p, cells, c);
    if gate.Stop? {
      StopKeeps(s, p, cells, c);
    } else {
      GoIsNew(s, p, cells, c);
      AnalyseKeeps(mid, p, cells, gate.claimed, c);
    }
  }

  lemma AnalyseKeeps(s: State, p: Produced, cells: seq<Slot>, claimed: set<Key>, c: Config)
    requires Passing(s, p, claimed, c)
    ensures Analyse(s, p, cells, claimed, c).Some? ==> Inv(Analyse(s, p, cells, claimed, c).value, c)
  {
    match p.analysis
    case Refuses =>
    case Fails =>
      if !Aborts(s.errors + 1, |s.traces| + 1) {
        FailSound(s, p, claimed, c);
        FailCounts(s, p, claimed, c);
      }
    case Gives(report) =>
      VerdictIsJudged(report, c);
      var verdict := Judge.Judge(report, c.threshold, c.rules, c.modeGaps);
      if verdict.Some? { ReportKeeps(s, p, cells, verdict.value, claimed, c); }
  }

  lemma StepTraces(s: State, p: Produced, cells: seq<Slot>, c: Config)
    requires Step(s, p, cells, c).Some?
    ensures |Step(s, p, cells, c).value.traces| == |s.traces| + 1
    ensures |Step(s, p, cells, c).value.bypassHashes| <= |s.bypassHashes| + 1
  {
  }

  predicate WithinStops(s: State, c: Config) {
    |s.traces| <= c.attempts && (c.stopAfter > 0 ==> |s.bypassHashes| <= c.stopAfter)
  }

  /**
   * A campaign that ends with a record: fresh bypasses are distinct and none was known, a patch status belongs to an
   * attempt that was reported on, observations are duplicates and passes, errors stay below ten or a fifth, and the
   * declared stops hold.
   */
  lemma {:induction false} RunKeeps(s: State, ps: seq<Produced>, c: Config, id: (string, seq<string>) -> string)
    requires Inv(s, c) && WithinStops(s, c) && Run(s, ps, c, id).Some?
    ensures Inv(Run(s, ps, c, id).value, c) && WithinStops(Run(s, ps, c, id).value, c)
    decreases |ps|
  {
    if !Done(s, c) && ps != [] {
      var cells := CellsFor(c.rules, ps[0], id);
      StepKeeps(s, ps[0], cells, c);
      StepTraces(s, ps[0], cells, c);
      RunKeeps(Step(s, ps[0], cells, c).value, ps[1..], c, id);
    }
  }

  /** The same from the start of a campaign, with nothing assumed. */
  lemma CampaignKeeps(grid: A.Grid, ps: seq<Produced>, c: Config, id: (string, seq<string>) -> string)
    requires Run(Start(grid), ps, c, id).Some?
    ensures Inv(Run(Start(grid), ps, c, id).value, c) && WithinStops(Run(Start(grid), ps, c, id).value, c)
  {
    RunKeeps(Start(grid), ps, c, id);
  }

  // ---- What was analysed in a run ----

  lemma {:induction false} RunExtends(s: State, ps: seq<Produced>, c: Config, id: (string, seq<string>) -> string)
    requires Run(s, ps, c, id).Some?
    ensures s.traces <= Run(s, ps, c, id).value.traces && |Run(s, ps, c, id).value.traces| <= |s.traces| + |ps|
    decreases |ps|
  {
    if !Done(s, c) && ps != [] {
      var cells := CellsFor(c.rules, ps[0], id);
      StepTrace(s, ps[0], cells, c);
      RunExtends(Step(s, ps[0], cells, c).value, ps[1..], c, id);
    }
  }

  lemma StepTrace(s: State, p: Produced, cells: seq<Slot>, c: Config)
    requires Step(s, p, cells, c).Some?
    ensures
      var now := Step(s, p, cells, c).value.traces;
      && |now| == |s.traces| + 1 && s.traces <= now
      && now[|s.traces|].digest == p.digest && (now[|s.traces|].reached != Stopped <==> Passes(s, p, cells, c))
  {
    AnalysedIff(s, p, cells, c);
  }

  /**
   * In a campaign that ends with a record, attempt `i` was analysed exactly when it passed the state the run was in when it
   * came up: with expected rules some cell was open then, and some key had not been measured.
   */
  lemma {:induction false} RunAnalysed(s: State, ps: seq<Produced>, c: Config, id: (string, seq<string>) -> string, i: nat)
    requires Run(s, ps, c, id).Some? && |s.traces| <= i < |Run(s, ps, c, id).value.traces|
    ensures
      var (k, now) := (i - |s.traces|, Run(s, ps, c, id).value);
      && k < |ps| && Run(s, ps[..k], c, id).Some?
      && Run(s, ps[..k], c, id).value.traces == now.traces[..i] && now.traces[i].digest == ps[k].digest
      && (now.traces[i].reached != Stopped <==> Passes(Run(s, ps[..k], c, id).value, ps[k], CellsFor(c.rules, ps[k], id), c))
    decreases |ps|
  {
    RunExtends(s, ps, c, id);
    var cells := CellsFor(c.rules, ps[0], id);
    var next := Step(s, ps[0], cells, c).value;
    StepTrace(s, ps[0], cells, c);
    RunExtends(next, ps[1..], c, id);
    if i > |s.traces| {
      RunAnalysed(next, ps[1..], c, id, i);
      var k := i - |s.traces|;
      assert ps[..k][0] == ps[0] && ps[..k][1..] == ps[1..][..k - 1];
    }
  }

  // ---- What a report comes to ----

  /** The report of a patch that held: a FATAL finding, or a score above the threshold and no gap but the mode's. */
  predicate Caught(r: Report, c: Config) {
    || (exists f :: f in r.findings && f.severity == "FATAL")
    || (r.score > c.threshold && forall g :: g in r.gaps ==> g in c.modeGaps)
  }

  /** The report of a bypass: no FATAL finding, no gap but the mode's, and a score that does not exceed the threshold. */
  predicate Unflagged(r: Report, c: Config) {
    && (forall f :: f in r.findings ==> f.severity != "FATAL")
    && (forall g :: g in r.gaps ==> g in c.modeGaps) && r.score <= c.threshold
  }

  /** What one attempt on record says of the report it was made from, and of the patch statuses. */
  ghost predicate Told(now: State, i: nat, p: Produced, c: Config)
    requires i < |now.traces|
  {
    var t := now.traces[i];
    && (t.reached == Reported ==> p.analysis.Gives?)
    && (t.reached == Reported ==>
          (t.status == Bypass <==> p.digest !in c.known && Unflagged(p.analysis.report, c)))
    && ((exists m :: m in now.matches && m.attempt == i) <==> t.reached == Reported && p.digest in c.known)
    && (forall m :: m in now.matches && m.attempt == i ==>
          m.digest == p.digest && p.analysis.Gives? && (m.held <==> Caught(p.analysis.report, c)))
  }

  /** The patch statuses on record are those of attempts on record. */
  predicate MatchesWithin(s: State) { forall m :: m in s.matches ==> m.attempt < |s.traces| }

  lemma StepTells(s: State, p: Produced, cells: seq<Slot>, c: Config)
    requires MatchesWithin(s) && Step(s, p, cells, c).Some?
    ensures
      var now := Step(s, p, cells, c).value;
      && |now.traces| == |s.traces| + 1 && MatchesWithin(now) && Told(now, |s.traces|, p, c)
      && s.matches <= now.matches && forall m :: m in now.matches[|s.matches|..] ==> m.attempt == |s.traces|
  {
    StepTrace(s, p, cells, c);
    var (mid, gate) := Validate(s, p, cells, c);
    assert mid.traces == s.traces && mid.matches == s.matches;
    var now := Step(s, p, cells, c).value;
    if gate.Go? && p.analysis.Gives? {
      var verdict := Judge.Judge(p.analysis.report, c.threshold, c.rules, c.modeGaps).value;
      SettleTells(mid, p, cells, verdict, gate.claimed, c);
    } else {
      assert now.matches == s.matches;
    }
  }

  lemma SettleTells(s: State, p: Produced, cells: seq<Slot>, verdict: Status, claimed: set<Key>, c: Config)
    requires MatchesWithin(s) && p.analysis.Gives?
    requires Judge.Judge(p.analysis.report, c.threshold, c.rules, c.modeGaps) == Some(verdict)
    ensures
      var now := Settle(s, p, cells, verdict, claimed, c);
      && MatchesWithin(now) && Told(now, |s.traces|, p, c)
      && s.matches <= now.matches && forall m :: m in now.matches[|s.matches|..] ==> m.attempt == |s.traces|
  {
    var now := Settle(s, p, cells, verdict, claimed, c);
    if p.digest in c.known {
      var m := now.matches[|s.matches|];
      assert now.matches == s.matches + [m];
      assert m in now.matches;
    }
  }

  lemma {:induction false} RunKeepsMatches(s: State, ps: seq<Produced>, c: Config, id: (string, seq<string>) -> string)
    requires MatchesWithin(s) && Run(s, ps, c, id).Some?
    ensures
      var now := Run(s, ps, c, id).value;
      && s.matches <= now.matches && MatchesWithin(now)
      && forall m :: m in now.matches[|s.matches|..] ==> m.attempt >= |s.traces|
    decreases |ps|
  {
    if !Done(s, c) && ps != [] {
      var cells := CellsFor(c.rules, ps[0], id);
      StepTells(s, ps[0], cells, c);
      var next := Step(s, ps[0], cells, c).value;
      RunKeepsMatches(next, ps[1..], c, id);
      var now := Run(s, ps, c, id).value;
      assert now.matches[|s.matches|..] == next.matches[|s.matches|..] + now.matches[|next.matches|..];
    }
  }

  /** What an attempt says stays said: later attempts add traces and patch statuses of their own. */
  lemma ToldStays(s: State, now: State, i: nat, p: Produced, c: Config)
    requires i < |s.traces| && s.traces <= now.traces && s.matches <= now.matches && Told(s, i, p, c)
    requires forall m :: m in now.matches[|s.matches|..] ==> m.attempt >= |s.traces|
    ensures Told(now, i, p, c)
  {
    assert now.matches == s.matches + now.matches[|s.matches|..];
    assert forall m :: m in now.matches && m.attempt == i ==> m in s.matches;
    assert forall m :: m in s.matches ==> m in now.matches;
  }

  /**
   * In a campaign that ends with a record, an attempt that was reported on is a bypass exactly when it is new and its
   * report flags nothing, and has a patch status exactly when it is a known one; and that status says the patch held
   * exactly when the report caught it.
   */
  lemma {:induction false} RunTells(s: State, ps: seq<Produced>, c: Config, id: (string, seq<string>) -> string, i: nat)
    requires MatchesWithin(s) && Run(s, ps, c, id).Some? && |s.traces| <= i < |Run(s, ps, c, id).value.traces|
    ensures i - |s.traces| < |ps| && Told(Run(s, ps, c, id).value, i, ps[i - |s.traces|], c)
    decreases |ps|
  {
    RunExtends(s, ps, c, id);
    var cells := CellsFor(c.rules, ps[0], id);
    var next := Step(s, ps[0], cells, c).value;
    StepTells(s, ps[0], cells, c);
    if i > |s.traces| {
      RunTells(next, ps[1..], c, id, i);
    } else {
      RunExtends(next, ps[1..], c, id);
      RunKeepsMatches(next, ps[1..], c, id);
      ToldStays(next, Run(s, ps, c, id).value, i, ps[0], c);
    }
  }

  // ---- Measurements are distinct ----

  function Claimed(traces: seq<Trace>): set<Key> {
    if traces == [] then {}
    else
      var t := traces[|traces| - 1];
      Claimed(traces[..|traces| - 1]) + (if t.reached != Stopped then t.claimed else {})
  }

  /** One of the first `n` attempts went on and was the first to measure `k`. */
  ghost predicate MeasuredBy(traces: seq<Trace>, n: nat, k: Key)
    requires n <= |traces|
  {
    exists i :: 0 <= i < n && traces[i].reached != Stopped && k in traces[i].claimed
  }

  lemma ClaimsApart(s: State, c: Config, n: nat, claimed: set<Key>)
    requires TracesOk(s, c) && c.rules != [] && n < |s.traces| && s.traces[n].reached != Stopped
    requires forall k :: k in claimed ==> MeasuredBy(s.traces, n, k)
    ensures claimed !! s.traces[n].claimed && s.traces[n].claimed != {} && s.traces[n].claimed <= s.keys
  {
    forall k | k in claimed ensures k !in s.traces[n].claimed {
      var i :| 0 <= i < n && s.traces[i].reached != Stopped && k in s.traces[i].claimed;
    }
  }

  lemma {:induction false} ClaimedCount(s: State, c: Config, n: nat)
    requires TracesOk(s, c) && c.rules != [] && n <= |s.traces|
    ensures Passed(s.traces[..n]) <= |Claimed(s.traces[..n])| && Claimed(s.traces[..n]) <= s.keys
    ensures forall k :: k in Claimed(s.traces[..n]) ==> MeasuredBy(s.traces, n, k)
  {
    hide TracesOk;
    if n > 0 {
      ClaimedCount(s, c, n - 1);
      var front, t := s.traces[..n - 1], s.traces[n - 1];
      assert s.traces[..n][..n - 1] == front && s.traces[..n][n - 1] == t;
      if t.reached != Stopped {
        ClaimsApart(s, c, n - 1, Claimed(front));
        AddNonEmpty(Claimed(front), t.claimed);
      }
    }
  }

  lemma AddNonEmpty(a: set<Key>, b: set<Key>)
    requires a !! b && b != {}
    ensures |a| + 1 <= |a + b|
  {
    var k :| k in b;
    assert (a + b) - a == b;
    assert |b| >= 1;
  }

  /** A campaign with expected rules analyses no more attempts than it measures distinct keys. */
  lemma MeasurementsDistinct(s: State, c: Config)
    requires Inv(s, c) && c.rules != []
    ensures Passed(s.traces) <= |s.keys| && s.observations - s.duplicates <= |s.keys|
  {
    PassedDistinct(s, c);
  }

  lemma PassedDistinct(s: State, c: Config)
    requires TracesOk(s, c) && c.rules != []
    ensures Passed(s.traces) <= |s.keys|
  {
    ClaimedCount(s, c, |s.traces|);
    assert s.traces[..|s.traces|] == s.traces;
    SubsetSize(Claimed(s.traces), s.keys);
  }

  // ---- Filled cells hold this campaign's observations ----

  ghost predicate HasObservation(g: A.Grid, id: string, c: Config) {
    id in g && exists o :: o in g[id].observations && o.key.campaign == c.name && o.key.version == c.version
  }

  lemma {:induction false} ObserveAllHas(g: A.Grid, cells: seq<Slot>, p: Produced, attempt: nat, c: Config, id: string)
    ensures HasObservation(g, id, c) || (exists x :: x in cells && x.id == id) ==>
      HasObservation(ObserveAll(g, cells, p, attempt, c), id, c)
    decreases |cells|
  {
    if cells != [] {
      var o := A.Obs(A.ObsKey(c.name, attempt, c.version), p.cost);
      var next := P.ObserveIn(g, cells[0].id, p.representative, o, p.degraded);
      if cells[0].id == id { assert o in next[id].observations; }
      if HasObservation(g, id, c) {
        var was :| was in g[id].observations && was.key.campaign == c.name && was.key.version == c.version;
        assert was in next[id].observations;
      }
      ObserveAllHas(next, cells[1..], p, attempt, c, id);
    }
  }

  lemma {:induction false} NoteAllHas(g: A.Grid, cells: seq<Slot>, c: Config, id: string)
    requires HasObservation(g, id, c)
    ensures HasObservation(NoteAll(g, cells, c.version), id, c)
    decreases |cells|
  {
    if cells != [] {
      var next := P.NoteDuplicateIn(g, cells[0].id, c.version);
      assert next[id].observations == g[id].observations;
      NoteAllHas(next, cells[1..], c, id);
    }
  }

  ghost predicate FilledOk(s: State, c: Config) { forall id :: id in s.filled ==> HasObservation(s.grid, id, c) }

  lemma ValidateFilled(s: State, p: Produced, cells: seq<Slot>, c: Config)
    requires FilledOk(s, c)
    ensures FilledOk(Validate(s, p, cells, c).0, c)
  {
    forall id | id in s.filled ensures HasObservation(NoteAll(s.grid, cells, c.version), id, c) {
      NoteAllHas(s.grid, cells, c, id);
    }
  }

  lemma SettleFilled(s: State, p: Produced, cells: seq<Slot>, verdict: Status, claimed: set<Key>, c: Config)
    requires FilledOk(s, c)
    ensures FilledOk(Settle(s, p, cells, verdict, claimed, c), c)
  {
    var ids := set x | x in cells :: x.id;
    forall id | id in s.filled + ids ensures HasObservation(ObserveAll(s.grid, cells, p, |s.traces|, c), id, c) {
      ObserveAllHas(s.grid, cells, p, |s.traces|, c, id);
    }
  }

  /** Every cell a campaign reports as filled holds an observation of that campaign at that version. */
  lemma {:induction false} RunFills(s: State, ps: seq<Produced>, c: Config, id: (string, seq<string>) -> string)
    requires FilledOk(s, c) && Run(s, ps, c, id).Some?
    ensures FilledOk(Run(s, ps, c, id).value, c)
    decreases |ps|
  {
    if !Done(s, c) && ps != [] {
      var cells := CellsFor(c.rules, ps[0], id);
      ValidateFilled(s, ps[0], cells, c);
      var (mid, gate) := Validate(s, ps[0], cells, c);
      if gate.Go? && ps[0].analysis.Gives? {
        var verdict := Judge.Judge(ps[0].analysis.report, c.threshold, c.rules, c.modeGaps);
        if verdict.Some? { SettleFilled(mid, ps[0], cells, verdict.value, gate.claimed, c); }
      }
      RunFills(Step(s, ps[0], cells, c).value, ps[1..], c, id);
    }
  }
}
