/** `harness/judge.py`: one status for one report, and what it can never do. */
module Judge {
  import opened Options

  datatype Status =
    | SanitizationFailure | Duplicate | SyntaxError | ConstraintViolation | BehaviorLost
    | Detected | PartialEvasion | Inconclusive | FailClosedCatch | Bypass | KnownBypassMatch | HarnessError

  datatype Finding = Finding(rule: string, severity: string)

  datatype Report = Report(findings: seq<Finding>, score: int, gaps: seq<string>)

  const KNOWN_SEVERITIES := {"FATAL", "CRITICAL", "HIGH", "MEDIUM", "LOW", "INFO", ""}
  const KNOWN_GAPS := {
    "diff_truncated", "scan_truncated", "line_truncated", "tree_not_analyzed", "unresolved_source",
    "unresolved_parse_time", "snapshot_refused", "unpinned_build_deps", "companion_truncated", "deps_not_scanned",
    "ruleset_drifted", "stage_degraded", "history_truncated", "noextract_suppressed", "binary_metadata",
    "tokenizer_unavailable", "partial_hunk", "partial_file_analysis", "parent_baseline", "upstream_manifest_incomplete"}

  /** The gaps that are not merely those of the analysis mode. */
  predicate HasGap(r: Report, modeGaps: set<string>) { exists g :: g in r.gaps && g !in modeGaps }

  predicate Fatal(r: Report) { exists f :: f in r.findings && f.severity == "FATAL" }

  predicate Fires(r: Report, rules: seq<string>) { exists f :: f in r.findings && f.rule in rules }

  /** Nothing in the report is outside the vocabularies. */
  predicate Understood(r: Report, modeGaps: set<string>) {
    && (forall f :: f in r.findings ==> f.severity in KNOWN_SEVERITIES)
    && (forall g :: g in r.gaps && g !in modeGaps ==> g in KNOWN_GAPS)
  }

  /** The matrix; `None` is the error for a report it was not written for. */
  function Judge(r: Report, threshold: int, rules: seq<string>, modeGaps: set<string>): Option<Status> {
    if !Understood(r, modeGaps) then None
    else if Fatal(r) then Some(Detected)
    else if HasGap(r, modeGaps) then Some(FailClosedCatch)
    else if r.score > threshold then
      if rules == [] then Some(Inconclusive) else if Fires(r, rules) then Some(Detected) else Some(PartialEvasion)
    else Some(Bypass)
  }

  /**
   * Which report comes to which status: a FATAL finding is a detection whatever else there is, a gap forbids any other
   * answer, and above the threshold the expected rules say how much of the payload was caught.
   */
  lemma StatusIff(r: Report, threshold: int, rules: seq<string>, modeGaps: set<string>)
    requires Judge(r, threshold, rules, modeGaps).Some?
    ensures
      var status := Judge(r, threshold, rules, modeGaps).value;
      var fatal := exists f :: f in r.findings && f.severity == "FATAL";
      var clear := forall g :: g in r.gaps ==> g in modeGaps;
      var expected := exists f :: f in r.findings && f.rule in rules;
      && (status == FailClosedCatch <==> !fatal && !clear)
      && (status == Bypass <==> !fatal && clear && r.score <= threshold)
      && (status == Detected <==> fatal || (clear && r.score > threshold && expected))
      && (status == PartialEvasion <==> !fatal && clear && r.score > threshold && rules != [] && !expected)
      && (status == Inconclusive <==> !fatal && clear && r.score > threshold && rules == [])
  {
  }

  /** Everything one report shows, the other shows too. */
  predicate ShowsMore(more: Report, less: Report) {
    && (forall f :: f in less.findings ==> f in more.findings)
    && (forall g :: g in less.gaps ==> g in more.gaps) && less.score <= more.score
  }

  /** Showing more never turns anything into a bypass: the bypasses are closed downwards. */
  lemma BypassOnlyByShowingLess(more: Report, less: Report, threshold: int, rules: seq<string>, modeGaps: set<string>)
    requires ShowsMore(more, less) && Judge(more, threshold, rules, modeGaps) == Some(Bypass)
    ensures Judge(less, threshold, rules, modeGaps) == Some(Bypass)
  {
  }

  function Unmasked(gaps: seq<string>, modeGaps: set<string>): seq<string> {
    if gaps == [] then [] else (if gaps[0] in modeGaps then [] else [gaps[0]]) + Unmasked(gaps[1..], modeGaps)
  }

  lemma {:induction false} UnmaskedHas(gaps: seq<string>, modeGaps: set<string>, g: string)
    ensures g in Unmasked(gaps, modeGaps) <==> g in gaps && g !in modeGaps
  {
    if gaps != [] {
      UnmaskedHas(gaps[1..], modeGaps, g);
    }
  }

  /** A gap of the analysis mode counts as if it were not in the report at all, whatever else is. */
  lemma MaskingIsRemoval(r: Report, threshold: int, rules: seq<string>, modeGaps: set<string>)
    ensures Judge(r, threshold, rules, modeGaps) == Judge(r.(gaps := Unmasked(r.gaps, modeGaps)), threshold, rules, {})
  {
    forall g ensures g in Unmasked(r.gaps, modeGaps) <==> g in r.gaps && g !in modeGaps {
      UnmaskedHas(r.gaps, modeGaps, g);
    }
  }

  /** And the expected rules never decide whether something is a bypass. */
  lemma RulesDoNotDecideBypass(r: Report, threshold: int, rules: seq<string>, others: seq<string>, modeGaps: set<string>)
    ensures Judge(r, threshold, rules, modeGaps) == Some(Bypass) <==> Judge(r, threshold, others, modeGaps) == Some(Bypass)
  {
  }
}
