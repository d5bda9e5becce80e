/** `harness/fp_report.py`, `write_report`: whole calls, whole runs of them, and the loops they are made of. */
module TriageRuns {
  import opened Triage
  import opened Options
  import opened Sets

  // ---- A retained corpus means a complete benign adjudication ----

  /** An entry that keeps a corpus has a judgment for every finding of its evidence, none of them TP or uncertain. */
  lemma CorpusMeansJudged(en: Entry, r: Rules, i: int)
    requires EntryOk(en, r) && en.corpusPaths != [] && 0 <= i < |en.evidence.package.findings|
    ensures exists j :: j in en.verdicts.findings && j.index == i && j.verdict in {FP, TPButBenign, Overweighted}
  {
    var js, n := en.verdicts.findings, |en.evidence.package.findings|;
    var m := ByIndex(js);
    ByIndexCount(js);
    KeyedByIndex(js, n);
    assert m.Keys <= Below(n) && |m.Keys| == n;
    if i !in m.Keys {
      SubsetSize(m.Keys, Below(n) - {i});
      assert false;
    }
    ByIndexOf(js, i);
  }

  // ---- Reports, one after another ----

  /** A report, and how many artifact writes go through before one fails; beyond them all, the record is replaced too. */
  datatype Call = Call(evidence: Evidence, verdicts: Verdicts, diff: Option<string>, writes: nat)

  /** The records by date, and the artifact files by date and name. */
  datatype State = State(records: map<string, Record>, artifacts: set<(string, string)>)

  function RecordFor(st: State, date: string): Record { if date in st.records then st.records[date] else [] }

  function CorpusFor(groups: seq<Group>, diff: Option<string>, r: Rules): Option<string>
    requires groups != []
  {
    if diff.None? then None else Some(r.corpusName(groups[0].package.name, diff.value))
  }

  function ReportNames(slug: string, groups: seq<Group>, r: Rules): seq<string> {
    if groups == [] then [] else [r.reportName(slug, groups[0].package.name)] + ReportNames(slug, groups[1..], r)
  }

  function Artifacts(slug: string, groups: seq<Group>, corpus: Option<string>, r: Rules): seq<string> {
    ReportNames(slug, groups, r) + (if corpus.Some? then [corpus.value] else [])
  }

  /** The record a call leads to and the artifacts it writes first; `None` when any validation refuses it. */
  function Plan(rec: Record, c: Call, r: Rules, fits: Record -> bool): Option<(Record, seq<string>)> {
    var e := c.evidence;
    match Select(e.slug, e.packages, c.verdicts, r)
    case None => None
    case Some(groups) =>
      if groups == [] || (c.diff.Some? && (!r.diffOk(c.diff.value) || |groups| != 1)) then None
      else if !Loads(rec, r.dateOf(e.slug), r) then None
      else
        var corpus := CorpusFor(groups, c.diff, r);
        match Merge(rec, e, groups, c.verdicts.fields, corpus, r)
        case None => None
        case Some(now) => if fits(now) then Some((now, Artifacts(e.slug, groups, corpus, r))) else None
  }

  function Tagged(date: string, names: seq<string>): set<(string, string)> { set n | n in names :: (date, n) }

  predicate Completes(st: State, c: Call, r: Rules, fits: Record -> bool) {
    var plan := Plan(RecordFor(st, r.dateOf(c.evidence.slug)), c, r, fits);
    plan.Some? && c.writes > |plan.value.1|
  }

  function Step(st: State, c: Call, r: Rules, fits: Record -> bool): State {
    var date := r.dateOf(c.evidence.slug);
    match Plan(RecordFor(st, date), c, r, fits)
    case None => st
    case Some((now, names)) =>
      var done := names[..if c.writes < |names| then c.writes else |names|];
      State(if c.writes > |names| then st.records[date := now] else st.records, st.artifacts + Tagged(date, done))
  }

  function Run(st: State, calls: seq<Call>, r: Rules, fits: Record -> bool): State
    decreases |calls|
  {
    if calls == [] then st else Run(Step(st, calls[0], r, fits), calls[1..], r, fits)
  }

  predicate Named(en: Entry, date: string, files: set<(string, string)>) {
    (date, en.reportPath) in files && forall c :: c in en.corpusPaths ==> (date, c) in files
  }

  /** Every record is sound, and every artifact an entry names has been written. */
  predicate StateOk(st: State, r: Rules) {
    forall date :: date in st.records ==>
      RecordOk(st.records[date], date, r) && forall en :: en in st.records[date] ==> Named(en, date, st.artifacts)
  }

  lemma {:induction false} MergeNamed(rec: Record, e: Evidence, groups: seq<Group>, fields: map<string, Value>,
      corpus: Option<string>, r: Rules, date: string, files: set<(string, string)>)
    requires Merge(rec, e, groups, fields, corpus, r).Some? && IdentitiesDistinct(rec)
    requires forall en :: en in rec ==> Named(en, date, files)
    requires forall g :: g in groups ==> (date, r.reportName(e.slug, g.package.name)) in files
    requires corpus.Some? ==> (date, corpus.value) in files
    ensures forall en :: en in Merge(rec, e, groups, fields, corpus, r).value ==> Named(en, date, files)
    decreases |groups|
  {
    if groups != [] {
      var prev := Lookup(rec, e.slug, groups[0].package.name);
      var en := Next(prev, e, groups[0], fields, corpus, r).value;
      assert groups[0] in groups;
      StoreAt(rec, en, r);
      MergeNamed(Store(rec, en), e, groups[1..], fields, corpus, r, date, files);
    }
  }

  lemma {:induction false} ReportNamesHave(slug: string, groups: seq<Group>, r: Rules, g: Group)
    requires g in groups
    ensures r.reportName(slug, g.package.name) in ReportNames(slug, groups, r)
  {
    if groups[0] != g {
      ReportNamesHave(slug, groups[1..], r, g);
    }
  }

  lemma PlanReports(rec: Record, c: Call, r: Rules, fits: Record -> bool)
    requires Sensible(r) && Plan(rec, c, r, fits).Some?
    ensures
      var groups := Select(c.evidence.slug, c.evidence.packages, c.verdicts, r).value;
      && groups != [] && NamesDistinct(groups)
      && Report(c.evidence, groups, c.verdicts.fields, CorpusFor(groups, c.diff, r), r)
      && Merge(rec, c.evidence, groups, c.verdicts.fields, CorpusFor(groups, c.diff, r), r) == Some(Plan(rec, c, r, fits).value.0)
      && Plan(rec, c, r, fits).value.1 == Artifacts(c.evidence.slug, groups, CorpusFor(groups, c.diff, r), r)
  {
    SelectSound(c.evidence.slug, c.evidence.packages, c.verdicts, r);
  }

  /** A planned record is sound, extends the present one, and names only artifacts already there or among those to write. */
  lemma PlanKeeps(rec: Record, c: Call, r: Rules, fits: Record -> bool, files: set<(string, string)>)
    requires Sensible(r) && Plan(rec, c, r, fits).Some?
    requires RecordOk(rec, r.dateOf(c.evidence.slug), r)
    requires forall en :: en in rec ==> Named(en, r.dateOf(c.evidence.slug), files)
    ensures
      var date := r.dateOf(c.evidence.slug);
      var (now, names) := Plan(rec, c, r, fits).value;
      && RecordOk(now, date, r) && Grew(now, rec)
      && forall en :: en in now ==> Named(en, date, files + Tagged(date, names))
  {
    PlanReports(rec, c, r, fits);
    var e, date := c.evidence, r.dateOf(c.evidence.slug);
    var groups := Select(e.slug, e.packages, c.verdicts, r).value;
    var corpus := CorpusFor(groups, c.diff, r);
    MergeKeeps(rec, e, groups, c.verdicts.fields, corpus, date, r);
    var names := Artifacts(e.slug, groups, corpus, r);
    forall g | g in groups ensures (date, r.reportName(e.slug, g.package.name)) in files + Tagged(date, names) {
      ReportNamesHave(e.slug, groups, r, g);
      assert r.reportName(e.slug, g.package.name) in names;
    }
    MergeNamed(rec, e, groups, c.verdicts.fields, corpus, r, date, files + Tagged(date, names));
  }

  /** More artifacts, and perhaps one record replaced by a sound one they cover. */
  lemma StateOkUpdate(st: State, date: string, now: Record, files: set<(string, string)>, r: Rules)
    requires StateOk(st, r) && st.artifacts <= files
    ensures StateOk(State(st.records, files), r)
    ensures RecordOk(now, date, r) && (forall en :: en in now ==> Named(en, date, files)) ==>
      StateOk(State(st.records[date := now], files), r)
  {
  }

  lemma StepSound(st: State, c: Call, r: Rules, fits: Record -> bool)
    requires Sensible(r) && StateOk(st, r)
    ensures StateOk(Step(st, c, r, fits), r)
  {
    var date := r.dateOf(c.evidence.slug);
    var rec := RecordFor(st, date);
    var plan := Plan(rec, c, r, fits);
    if plan.Some? {
      PlanKeeps(rec, c, r, fits, st.artifacts);
      var (now, names) := plan.value;
      assert names[..|names|] == names;
      var done := names[..if c.writes < |names| then c.writes else |names|];
      StateOkUpdate(st, date, now, st.artifacts + Tagged(date, done), r);
    }
  }

  /** One call: the state stays sound, a call that does not complete leaves every record alone, and one that does touches one date. */
  lemma StepKeeps(st: State, c: Call, r: Rules, fits: Record -> bool)
    requires Sensible(r) && StateOk(st, r)
    ensures StateOk(Step(st, c, r, fits), r)
    ensures !Completes(st, c, r, fits) ==> Step(st, c, r, fits).records == st.records
    ensures forall d :: d != r.dateOf(c.evidence.slug) ==> RecordFor(Step(st, c, r, fits), d) == RecordFor(st, d)
    ensures Grew(RecordFor(Step(st, c, r, fits), r.dateOf(c.evidence.slug)), RecordFor(st, r.dateOf(c.evidence.slug)))
  {
    StepSound(st, c, r, fits);
    var rec := RecordFor(st, r.dateOf(c.evidence.slug));
    if Plan(rec, c, r, fits).Some? {
      PlanKeeps(rec, c, r, fits, st.artifacts);
    }
  }

  /** Over any run of reports: sound records that only grow, entry by entry, from the empty record of every date on. */
  lemma {:induction false} RunKeeps(st: State, calls: seq<Call>, r: Rules, fits: Record -> bool)
    requires Sensible(r) && StateOk(st, r)
    ensures StateOk(Run(st, calls, r, fits), r)
    ensures forall d :: Grew(RecordFor(Run(st, calls, r, fits), d), RecordFor(st, d))
    ensures forall d :: Loads(RecordFor(Run(st, calls, r, fits), d), d, r)
    decreases |calls|
  {
    if calls == [] {
      forall d ensures Loads(RecordFor(st, d), d, r) {
        SoundLoads(RecordFor(st, d), d, r);
      }
    } else {
      var next := Step(st, calls[0], r, fits);
      StepKeeps(st, calls[0], r, fits);
      RunKeeps(next, calls[1..], r, fits);
      forall d ensures Grew(RecordFor(Run(st, calls, r, fits), d), RecordFor(st, d)) {
        assert Grew(RecordFor(next, d), RecordFor(st, d));
        GrewTransitive(RecordFor(st, d), RecordFor(next, d), RecordFor(Run(next, calls[1..], r, fits), d));
      }
    }
  }

  /** A completed report submitted again is refused only for size, and then or now no verdict changes. */
  lemma Resubmission(rec: Record, c: Call, r: Rules, fits: Record -> bool)
    requires Sensible(r) && RecordOk(rec, r.dateOf(c.evidence.slug), r) && Plan(rec, c, r, fits).Some?
    ensures
      var once := Plan(rec, c, r, fits).value.0;
      && (Plan(once, c, r, _ => true).Some? && AllSame(Plan(once, c, r, _ => true).value.0, once))
      && (Plan(once, c, r, fits).Some? <==> fits(Plan(once, c, r, _ => true).value.0))
      && (Plan(once, c, r, fits).Some? ==> AllSame(Plan(once, c, r, fits).value.0, once))
  {
    PlanReports(rec, c, r, fits);
    var e, date := c.evidence, r.dateOf(c.evidence.slug);
    var groups := Select(e.slug, e.packages, c.verdicts, r).value;
    var corpus := CorpusFor(groups, c.diff, r);
    MergeKeeps(rec, e, groups, c.verdicts.fields, corpus, date, r);
    MergeTwice(rec, e, groups, c.verdicts.fields, corpus, date, r);
    SoundLoads(Plan(rec, c, r, fits).value.0, date, r);
  }

  // ---- The loops ----

  lemma {:induction false} JudgedPut(groups: seq<Group>, p: Package, j: Judgment, name: string, i: int)
    ensures Judged(Put(groups, p, j), name, i) <==> Judged(groups, name, i) || (name == p.name && i == j.index)
  {
    if groups == [] {
      assert HasIndex([j], i) <==> i == j.index by { assert j in [j]; }
      assert Put(groups, p, j) == [Group(p, [j])];
    } else if groups[0].package.name == p.name {
      HasIndexAppend(groups[0].findings, j, i);
      JudgedCons(groups[0].(findings := groups[0].findings + [j]), groups[1..], name, i);
      JudgedCons(groups[0], groups[1..], name, i);
    } else {
      JudgedPut(groups[1..], p, j, name, i);
      JudgedCons(groups[0], Put(groups[1..], p, j), name, i);
      JudgedCons(groups[0], groups[1..], name, i);
    }
  }

  lemma HasIndexAppend(js: seq<Judgment>, j: Judgment, i: int)
    ensures HasIndex(js + [j], i) <==> HasIndex(js, i) || j.index == i
  {
    assert j in js + [j];
    if HasIndex(js, i) {
      var k :| k in js && k.index == i;
      assert k in js + [j];
    }
  }

  lemma JudgedCons(g: Group, rest: seq<Group>, name: string, i: int)
    ensures Judged([g] + rest, name, i) <==> (g.package.name == name && HasIndex(g.findings, i)) || Judged(rest, name, i)
  {
    assert g in [g] + rest;
    if Judged(rest, name, i) {
      var h :| h in rest && h.package.name == name && HasIndex(h.findings, i);
      assert h in [g] + rest;
    }
  }

  lemma SeenPut(groups: seq<Group>, p: Package, j: Judgment, seen: set<(string, int)>)
    requires forall n, i :: (n, i) in seen <==> Judged(groups, n, i)
    ensures forall n, i :: (n, i) in seen + {(p.name, j.index)} <==> Judged(Put(groups, p, j), n, i)
  {
    forall n, i ensures (n, i) in seen + {(p.name, j.index)} <==> Judged(Put(groups, p, j), n, i) {
      JudgedPut(groups, p, j, n, i);
    }
  }

  /** The check of the packages, with the names met so far. */
  method CheckPackages(ps: seq<Package>, r: Rules) returns (ok: bool)
    ensures ok == PackagesOk(ps, r)
  {
    if ps == [] { return false; }
    var names: set<string> := {};
    for i := 0 to |ps|
      invariant forall n :: n in names <==> exists k :: 0 <= k < i && ps[k].name == n
      invariant forall k :: 0 <= k < i ==> PackageOk(ps[k], r)
      invariant forall k, l :: 0 <= k < l < i ==> ps[k].name != ps[l].name
    {
      if !PackageOk(ps[i], r) {
        assert ps[i] in ps;
        return false;
      }
      if ps[i].name in names { return false; }
      names := names + {ps[i].name};
    }
    return true;
  }

  /** The loop over the judgments, with the pairs of package and index seen so far. */
  method SelectAll(slug: string, ps: seq<Package>, v: Verdicts, r: Rules) returns (result: Option<seq<Group>>)
    ensures result == Select(slug, ps, v, r)
  {
    var packagesOk := CheckPackages(ps, r);
    if !r.slugOk(slug) || !packagesOk || v.findings == [] || !r.verdictsOk(v.fields) { return None; }
    var groups: seq<Group> := [];
    var seen: set<(string, int)> := {};
    var k := 0;
    assert v.findings[0..] == v.findings;
    while k < |v.findings|
      invariant 0 <= k <= |v.findings|
      invariant Sort([], v.findings, ps, r) == Sort(groups, v.findings[k..], ps, r)
      invariant forall n, i :: (n, i) in seen <==> Judged(groups, n, i)
    {
      var j := v.findings[k];
      ghost var rest := v.findings[k..];
      assert rest[0] == j && rest[1..] == v.findings[k + 1..];
      var about := About(j, ps);
      if about.None? { return None; }
      var p := about.value;
      if !JudgmentOk(j, p, r) || (p.name, j.index) in seen { return None; }
      var filed := j.(package := Some(p.name));
      SeenPut(groups, p, filed, seen);
      groups := Put(groups, p, filed);
      seen := seen + {(p.name, j.index)};
      k := k + 1;
    }
    result := Some(groups);
  }

  function Identities(rec: Record): set<(string, string)> { set en | en in rec :: (en.slug, en.name) }
  function Reports(rec: Record): set<string> { set en | en in rec :: en.reportPath }

  lemma NamesAppend(rec: Record, en: Entry)
    ensures Identities(rec + [en]) == Identities(rec) + {(en.slug, en.name)}
    ensures Reports(rec + [en]) == Reports(rec) + {en.reportPath}
  {
    assert forall x :: x in rec + [en] <==> x in rec || x == en;
  }

  /** Of two entries, the later one's identity and report name are not the earlier one's. */
  predicate Differ(a: Entry, b: Entry) { !Is(a, b.slug, b.name) && a.reportPath != b.reportPath }

  lemma LoadsAppend(rec: Record, en: Entry, date: string, r: Rules)
    ensures Loads(rec + [en], date, r) <==>
      && Loads(rec, date, r) && EntryLoads(en, r) && r.dateOf(en.slug) == date
      && (en.slug, en.name) !in Identities(rec) && en.reportPath !in Reports(rec)
  {
    var all := rec + [en];
    assert all[|rec|] == en;
    assert forall i :: 0 <= i < |rec| ==> all[i] == rec[i];
    assert forall x :: x in all <==> x in rec || x == en;
    if Loads(all, date, r) {
      forall i, j | 0 <= i < j < |rec| ensures Differ(rec[i], rec[j]) {
        assert Differ(all[i], all[j]);
      }
      forall x | x in rec ensures Differ(x, en) {
        var i :| 0 <= i < |rec| && rec[i] == x;
        assert Differ(all[i], all[|rec|]);
      }
    }
  }

  lemma {:induction false} LoadsPrefix(rec: Record, i: nat, date: string, r: Rules)
    requires i <= |rec|
    ensures Loads(rec, date, r) ==> Loads(rec[..i], date, r)
    decreases |rec| - i
  {
    if i == |rec| {
      assert rec[..i] == rec;
    } else {
      LoadsPrefix(rec, i + 1, date, r);
      assert rec[..i + 1] == rec[..i] + [rec[i]];
      LoadsAppend(rec[..i], rec[i], date, r);
    }
  }

  /** The check of a stored record, with the identities and report names met so far. */
  method CheckRecord(rec: Record, date: string, r: Rules) returns (ok: bool)
    ensures ok == Loads(rec, date, r)
  {
    var identities: set<(string, string)> := {};
    var reports: set<string> := {};
    for i := 0 to |rec|
      invariant Loads(rec[..i], date, r) && identities == Identities(rec[..i]) && reports == Reports(rec[..i])
    {
      var en := rec[i];
      assert rec[..i + 1] == rec[..i] + [en];
      LoadsAppend(rec[..i], en, date, r);
      NamesAppend(rec[..i], en);
      var loads := CheckEntry(en, r);
      if !loads || r.dateOf(en.slug) != date || (en.slug, en.name) in identities || en.reportPath in reports {
        LoadsPrefix(rec, i + 1, date, r);
        return false;
      }
      identities := identities + {(en.slug, en.name)};
      reports := reports + {en.reportPath};
    }
    assert rec[..|rec|] == rec;
    return true;
  }

  method CheckEntry(en: Entry, r: Rules) returns (ok: bool)
    ensures ok == EntryLoads(en, r)
  {
    var groups := SelectAll(en.slug, [en.evidence.package], en.verdicts, r);
    ok := groups.Some? && (exists g :: g in groups.value && g.package.name == en.name)
      && en.reportPath == r.reportName(en.slug, en.name)
      && (forall c :: c in en.corpusPaths ==> r.corpusOk(en.name, c));
  }

  lemma MergeAt(now: Record, e: Evidence, groups: seq<Group>, k: nat, fields: map<string, Value>, corpus: Option<string>, r: Rules)
    requires k < |groups|
    ensures
      var en := Next(Lookup(now, e.slug, groups[k].package.name), e, groups[k], fields, corpus, r);
      (Merge(now, e, groups[k..], fields, corpus, r)
        == if en.None? then None else Merge(Store(now, en.value), e, groups[k + 1..], fields, corpus, r))
    ensures ReportNames(e.slug, groups[k..], r)
      == [r.reportName(e.slug, groups[k].package.name)] + ReportNames(e.slug, groups[k + 1..], r)
  {
    assert groups[k..][0] == groups[k] && groups[k..][1..] == groups[k + 1..];
  }

  /** The loop over the selected packages. */
  method MergeAll(rec: Record, e: Evidence, groups: seq<Group>, fields: map<string, Value>, corpus: Option<string>, r: Rules)
    returns (result: Option<Record>, reports: seq<string>)
    ensures result == Merge(rec, e, groups, fields, corpus, r)
    ensures result.Some? ==> reports == ReportNames(e.slug, groups, r)
  {
    var now := rec;
    reports := [];
    var k := 0;
    assert groups[0..] == groups;
    hide Next, Lookup, Store;
    while k < |groups|
      invariant 0 <= k <= |groups|
      invariant Merge(rec, e, groups, fields, corpus, r) == Merge(now, e, groups[k..], fields, corpus, r)
      invariant ReportNames(e.slug, groups, r) == reports + ReportNames(e.slug, groups[k..], r)
    {
      var g := groups[k];
      MergeAt(now, e, groups, k, fields, corpus, r);
      var en := Next(Lookup(now, e.slug, g.package.name), e, g, fields, corpus, r);
      if en.None? { return None, []; }
      now := Store(now, en.value);
      reports := reports + [r.reportName(e.slug, g.package.name)];
      k := k + 1;
    }
    result := Some(now);
    assert reports + [] == reports;
  }

  /** Everything before the first write. */
  method Prepare(rec: Record, c: Call, r: Rules, fits: Record -> bool) returns (plan: Option<(Record, seq<string>)>)
    ensures plan == Plan(rec, c, r, fits)
  {
    var e := c.evidence;
    var groups := SelectAll(e.slug, e.packages, c.verdicts, r);
    if groups.None? || groups.value == [] { return None; }
    if c.diff.Some? && (!r.diffOk(c.diff.value) || |groups.value| != 1) { return None; }
    var corpus := CorpusFor(groups.value, c.diff, r);
    var loads := CheckRecord(rec, r.dateOf(e.slug), r);
    if !loads { return None; }
    var merged, names := MergeAll(rec, e, groups.value, c.verdicts.fields, corpus, r);
    if merged.None? || !fits(merged.value) { return None; }
    plan := Some((merged.value, if corpus.Some? then names + [corpus.value] else names));
    assert names + [] == names;
  }

  /** The directory of triage records and artifacts. */
  class Directory {
    var records: map<string, Record>
    var artifacts: set<(string, string)>

    function Now(): State reads this { State(records, artifacts) }

    constructor ()
      ensures Now() == State(map[], {})
    {
      records, artifacts := map[], {};
    }

    /** Validate, merge, write the artifacts, and only then replace the record. */
    method WriteReport(c: Call, r: Rules, fits: Record -> bool) returns (ok: bool)
      requires Sensible(r) && StateOk(Now(), r)
      modifies this
      ensures Now() == Step(old(Now()), c, r, fits) && StateOk(Now(), r)
      ensures ok == Completes(old(Now()), c, r, fits)
      ensures !ok ==> records == old(records)
    {
      StepKeeps(Now(), c, r, fits);
      var date := r.dateOf(c.evidence.slug);
      var plan := Prepare(RecordFor(Now(), date), c, r, fits);
      if plan.None? { return false; }
      var (now, names) := plan.value;
      ok := WriteAll(date, names, c.writes);
      if ok {
        records := records[date := now];
      }
    }

    method WriteAll(date: string, names: seq<string>, writes: nat) returns (ok: bool)
      modifies this`artifacts
      ensures ok == (writes > |names|)
      ensures artifacts == old(artifacts) + Tagged(date, names[..if writes < |names| then writes else |names|])
    {
      var k := 0;
      while k < |names|
        invariant 0 <= k <= |names| && k <= writes
        invariant artifacts == old(artifacts) + Tagged(date, names[..k])
      {
        if k == writes { return false; }
        artifacts := artifacts + {(date, names[k])};
        assert names[..k + 1] == names[..k] + [names[k]];
        k := k + 1;
      }
      ok := writes > |names|;
      assert k == |names|;
    }
  }
}
