/** `harness/fp_report.py`, `_selection` and the merge in `write_report`: a persistent record of adjudications. */
module Triage {
  import opened Options

  // ---- Inputs ----

  /** A JSON value, as its canonical text. */
  type Value = string

  const FETCHED_AT := "fetched_at"

  /** One finding of the evidence: the rule and every other field. */
  datatype Finding = Finding(ruleId: string, fields: map<string, Value>)
  datatype Package = Package(name: string, findings: seq<Finding>, fields: map<string, Value>)
  datatype Evidence = Evidence(slug: string, packages: seq<Package>, fields: map<string, Value>)

  datatype Verdict = FP | TP | TPButBenign | Overweighted | Uncertain | Unknown(text: string)

  /** One adjudication: which finding of which package, and the verdict; confidence and texts are in `fields`. */
  datatype Judgment = Judgment(package: Option<string>, index: int, ruleId: string, verdict: Verdict,
                               fields: map<string, Value>)
  datatype Verdicts = Verdicts(findings: seq<Judgment>, fields: map<string, Value>)

  /** The checks and names that are foreign to the merge. */
  datatype Rules = Rules(
    slugOk: string -> bool,
    nameOk: string -> bool,
    ruleOk: string -> bool,
    judgmentOk: map<string, Value> -> bool,
    verdictsOk: map<string, Value> -> bool,
    dateOf: string -> string,
    reportName: (string, string) -> string,
    corpusName: (string, string) -> string,
    corpusOk: (string, string) -> bool,
    diffOk: string -> bool)

  /** Report names tell identities apart (a hash of both parts), and the corpus names made are the ones accepted. */
  ghost predicate Sensible(r: Rules) {
    && (forall a, b, c, d :: r.reportName(a, b) == r.reportName(c, d) ==> a == c && b == d)
    && (forall n, d :: r.corpusOk(n, r.corpusName(n, d)))
    && (forall f, g :: r.verdictsOk(f) && r.verdictsOk(g) ==> r.verdictsOk(f + g))
  }

  // ---- Selection ----

  /** The judgments of one package, in the order given. */
  datatype Group = Group(package: Package, findings: seq<Judgment>)

  predicate PackageOk(p: Package, r: Rules) {
    r.nameOk(p.name) && forall f :: f in p.findings ==> r.ruleOk(f.ruleId)
  }

  predicate PackagesOk(ps: seq<Package>, r: Rules) {
    && ps != []
    && (forall p :: p in ps ==> PackageOk(p, r))
    && (forall i, j :: 0 <= i < j < |ps| ==> ps[i].name != ps[j].name)
  }

  function FindPackage(ps: seq<Package>, name: string): (p: Option<Package>)
    ensures p.Some? ==> p.value in ps && p.value.name == name
    ensures p.None? ==> forall q :: q in ps ==> q.name != name
  {
    if ps == [] then None
    else if ps[0].name == name then Some(ps[0])
    else FindPackage(ps[1..], name)
  }

  /** The package a judgment is about; it may be left out when there is only one. */
  function About(j: Judgment, ps: seq<Package>): Option<Package> {
    if j.package.Some? then FindPackage(ps, j.package.value)
    else if |ps| == 1 then Some(ps[0])
    else None
  }

  predicate JudgmentOk(j: Judgment, p: Package, r: Rules) {
    0 <= j.index < |p.findings| && j.ruleId == p.findings[j.index].ruleId && !j.verdict.Unknown? && r.judgmentOk(j.fields)
  }

  predicate HasIndex(js: seq<Judgment>, i: int) { exists j :: j in js && j.index == i }

  predicate Judged(groups: seq<Group>, name: string, i: int) {
    exists g :: g in groups && g.package.name == name && HasIndex(g.findings, i)
  }

  /** Add a judgment to its package's group, or open a group at the end. */
  function Put(groups: seq<Group>, p: Package, j: Judgment): seq<Group> {
    if groups == [] then [Group(p, [j])]
    else if groups[0].package.name == p.name then [groups[0].(findings := groups[0].findings + [j])] + groups[1..]
    else [groups[0]] + Put(groups[1..], p, j)
  }

  /** Take the judgments one by one, from the groups found so far. */
  function Sort(groups: seq<Group>, js: seq<Judgment>, ps: seq<Package>, r: Rules): Option<seq<Group>>
    decreases |js|
  {
    if js == [] then Some(groups)
    else
      match About(js[0], ps)
      case None => None
      case Some(p) =>
        if !JudgmentOk(js[0], p, r) || Judged(groups, p.name, js[0].index) then None
        else Sort(Put(groups, p, js[0].(package := Some(p.name))), js[1..], ps, r)
  }

  function Select(slug: string, ps: seq<Package>, v: Verdicts, r: Rules): Option<seq<Group>> {
    if !r.slugOk(slug) || !PackagesOk(ps, r) || v.findings == [] || !r.verdictsOk(v.fields) then None
    else Sort([], v.findings, ps, r)
  }

  /** A group whose judgments each name a different finding of its package, and name it rightly. */
  predicate GroupOk(g: Group, r: Rules) {
    && PackageOk(g.package, r) && g.findings != []
    && (forall j :: j in g.findings ==> JudgmentOk(j, g.package, r) && j.package == Some(g.package.name))
    && Distinct(g.findings)
  }

  predicate Distinct(js: seq<Judgment>) {
    forall a, b :: 0 <= a < b < |js| ==> js[a].index != js[b].index
  }

  predicate NamesDistinct(groups: seq<Group>) {
    forall a, b :: 0 <= a < b < |groups| ==> groups[a].package.name != groups[b].package.name
  }

  predicate GroupsOk(groups: seq<Group>, ps: seq<Package>, r: Rules) {
    && (forall g :: g in groups ==> GroupOk(g, r) && g.package in ps)
    && NamesDistinct(groups)
  }

  lemma {:induction false} PutKeeps(groups: seq<Group>, p: Package, j: Judgment, ps: seq<Package>, r: Rules)
    requires GroupsOk(groups, ps, r) && PackagesOk(ps, r) && p in ps
    requires JudgmentOk(j, p, r) && j.package == Some(p.name) && !Judged(groups, p.name, j.index)
    ensures GroupsOk(Put(groups, p, j), ps, r)
    ensures forall h :: h in Put(groups, p, j) ==> h.package.name == p.name || h in groups
    ensures Put(groups, p, j) != []
  {
    if groups != [] && groups[0].package.name == p.name {
      var g := groups[0];
      PackageByName(ps, g.package, p);
      GroupGrows(g, j, r) by { assert g in groups; }
    } else if groups != [] {
      var rest := groups[1..];
      forall g | g in rest ensures g in groups {}
      PutKeeps(rest, p, j, ps, r);
      assert groups[0] in groups;
    }
  }

  lemma PackageByName(ps: seq<Package>, p: Package, q: Package)
    requires (forall i, j :: 0 <= i < j < |ps| ==> ps[i].name != ps[j].name) && p in ps && q in ps && p.name == q.name
    ensures p == q
  {
    var i :| 0 <= i < |ps| && ps[i] == p;
    var j :| 0 <= j < |ps| && ps[j] == q;
  }

  lemma GroupGrows(g: Group, j: Judgment, r: Rules)
    requires GroupOk(g, r) && JudgmentOk(j, g.package, r) && j.package == Some(g.package.name) && !HasIndex(g.findings, j.index)
    ensures GroupOk(g.(findings := g.findings + [j]), r)
  {
    forall a, b | 0 <= a < b < |g.findings| + 1 ensures (g.findings + [j])[a].index != (g.findings + [j])[b].index {
      if b == |g.findings| { assert g.findings[a] in g.findings; }
    }
  }

  lemma {:induction false} SortKeeps(groups: seq<Group>, js: seq<Judgment>, ps: seq<Package>, r: Rules)
    requires GroupsOk(groups, ps, r) && PackagesOk(ps, r) && Sort(groups, js, ps, r).Some?
    ensures GroupsOk(Sort(groups, js, ps, r).value, ps, r)
    ensures groups != [] || js != [] ==> Sort(groups, js, ps, r).value != []
    decreases |js|
  {
    if js != [] {
      var p := About(js[0], ps).value;
      var j := js[0].(package := Some(p.name));
      PutKeeps(groups, p, j, ps, r);
      SortKeeps(Put(groups, p, j), js[1..], ps, r);
    }
  }

  /** What a selection guarantees: one sound, non-empty group a package. */
  lemma SelectSound(slug: string, ps: seq<Package>, v: Verdicts, r: Rules)
    requires Select(slug, ps, v, r).Some?
    ensures GroupsOk(Select(slug, ps, v, r).value, ps, r) && Select(slug, ps, v, r).value != []
    ensures r.slugOk(slug) && r.verdictsOk(v.fields)
  {
    SortKeeps([], v.findings, ps, r);
  }

  lemma PutOne(p: Package, done: seq<Judgment>, j: Judgment)
    ensures Put(if done == [] then [] else [Group(p, done)], p, j) == [Group(p, done + [j])]
  {
    if done == [] {
      assert done + [j] == [j];
    }
  }

  lemma {:induction false} SortOne(p: Package, done: seq<Judgment>, js: seq<Judgment>, r: Rules)
    requires GroupOk(Group(p, done + js), r)
    ensures Sort(if done == [] then [] else [Group(p, done)], js, [p], r) == Some([Group(p, done + js)])
    decreases |js|
  {
    var groups := if done == [] then [] else [Group(p, done)];
    if js == [] {
      assert done + js == done;
    } else {
      var j := js[0];
      assert (done + js)[|done|] == j && j in done + js;
      assert j.(package := Some(p.name)) == j && About(j, [p]) == Some(p);
      forall d | d in done ensures d.index != j.index {
        var a :| 0 <= a < |done| && done[a] == d;
        assert (done + js)[a] == d;
      }
      assert !Judged(groups, p.name, j.index);
      PutOne(p, done, j);
      assert (done + [j]) + js[1..] == done + js;
      SortOne(p, done + [j], js[1..], r);
    }
  }

  /** A sound group selects itself: this is how the loader checks a stored entry. */
  lemma SelectOne(slug: string, g: Group, fields: map<string, Value>, r: Rules)
    requires GroupOk(g, r) && r.slugOk(slug) && r.verdictsOk(fields)
    ensures Select(slug, [g.package], Verdicts(g.findings, fields), r) == Some([g])
  {
    assert g == Group(g.package, [] + g.findings) by { assert [] + g.findings == g.findings; }
    SortOne(g.package, [], g.findings, r);
  }

  // ---- Entries ----

  /** A package's evidence as it is kept: the slug and the rest of the bundle travel with it. */
  datatype Stored = Stored(package: Package, slug: string, bundle: map<string, Value>)
  datatype Entry = Entry(slug: string, name: string, evidence: Stored, verdicts: Verdicts, reportPath: string,
                         corpusPaths: seq<string>)
  type Record = seq<Entry>

  function ToStored(e: Evidence, p: Package): Stored {
    var fields := if FETCHED_AT in e.fields then p.fields[FETCHED_AT := e.fields[FETCHED_AT]] else p.fields;
    Stored(p.(fields := fields), e.slug, e.fields)
  }

  /** Evidence without the time it was fetched. */
  function Comparable(s: Stored): Stored {
    Stored(s.package.(fields := s.package.fields - {FETCHED_AT}), s.slug, s.bundle - {FETCHED_AT})
  }

  /** The judgments by finding index; a later one wins. */
  function ByIndex(js: seq<Judgment>): map<int, Judgment> {
    if js == [] then map[]
    else
      var last := js[|js| - 1];
      ByIndex(js[..|js| - 1])[last.index := last]
  }

  /** The judgments of a map in the order of their indices below `n`. */
  function Collect(m: map<int, Judgment>, n: nat): seq<Judgment> {
    if n == 0 then [] else Collect(m, n - 1) + (if n - 1 in m then [m[n - 1]] else [])
  }

  /** Every finding judged, none as a true positive or as uncertain. */
  predicate Benign(js: seq<Judgment>, n: nat) {
    |js| == n && forall j :: j in js ==> j.verdict != TP && j.verdict != Uncertain
  }

  function MergedFindings(prev: Option<Entry>, g: Group): seq<Judgment> {
    match prev
    case None => g.findings
    case Some(p) => Collect(ByIndex(p.verdicts.findings) + ByIndex(g.findings), |p.evidence.package.findings|)
  }

  function WithPath(paths: seq<string>, corpus: Option<string>): seq<string> {
    if corpus.Some? && corpus.value !in paths then paths + [corpus.value] else paths
  }

  /** The entry one group leads to, given the previous entry for the same alert and package; `None` when refused. */
  function Next(prev: Option<Entry>, e: Evidence, g: Group, fields: map<string, Value>, corpus: Option<string>, r: Rules):
    Option<Entry>
  {
    var given := ToStored(e, g.package);
    if prev.Some? && Comparable(prev.value.evidence) != Comparable(given) then None
    else
      var evidence := if prev.Some? then prev.value.evidence else given;
      var findings := MergedFindings(prev, g);
      var allFields := if prev.Some? then prev.value.verdicts.fields + fields else fields;
      var paths := WithPath(if prev.Some? then prev.value.corpusPaths else [], corpus);
      if paths != [] && !Benign(findings, |evidence.package.findings|) then None
      else Some(Entry(e.slug, g.package.name, evidence, Verdicts(findings, allFields), r.reportName(e.slug, g.package.name), paths))
  }

  predicate EntryOk(en: Entry, r: Rules) {
    && GroupOk(Group(en.evidence.package, en.verdicts.findings), r) && en.name == en.evidence.package.name
    && r.slugOk(en.slug) && r.verdictsOk(en.verdicts.fields) && en.reportPath == r.reportName(en.slug, en.name)
    && (forall c :: c in en.corpusPaths ==> r.corpusOk(en.name, c))
    && (en.corpusPaths != [] ==> Benign(en.verdicts.findings, |en.evidence.package.findings|))
  }

  // ---- Judgments by index ----

  lemma {:induction false} ByIndexOf(js: seq<Judgment>, i: int)
    ensures i in ByIndex(js) <==> HasIndex(js, i)
    ensures i in ByIndex(js) ==> ByIndex(js)[i] in js && ByIndex(js)[i].index == i
  {
    if js != [] {
      var rest, last := js[..|js| - 1], js[|js| - 1];
      ByIndexOf(rest, i);
      assert js == rest + [last];
      if HasIndex(js, i) && last.index != i {
        var j :| j in js && j.index == i;
        assert j in rest;
      }
    }
  }

  lemma {:induction false} ByIndexCount(js: seq<Judgment>)
    requires Distinct(js)
    ensures |ByIndex(js)| == |js| && forall j :: j in js ==> j.index in ByIndex(js) && ByIndex(js)[j.index] == j
  {
    if js != [] {
      var rest, last := js[..|js| - 1], js[|js| - 1];
      ByIndexCount(rest);
      ByIndexOf(rest, last.index);
      assert js == rest + [last];
      assert last.index !in ByIndex(rest);
      assert ByIndex(js).Keys == ByIndex(rest).Keys + {last.index};
    }
  }

  predicate Keyed(m: map<int, Judgment>) { forall i :: i in m ==> m[i].index == i }

  lemma {:induction false} CollectFacts(m: map<int, Judgment>, n: nat)
    requires Keyed(m)
    ensures forall j :: j in Collect(m, n) ==> 0 <= j.index < n && j.index in m && m[j.index] == j
    ensures forall i :: 0 <= i < n && i in m ==> m[i] in Collect(m, n)
    ensures Distinct(Collect(m, n))
  {
    if n > 0 {
      CollectFacts(m, n - 1);
      var less := Collect(m, n - 1);
      forall a, b | 0 <= a < b < |Collect(m, n)| ensures Collect(m, n)[a].index != Collect(m, n)[b].index {
        if b == |less| { assert less[a] in less; }
      }
    }
  }

  predicate Within(m: map<int, Judgment>, n: nat) { forall i :: i in m ==> 0 <= i < n }

  /** Collecting loses nothing. */
  lemma CollectAll(m: map<int, Judgment>, n: nat)
    requires Keyed(m) && Within(m, n)
    ensures ByIndex(Collect(m, n)) == m && |Collect(m, n)| == |m|
  {
    CollectFacts(m, n);
    var js := Collect(m, n);
    ByIndexCount(js);
    forall i ensures i in ByIndex(js) <==> i in m {
      ByIndexOf(js, i);
    }
    assert ByIndex(js).Keys == m.Keys;
    forall i | i in m ensures ByIndex(js)[i] == m[i] {
      assert m[i] in js;
    }
  }

  lemma KeyedByIndex(js: seq<Judgment>, n: nat)
    requires forall j :: j in js ==> 0 <= j.index < n
    ensures Keyed(ByIndex(js)) && Within(ByIndex(js), n)
  {
    forall i | i in ByIndex(js) ensures ByIndex(js)[i].index == i && 0 <= i < n {
      ByIndexOf(js, i);
    }
  }

  /** Where the previous entry and the group agree on the evidence, the merged judgments are sound and extend both. */
  lemma MergedFacts(p: Entry, g: Group, r: Rules)
    requires EntryOk(p, r) && GroupOk(g, r)
    requires p.name == g.package.name && p.evidence.package.findings == g.package.findings
    ensures GroupOk(Group(p.evidence.package, MergedFindings(Some(p), g)), r)
    ensures ByIndex(MergedFindings(Some(p), g)) == ByIndex(p.verdicts.findings) + ByIndex(g.findings)
  {
    var n := |g.package.findings|;
    var was, add := p.verdicts.findings, g.findings;
    KeyedByIndex(was, n);
    KeyedByIndex(add, n);
    var m := ByIndex(was) + ByIndex(add);
    CollectFacts(m, n);
    CollectAll(m, n);
    var js := MergedFindings(Some(p), g);
    forall j | j in js ensures j in was || j in add {
      ByIndexOf(was, j.index);
      ByIndexOf(add, j.index);
    }
    ByIndexOf(add, add[0].index);
    assert HasIndex(add, add[0].index);
    assert js != [];
  }

  // ---- One entry's step ----

  /** A sound previous entry and a sound group give a sound entry. */
  lemma NextKeeps(prev: Option<Entry>, e: Evidence, g: Group, fields: map<string, Value>, corpus: Option<string>, r: Rules)
    requires Sensible(r) && GroupOk(g, r) && r.slugOk(e.slug) && r.verdictsOk(fields)
    requires prev.Some? ==> EntryOk(prev.value, r) && prev.value.slug == e.slug && prev.value.name == g.package.name
    requires corpus.Some? ==> r.corpusOk(g.package.name, corpus.value)
    requires Next(prev, e, g, fields, corpus, r).Some?
    ensures EntryOk(Next(prev, e, g, fields, corpus, r).value, r)
  {
    var en := Next(prev, e, g, fields, corpus, r).value;
    if prev.Some? {
      SameFindings(prev.value.evidence, ToStored(e, g.package));
      MergedFacts(prev.value, g, r);
    }
  }

  lemma SameFindings(a: Stored, b: Stored)
    requires Comparable(a) == Comparable(b)
    ensures a.package.name == b.package.name && a.package.findings == b.package.findings
  {
    assert Comparable(a).package.name == Comparable(b).package.name;
    assert Comparable(a).package.findings == Comparable(b).package.findings;
  }

  /** What an entry keeps for ever: identity, evidence and report; corpus paths and judged findings only grow. */
  predicate Extends(now: Entry, was: Entry) {
    && now.slug == was.slug && now.name == was.name && now.evidence == was.evidence && now.reportPath == was.reportPath
    && was.corpusPaths <= now.corpusPaths
    && ByIndex(was.verdicts.findings).Keys <= ByIndex(now.verdicts.findings).Keys
  }

  lemma NextExtends(p: Entry, e: Evidence, g: Group, fields: map<string, Value>, corpus: Option<string>, r: Rules)
    requires EntryOk(p, r) && GroupOk(g, r) && p.slug == e.slug && p.name == g.package.name
    requires Next(Some(p), e, g, fields, corpus, r).Some?
    ensures Extends(Next(Some(p), e, g, fields, corpus, r).value, p)
  {
    SameFindings(p.evidence, ToStored(e, g.package));
    MergedFacts(p, g, r);
  }

  /** Same verdicts by index, and everything else equal. */
  predicate SameAdjudication(a: Entry, b: Entry) {
    && ByIndex(a.verdicts.findings) == ByIndex(b.verdicts.findings)
    && a == b.(verdicts := b.verdicts.(findings := a.verdicts.findings))
  }

  /** An entry that already holds what a group would add. */
  ghost predicate Holds(en: Entry, e: Evidence, g: Group, fields: map<string, Value>, corpus: Option<string>, r: Rules) {
    && Comparable(en.evidence) == Comparable(ToStored(e, g.package)) && en.slug == e.slug && en.name == g.package.name
    && ByIndex(en.verdicts.findings) + ByIndex(g.findings) == ByIndex(en.verdicts.findings)
    && en.verdicts.fields + fields == en.verdicts.fields
    && WithPath(en.corpusPaths, corpus) == en.corpusPaths
  }

  lemma Absorbs<K, V>(a: map<K, V>, b: map<K, V>)
    ensures a + b + b == a + b && b + b == b
  {
  }

  lemma PrevMerged(p: Entry, e: Evidence, g: Group, r: Rules)
    requires GroupOk(g, r) && EntryOk(p, r) && p.name == g.package.name
    requires Comparable(p.evidence) == Comparable(ToStored(e, g.package))
    ensures
      var js := MergedFindings(Some(p), g);
      && ByIndex(js) + ByIndex(g.findings) == ByIndex(js)
      && js == Collect(ByIndex(js), |g.package.findings|)
  {
    SameFindings(p.evidence, ToStored(e, g.package));
    MergedFacts(p, g, r);
    Absorbs(ByIndex(p.verdicts.findings), ByIndex(g.findings));
  }

  lemma NextHolds(prev: Option<Entry>, e: Evidence, g: Group, fields: map<string, Value>, corpus: Option<string>, r: Rules)
    requires GroupOk(g, r)
    requires prev.Some? ==> EntryOk(prev.value, r) && prev.value.slug == e.slug && prev.value.name == g.package.name
    requires Next(prev, e, g, fields, corpus, r).Some?
    ensures Holds(Next(prev, e, g, fields, corpus, r).value, e, g, fields, corpus, r)
    ensures
      var once := Next(prev, e, g, fields, corpus, r).value.verdicts.findings;
      prev.Some? ==> once == Collect(ByIndex(once), |g.package.findings|)
  {
    Absorbs(map[], ByIndex(g.findings));
    if prev.Some? {
      PrevMerged(prev.value, e, g, r);
      Absorbs(prev.value.verdicts.fields, fields);
    } else {
      Absorbs(map[], fields);
    }
  }

  lemma Resorted(js: seq<Judgment>, n: nat)
    requires Distinct(js) && forall j :: j in js ==> 0 <= j.index < n
    ensures
      var sorted := Collect(ByIndex(js), n);
      ByIndex(sorted) == ByIndex(js) && (Benign(js, n) ==> Benign(sorted, n))
  {
    KeyedByIndex(js, n);
    CollectAll(ByIndex(js), n);
    CollectFacts(ByIndex(js), n);
    ByIndexCount(js);
    forall j | j in Collect(ByIndex(js), n) ensures j in js {
      ByIndexOf(js, j.index);
    }
  }

  lemma Settles(en: Entry, e: Evidence, g: Group, fields: map<string, Value>, corpus: Option<string>, r: Rules)
    requires EntryOk(en, r) && Holds(en, e, g, fields, corpus, r)
    ensures
      var js := Collect(ByIndex(en.verdicts.findings), |g.package.findings|);
      var again := en.(verdicts := en.verdicts.(findings := js));
      Next(Some(en), e, g, fields, corpus, r) == Some(again) && SameAdjudication(again, en)
  {
    SameFindings(en.evidence, ToStored(e, g.package));
    Resorted(en.verdicts.findings, |g.package.findings|);
  }

  /**
   * The same group again is accepted and changes no verdict; the entry stays as it is exactly when its judgments are
   * already in index order, which any merge with a previous entry leaves them in.
   */
  lemma NextAgain(prev: Option<Entry>, e: Evidence, g: Group, fields: map<string, Value>, corpus: Option<string>, r: Rules)
    requires Sensible(r) && GroupOk(g, r) && r.slugOk(e.slug) && r.verdictsOk(fields)
    requires prev.Some? ==> EntryOk(prev.value, r) && prev.value.slug == e.slug && prev.value.name == g.package.name
    requires corpus.Some? ==> r.corpusOk(g.package.name, corpus.value)
    requires Next(prev, e, g, fields, corpus, r).Some?
    ensures
      var once := Next(prev, e, g, fields, corpus, r).value;
      var twice := Next(Some(once), e, g, fields, corpus, r);
      && twice.Some? && SameAdjudication(twice.value, once)
      && (twice.value == once <==> once.verdicts.findings == Collect(ByIndex(once.verdicts.findings), |g.package.findings|))
      && (prev.Some? ==> twice.value == once)
  {
    NextKeeps(prev, e, g, fields, corpus, r);
    NextHolds(prev, e, g, fields, corpus, r);
    Settles(Next(prev, e, g, fields, corpus, r).value, e, g, fields, corpus, r);
  }

  // ---- The record of one date ----

  predicate Is(en: Entry, slug: string, name: string) { en.slug == slug && en.name == name }

  function Lookup(rec: Record, slug: string, name: string): (en: Option<Entry>)
    ensures en.Some? ==> en.value in rec && Is(en.value, slug, name)
    ensures en.None? ==> forall x :: x in rec ==> !Is(x, slug, name)
  {
    if rec == [] then None
    else if Is(rec[0], slug, name) then Some(rec[0])
    else Lookup(rec[1..], slug, name)
  }

  /** Replace the entry with this identity where it stands, or add it at the end. */
  function Store(rec: Record, en: Entry): Record {
    if rec == [] then [en]
    else if Is(rec[0], en.slug, en.name) then [en] + rec[1..]
    else [rec[0]] + Store(rec[1..], en)
  }

  predicate IdentitiesDistinct(rec: Record) {
    forall i, j :: 0 <= i < j < |rec| ==> !Is(rec[i], rec[j].slug, rec[j].name)
  }

  predicate RecordOk(rec: Record, date: string, r: Rules) {
    && (forall en :: en in rec ==> EntryOk(en, r) && r.dateOf(en.slug) == date)
    && IdentitiesDistinct(rec)
  }

  /** The loader's checks: each entry selects itself, belongs to the date, and bears its own artifact names. */
  predicate Loads(rec: Record, date: string, r: Rules) {
    && (forall en :: en in rec ==> EntryLoads(en, r) && r.dateOf(en.slug) == date)
    && IdentitiesDistinct(rec)
    && (forall i, j :: 0 <= i < j < |rec| ==> rec[i].reportPath != rec[j].reportPath)
  }

  predicate EntryLoads(en: Entry, r: Rules) {
    var groups := Select(en.slug, [en.evidence.package], en.verdicts, r);
    && groups.Some? && (exists g :: g in groups.value && g.package.name == en.name)
    && en.reportPath == r.reportName(en.slug, en.name)
    && (forall c :: c in en.corpusPaths ==> r.corpusOk(en.name, c))
  }

  lemma EntryOkLoads(en: Entry, r: Rules)
    requires EntryOk(en, r)
    ensures EntryLoads(en, r)
  {
    var g := Group(en.evidence.package, en.verdicts.findings);
    SelectOne(en.slug, g, en.verdicts.fields, r);
    assert en.verdicts == Verdicts(g.findings, en.verdicts.fields);
    assert g in [g];
  }

  /** A sound record passes the loader. */
  lemma SoundLoads(rec: Record, date: string, r: Rules)
    requires Sensible(r) && RecordOk(rec, date, r)
    ensures Loads(rec, date, r)
  {
    forall en | en in rec ensures EntryLoads(en, r) {
      EntryOkLoads(en, r);
    }
    forall i, j | 0 <= i < j < |rec| ensures rec[i].reportPath != rec[j].reportPath {
      assert EntryOk(rec[i], r) && EntryOk(rec[j], r) && !Is(rec[i], rec[j].slug, rec[j].name);
    }
  }

  lemma {:induction false} StoreAt(rec: Record, en: Entry, r: Rules)
    requires IdentitiesDistinct(rec)
    ensures IdentitiesDistinct(Store(rec, en)) && |rec| <= |Store(rec, en)|
    ensures forall i :: 0 <= i < |rec| ==> Store(rec, en)[i] == if Is(rec[i], en.slug, en.name) then en else rec[i]
    ensures |Store(rec, en)| == if Lookup(rec, en.slug, en.name).Some? then |rec| else |rec| + 1
    ensures forall x :: x in Store(rec, en) ==> x == en || (x in rec && !Is(x, en.slug, en.name))
  {
    if rec != [] && !Is(rec[0], en.slug, en.name) {
      var rest := rec[1..];
      StoreAt(rest, en, r);
      var all := Store(rec, en);
      assert all == [rec[0]] + Store(rest, en);
      forall j | 0 < j < |all| ensures !Is(all[0], all[j].slug, all[j].name) {
        assert all[j] in Store(rest, en);
        if all[j] != en {
          var k :| 0 <= k < |rest| && rest[k] == all[j];
          assert rec[k + 1] == all[j];
        }
      }
    }
  }

  /** Fold the groups of one report into the record. */
  function Merge(rec: Record, e: Evidence, groups: seq<Group>, fields: map<string, Value>, corpus: Option<string>, r: Rules):
    Option<Record>
    decreases |groups|
  {
    if groups == [] then Some(rec)
    else
      match Next(Lookup(rec, e.slug, groups[0].package.name), e, groups[0], fields, corpus, r)
      case None => None
      case Some(en) => Merge(Store(rec, en), e, groups[1..], fields, corpus, r)
  }

  /** Every entry stays where it is and is extended; new ones come behind. */
  predicate Grew(now: Record, was: Record) {
    |was| <= |now| && forall i :: 0 <= i < |was| ==> Extends(now[i], was[i])
  }

  lemma GrewTransitive(a: Record, b: Record, c: Record)
    requires Grew(b, a) && Grew(c, b)
    ensures Grew(c, a)
  {
    forall i | 0 <= i < |a| ensures Extends(c[i], a[i]) {
      assert Extends(b[i], a[i]) && Extends(c[i], b[i]);
    }
  }

  /** What one report must bring along for the record to stay sound. */
  ghost predicate Report(e: Evidence, groups: seq<Group>, fields: map<string, Value>, corpus: Option<string>, r: Rules) {
    && r.slugOk(e.slug) && r.verdictsOk(fields)
    && (forall g :: g in groups ==> GroupOk(g, r))
    && (corpus.Some? ==> forall g :: g in groups ==> r.corpusOk(g.package.name, corpus.value))
  }

  lemma StoreKeeps(rec: Record, e: Evidence, g: Group, fields: map<string, Value>, corpus: Option<string>, date: string, r: Rules)
    requires Sensible(r) && RecordOk(rec, date, r) && r.dateOf(e.slug) == date && Report(e, [g], fields, corpus, r)
    requires Next(Lookup(rec, e.slug, g.package.name), e, g, fields, corpus, r).Some?
    ensures
      var now := Store(rec, Next(Lookup(rec, e.slug, g.package.name), e, g, fields, corpus, r).value);
      RecordOk(now, date, r) && Grew(now, rec)
  {
    var prev := Lookup(rec, e.slug, g.package.name);
    var en := Next(prev, e, g, fields, corpus, r).value;
    assert g in [g];
    NextKeeps(prev, e, g, fields, corpus, r);
    StoreAt(rec, en, r);
    var now := Store(rec, en);
    forall i | 0 <= i < |rec| ensures Extends(now[i], rec[i]) {
      if Is(rec[i], e.slug, g.package.name) {
        OnlyOne(rec, i, prev.value);
        NextExtends(prev.value, e, g, fields, corpus, r);
      }
    }
  }

  lemma OnlyOne(rec: Record, i: nat, x: Entry)
    requires IdentitiesDistinct(rec) && i < |rec| && x in rec && Is(x, rec[i].slug, rec[i].name)
    ensures rec[i] == x
  {
    var k :| 0 <= k < |rec| && rec[k] == x;
  }

  /** A merge keeps the record sound and only extends it. */
  lemma {:induction false} MergeKeeps(rec: Record, e: Evidence, groups: seq<Group>, fields: map<string, Value>, corpus: Option<string>,
      date: string, r: Rules)
    requires Sensible(r) && RecordOk(rec, date, r) && r.dateOf(e.slug) == date && Report(e, groups, fields, corpus, r)
    requires Merge(rec, e, groups, fields, corpus, r).Some?
    ensures RecordOk(Merge(rec, e, groups, fields, corpus, r).value, date, r)
    ensures Grew(Merge(rec, e, groups, fields, corpus, r).value, rec)
    decreases |groups|
  {
    if groups != [] {
      var g := groups[0];
      assert g in groups;
      var en := Next(Lookup(rec, e.slug, g.package.name), e, g, fields, corpus, r).value;
      StoreKeeps(rec, e, g, fields, corpus, date, r);
      var mid := Store(rec, en);
      forall h | h in groups[1..] ensures h in groups {}
      MergeKeeps(mid, e, groups[1..], fields, corpus, date, r);
      GrewTransitive(rec, mid, Merge(rec, e, groups, fields, corpus, r).value);
    }
  }

  // ---- The same report again ----

  lemma {:induction false} StoreLookup(rec: Record, en: Entry, slug: string, name: string)
    ensures Lookup(Store(rec, en), slug, name) == if Is(en, slug, name) then Some(en) else Lookup(rec, slug, name)
  {
    if rec != [] {
      StoreLookup(rec[1..], en, slug, name);
      if Is(rec[0], en.slug, en.name) {
        assert Store(rec, en)[1..] == rec[1..];
      } else {
        assert Store(rec, en)[1..] == Store(rec[1..], en);
      }
    }
  }

  function NamesOf(groups: seq<Group>): set<string> { set g | g in groups :: g.package.name }

  lemma {:induction false} MergeLookup(rec: Record, e: Evidence, groups: seq<Group>, fields: map<string, Value>,
      corpus: Option<string>, r: Rules, name: string)
    requires NamesDistinct(groups) && Merge(rec, e, groups, fields, corpus, r).Some?
    ensures
      var now := Merge(rec, e, groups, fields, corpus, r).value;
      && (name !in NamesOf(groups) ==> Lookup(now, e.slug, name) == Lookup(rec, e.slug, name))
      && (forall g :: g in groups && g.package.name == name ==>
            Next(Lookup(rec, e.slug, name), e, g, fields, corpus, r).Some?
            && Lookup(now, e.slug, name) == Next(Lookup(rec, e.slug, name), e, g, fields, corpus, r))
    decreases |groups|
  {
    if groups != [] {
      var g, rest := groups[0], groups[1..];
      var en := Next(Lookup(rec, e.slug, g.package.name), e, g, fields, corpus, r).value;
      StoreLookup(rec, en, e.slug, name);
      forall h | h in rest ensures h in groups && h.package.name != g.package.name {
        var k :| 0 <= k < |rest| && rest[k] == h;
        assert groups[k + 1] == h;
      }
      assert g in groups && g.package.name in NamesOf(groups);
      assert NamesOf(rest) <= NamesOf(groups);
      MergeLookup(Store(rec, en), e, rest, fields, corpus, r, name);
    }
  }

  /** A group that changes no verdict of the entry it meets. */
  ghost predicate Quiet(rec: Record, e: Evidence, g: Group, fields: map<string, Value>, corpus: Option<string>, r: Rules) {
    var was := Lookup(rec, e.slug, g.package.name);
    was.Some? && Next(was, e, g, fields, corpus, r).Some? && SameAdjudication(Next(was, e, g, fields, corpus, r).value, was.value)
  }

  predicate AllSame(now: Record, was: Record) {
    |now| == |was| && forall i :: 0 <= i < |was| ==> SameAdjudication(now[i], was[i])
  }

  lemma {:induction false} StoreSame(rec: Record, en: Entry)
    requires Lookup(rec, en.slug, en.name).Some? && SameAdjudication(en, Lookup(rec, en.slug, en.name).value)
    ensures AllSame(Store(rec, en), rec)
    ensures en == Lookup(rec, en.slug, en.name).value ==> Store(rec, en) == rec
  {
    assert rec == [rec[0]] + rec[1..];
    if Is(rec[0], en.slug, en.name) {
      AllSameCons(en, rec[0], rec[1..], rec[1..]);
    } else {
      StoreSame(rec[1..], en);
      AllSameCons(rec[0], rec[0], Store(rec[1..], en), rec[1..]);
    }
  }

  lemma AllSameCons(a: Entry, b: Entry, now: Record, was: Record)
    requires SameAdjudication(a, b) && AllSame(now, was)
    ensures AllSame([a] + now, [b] + was)
  {
  }

  lemma AllSameTransitive(a: Record, b: Record, c: Record)
    requires AllSame(b, a) && AllSame(c, b)
    ensures AllSame(c, a)
  {
    forall i | 0 <= i < |a| ensures SameAdjudication(c[i], a[i]) {
      assert SameAdjudication(b[i], a[i]) && SameAdjudication(c[i], b[i]);
    }
  }

  lemma {:induction false} MergeQuiet(rec: Record, e: Evidence, groups: seq<Group>, fields: map<string, Value>,
      corpus: Option<string>, r: Rules)
    requires NamesDistinct(groups) && forall g :: g in groups ==> Quiet(rec, e, g, fields, corpus, r)
    ensures Merge(rec, e, groups, fields, corpus, r).Some?
    ensures AllSame(Merge(rec, e, groups, fields, corpus, r).value, rec)
    ensures (forall g :: g in groups ==>
        Next(Lookup(rec, e.slug, g.package.name), e, g, fields, corpus, r) == Lookup(rec, e.slug, g.package.name)) ==>
      Merge(rec, e, groups, fields, corpus, r).value == rec
    decreases |groups|
  {
    if groups != [] {
      var g, rest := groups[0], groups[1..];
      assert Quiet(rec, e, g, fields, corpus, r) by { assert g in groups; }
      var en := Next(Lookup(rec, e.slug, g.package.name), e, g, fields, corpus, r).value;
      var mid := Store(rec, en);
      StoreSame(rec, en);
      forall h | h in rest
        ensures h in groups && Lookup(mid, e.slug, h.package.name) == Lookup(rec, e.slug, h.package.name)
      {
        var k :| 0 <= k < |rest| && rest[k] == h;
        assert groups[k + 1] == h;
        StoreLookup(rec, en, e.slug, h.package.name);
      }
      MergeQuiet(mid, e, rest, fields, corpus, r);
      AllSameTransitive(rec, mid, Merge(mid, e, rest, fields, corpus, r).value);
    }
  }

  lemma QuietAgain(rec: Record, e: Evidence, groups: seq<Group>, fields: map<string, Value>, corpus: Option<string>,
      date: string, r: Rules, g: Group)
    requires Sensible(r) && RecordOk(rec, date, r) && Report(e, groups, fields, corpus, r) && NamesDistinct(groups)
    requires Merge(rec, e, groups, fields, corpus, r).Some? && g in groups
    ensures
      var once := Merge(rec, e, groups, fields, corpus, r).value;
      && Quiet(once, e, g, fields, corpus, r)
      && (Lookup(rec, e.slug, g.package.name).Some? ==>
            Next(Lookup(once, e.slug, g.package.name), e, g, fields, corpus, r) == Lookup(once, e.slug, g.package.name))
  {
    MergeLookup(rec, e, groups, fields, corpus, r, g.package.name);
    NextAgain(Lookup(rec, e.slug, g.package.name), e, g, fields, corpus, r);
  }

  /**
   * Submitting the same report twice is accepted the second time and leaves every index-to-verdict map as it was; from
   * the second time on the record does not change at all.
   */
  lemma MergeTwice(rec: Record, e: Evidence, groups: seq<Group>, fields: map<string, Value>, corpus: Option<string>,
      date: string, r: Rules)
    requires Sensible(r) && RecordOk(rec, date, r) && r.dateOf(e.slug) == date
    requires Report(e, groups, fields, corpus, r) && NamesDistinct(groups)
    requires Merge(rec, e, groups, fields, corpus, r).Some?
    ensures
      var once := Merge(rec, e, groups, fields, corpus, r).value;
      var twice := Merge(once, e, groups, fields, corpus, r);
      && twice.Some? && AllSame(twice.value, once)
      && Merge(twice.value, e, groups, fields, corpus, r) == twice
  {
    var once := Merge(rec, e, groups, fields, corpus, r).value;
    MergeKeeps(rec, e, groups, fields, corpus, date, r);
    forall g | g in groups ensures Quiet(once, e, g, fields, corpus, r) {
      QuietAgain(rec, e, groups, fields, corpus, date, r, g);
    }
    MergeQuiet(once, e, groups, fields, corpus, r);
    var twice := Merge(once, e, groups, fields, corpus, r).value;
    forall g | g in groups
      ensures Quiet(twice, e, g, fields, corpus, r)
        && Next(Lookup(twice, e.slug, g.package.name), e, g, fields, corpus, r) == Lookup(twice, e.slug, g.package.name)
    {
      QuietAgain(once, e, groups, fields, corpus, date, r, g);
      assert Quiet(once, e, g, fields, corpus, r);
    }
    MergeQuiet(twice, e, groups, fields, corpus, r);
  }
}
