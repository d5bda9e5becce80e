/** `harness/fp_report.py`: which inputs `_selection` and the merge accept, and what becomes of them. */
module TriageMeaning {
  import opened Triage
  import opened TriageRuns
  import opened Options
  import opened Sets

  // ---- Selection ----

  /** The package judgment `j` is about: the one it names, or the only one there is. */
  predicate Owns(p: Package, j: Judgment, ps: seq<Package>) {
    p in ps && (j.package == Some(p.name) || (j.package.None? && |ps| == 1))
  }

  /** It names a finding of its package by index and rule, and gives one of the five verdicts. */
  predicate Fits(j: Judgment, ps: seq<Package>, r: Rules) {
    exists p :: p in ps && Owns(p, j, ps) && 0 <= j.index < |p.findings| && p.findings[j.index].ruleId == j.ruleId
      && j.verdict in {FP, TP, TPButBenign, Overweighted, Uncertain} && r.judgmentOk(j.fields)
  }

  /** Both are about the same finding of the same package. */
  predicate Clash(a: Judgment, b: Judgment, ps: seq<Package>) {
    a.index == b.index && exists p :: p in ps && Owns(p, a, ps) && Owns(p, b, ps)
  }

  predicate AllFit(js: seq<Judgment>, ps: seq<Package>, r: Rules) { forall k :: 0 <= k < |js| ==> Fits(js[k], ps, r) }

  predicate NoClash(js: seq<Judgment>, ps: seq<Package>) {
    forall k, l :: 0 <= k < l < |js| ==> !Clash(js[k], js[l], ps)
  }

  /** The judgments about `p`, in order, each with its package named. */
  function Owned(js: seq<Judgment>, p: Package, ps: seq<Package>): seq<Judgment> {
    if js == [] then []
    else (if Owns(p, js[0], ps) then [js[0].(package := Some(p.name))] else []) + Owned(js[1..], p, ps)
  }

  /** What the groups hold under a name. */
  function Under(groups: seq<Group>, name: string): seq<Judgment> {
    if groups == [] then [] else if groups[0].package.name == name then groups[0].findings else Under(groups[1..], name)
  }

  predicate NamesApart(ps: seq<Package>) { forall i, j :: 0 <= i < j < |ps| ==> ps[i].name != ps[j].name }

  lemma AboutIs(j: Judgment, ps: seq<Package>, p: Package)
    requires NamesApart(ps)
    ensures About(j, ps) == Some(p) <==> Owns(p, j, ps)
  {
    if j.package.Some? {
      if p in ps && p.name == j.package.value {
        var q := FindPackage(ps, p.name);
        PackageByName(ps, p, q.value);
      }
    } else if |ps| == 1 {
      assert forall q :: q in ps <==> q == ps[0];
    }
  }

  lemma OneOwner(j: Judgment, ps: seq<Package>, p: Package, q: Package)
    requires NamesApart(ps) && Owns(p, j, ps) && Owns(q, j, ps)
    ensures p == q
  {
    AboutIs(j, ps, p);
    AboutIs(j, ps, q);
  }

  lemma {:induction false} UnderPut(groups: seq<Group>, p: Package, j: Judgment, name: string)
    ensures Under(Put(groups, p, j), name) == Under(groups, name) + (if name == p.name then [j] else [])
  {
    if groups != [] && groups[0].package.name != p.name {
      UnderPut(groups[1..], p, j, name);
      assert ([groups[0]] + Put(groups[1..], p, j))[1..] == Put(groups[1..], p, j);
    } else if groups != [] {
      var now := [groups[0].(findings := groups[0].findings + [j])] + groups[1..];
      assert now[1..] == groups[1..];
    }
    assert Under(groups, name) + [] == Under(groups, name);
  }

  lemma {:induction false} JudgedIsUnder(groups: seq<Group>, name: string, i: int)
    requires NamesDistinct(groups)
    ensures Judged(groups, name, i) <==> HasIndex(Under(groups, name), i)
  {
    if groups != [] {
      var rest := groups[1..];
      JudgedIsUnder(rest, name, i);
      assert groups == [groups[0]] + rest;
      if groups[0].package.name == name {
        forall g | g in rest ensures g.package.name != name {
          var k :| 0 <= k < |rest| && rest[k] == g;
          assert groups[k + 1] == g;
        }
      }
    }
  }

  lemma {:induction false} PutNames(groups: seq<Group>, p: Package, j: Judgment)
    requires NamesDistinct(groups)
    ensures NamesDistinct(Put(groups, p, j))
    ensures forall g :: g in Put(groups, p, j) ==> g.package.name == p.name || exists h :: h in groups && h.package.name == g.package.name
  {
    if groups != [] && groups[0].package.name != p.name {
      hide Under;
      var rest := groups[1..];
      PutNames(rest, p, j);
      var now := Put(rest, p, j);
      forall k | 0 <= k < |now| ensures now[k].package.name != groups[0].package.name {
        if now[k].package.name != p.name {
          var h :| h in rest && h.package.name == now[k].package.name;
          var l :| 0 <= l < |rest| && rest[l] == h;
          assert groups[l + 1] == h;
        }
      }
    }
  }

  /** The judgments already placed and those still to come are about different findings. */
  predicate Apart(groups: seq<Group>, js: seq<Judgment>, ps: seq<Package>) {
    forall k, p :: 0 <= k < |js| && p in ps && Owns(p, js[k], ps) ==> !HasIndex(Under(groups, p.name), js[k].index)
  }

  lemma ApartStep(groups: seq<Group>, js: seq<Judgment>, ps: seq<Package>, p: Package)
    requires NamesApart(ps) && js != [] && Owns(p, js[0], ps)
    ensures
      var next := Put(groups, p, js[0].(package := Some(p.name)));
      Apart(groups, js, ps) && NoClash(js, ps) <==>
        !HasIndex(Under(groups, p.name), js[0].index) && Apart(next, js[1..], ps) && NoClash(js[1..], ps)
  {
    var j, rest := js[0].(package := Some(p.name)), js[1..];
    var next := Put(groups, p, j);
    forall i, n ensures HasIndex(Under(next, n), i) <==> HasIndex(Under(groups, n), i) || (n == p.name && i == j.index) {
      UnderPut(groups, p, j, n);
      OneMoreIndex(Under(groups, n), j, i);
    }
    if Apart(groups, js, ps) && NoClash(js, ps) {
      forall k, q | 0 <= k < |rest| && q in ps && Owns(q, rest[k], ps) ensures !HasIndex(Under(next, q.name), rest[k].index) {
        assert rest[k] == js[k + 1];
        if q.name == p.name { PackageByName(ps, p, q); }
        assert !Clash(js[0], js[k + 1], ps);
      }
      forall k, l | 0 <= k < l < |rest| ensures !Clash(rest[k], rest[l], ps) { assert !Clash(js[k + 1], js[l + 1], ps); }
    }
    if !HasIndex(Under(groups, p.name), js[0].index) && Apart(next, rest, ps) && NoClash(rest, ps) {
      forall k, q | 0 <= k < |js| && q in ps && Owns(q, js[k], ps) ensures !HasIndex(Under(groups, q.name), js[k].index) {
        if k == 0 { OneOwner(js[0], ps, p, q); } else { assert js[k] == rest[k - 1]; }
      }
      forall k, l | 0 <= k < l < |js| ensures !Clash(js[k], js[l], ps) {
        assert js[l] == rest[l - 1];
        if k > 0 {
          assert js[k] == rest[k - 1];
        } else {
          forall q | q in ps && Owns(q, js[0], ps) && Owns(q, js[l], ps) ensures js[l].index != js[0].index {
            OneOwner(js[0], ps, p, q);
            assert !HasIndex(Under(next, p.name), js[l].index);
          }
        }
      }
    }
  }

  lemma OneMoreIndex(js: seq<Judgment>, j: Judgment, i: int)
    ensures HasIndex(js + [j], i) <==> HasIndex(js, i) || i == j.index
    ensures HasIndex(js + [], i) <==> HasIndex(js, i)
  {
    assert j in js + [j] && forall x :: x in js ==> x in js + [j];
    assert js + [] == js;
  }

  lemma {:induction false} SortIff(groups: seq<Group>, js: seq<Judgment>, ps: seq<Package>, r: Rules)
    requires NamesApart(ps) && NamesDistinct(groups)
    ensures Sort(groups, js, ps, r).Some? <==> AllFit(js, ps, r) && NoClash(js, ps) && Apart(groups, js, ps)
    ensures Sort(groups, js, ps, r).Some? ==>
      forall p :: p in ps ==> Under(Sort(groups, js, ps, r).value, p.name) == Under(groups, p.name) + Owned(js, p, ps)
    decreases |js|
  {
    if js == [] {
      assert forall p: Package :: Under(groups, p.name) + [] == Under(groups, p.name);
    } else {
      FitsHead(js, ps, r);
      var about := About(js[0], ps);
      if about.Some? {
        var p := about.value;
        AboutIs(js[0], ps, p);
        var j := js[0].(package := Some(p.name));
        JudgedIsUnder(groups, p.name, js[0].index);
        ApartStep(groups, js, ps, p);
        PutNames(groups, p, j);
        SortIff(Put(groups, p, j), js[1..], ps, r);
        if Sort(groups, js, ps, r).Some? {
          forall q | q in ps
            ensures Under(Sort(groups, js, ps, r).value, q.name) == Under(groups, q.name) + Owned(js, q, ps)
          {
            UnderPut(groups, p, j, q.name);
            if q.name == p.name { PackageByName(ps, p, q); }
            if Owns(q, js[0], ps) { OneOwner(js[0], ps, p, q); }
            Gather(Under(groups, q.name), if q.name == p.name then [j] else [], Owned(js[1..], q, ps));
          }
        }
      }
    }
  }

  lemma Gather<T>(a: seq<T>, b: seq<T>, c: seq<T>)
    ensures (a + b) + c == a + (b + c)
  {
  }

  lemma FitsHead(js: seq<Judgment>, ps: seq<Package>, r: Rules)
    requires js != [] && NamesApart(ps)
    ensures AllFit(js, ps, r) <==> Fits(js[0], ps, r) && AllFit(js[1..], ps, r)
    ensures Fits(js[0], ps, r) <==> About(js[0], ps).Some? && JudgmentOk(js[0], About(js[0], ps).value, r)
  {
    var j := js[0];
    if About(j, ps).Some? { AboutIs(j, ps, About(j, ps).value); }
    if p :| p in ps && Owns(p, j, ps) { AboutIs(j, ps, p); }
    if Fits(j, ps, r) && AllFit(js[1..], ps, r) {
      forall k | 0 <= k < |js| ensures Fits(js[k], ps, r) { assert k > 0 ==> js[k] == js[1..][k - 1]; }
    }
    if AllFit(js, ps, r) {
      forall k | 0 <= k < |js| - 1 ensures Fits(js[1..][k], ps, r) { assert js[1..][k] == js[k + 1]; }
    }
  }

  /**
   * A selection is made exactly when the slug, the packages and the texts pass their checks, every judgment names a finding
   * by package, index and rule and gives a known verdict, and no two are about the same finding. Every package then has the
   * judgments about it, in the order given.
   */
  lemma SelectIff(slug: string, ps: seq<Package>, v: Verdicts, r: Rules)
    ensures Select(slug, ps, v, r).Some? <==>
      && r.slugOk(slug) && ps != [] && NamesApart(ps)
      && (forall p :: p in ps ==> r.nameOk(p.name) && forall f :: f in p.findings ==> r.ruleOk(f.ruleId))
      && v.findings != [] && r.verdictsOk(v.fields) && AllFit(v.findings, ps, r) && NoClash(v.findings, ps)
    ensures Select(slug, ps, v, r).Some? ==>
      forall p :: p in ps ==> Under(Select(slug, ps, v, r).value, p.name) == Owned(v.findings, p, ps)
  {
    if NamesApart(ps) {
      SortIff([], v.findings, ps, r);
      assert forall p :: [] + Owned(v.findings, p, ps) == Owned(v.findings, p, ps);
    }
  }

  // ---- One entry ----

  /** Equal but for the time of fetching. */
  predicate SameBut(a: map<string, Value>, b: map<string, Value>) {
    && (forall k :: k in a && k != FETCHED_AT ==> k in b && a[k] == b[k])
    && (forall k :: k in b && k != FETCHED_AT ==> k in a)
  }

  lemma SameButIs(a: map<string, Value>, b: map<string, Value>)
    ensures a - {FETCHED_AT} == b - {FETCHED_AT} <==> SameBut(a, b)
  {
    var x, y := a - {FETCHED_AT}, b - {FETCHED_AT};
    if x == y {
      forall k | k in a && k != FETCHED_AT ensures k in b && a[k] == b[k] { assert k in x && x[k] == y[k]; }
      forall k | k in b && k != FETCHED_AT ensures k in a { assert k in y; }
    }
  }

  /** The stored evidence is the given one: package, alert and bundle, whenever they were fetched. */
  predicate SameEvidence(was: Stored, e: Evidence, p: Package) {
    && was.package.name == p.name && was.package.findings == p.findings && was.slug == e.slug
    && SameBut(was.package.fields, p.fields) && SameBut(was.bundle, e.fields)
  }

  lemma ComparableIff(was: Stored, e: Evidence, p: Package)
    ensures Comparable(was) == Comparable(ToStored(e, p)) <==> SameEvidence(was, e, p)
  {
    var given := ToStored(e, p);
    SameButIs(was.package.fields, given.package.fields);
    SameButIs(was.bundle, e.fields);
    assert SameBut(was.package.fields, given.package.fields) <==> SameBut(was.package.fields, p.fields);
    if SameEvidence(was, e, p) {
      assert was.package.(fields := was.package.fields - {FETCHED_AT}) == given.package.(fields := given.package.fields - {FETCHED_AT});
    }
    if Comparable(was) == Comparable(given) {
      assert Comparable(was).package == Comparable(given).package && Comparable(was).bundle == Comparable(given).bundle;
    }
  }

  /** Every finding has a judgment, and none is a true positive or uncertain. */
  predicate Cleared(m: map<int, Judgment>, n: nat) {
    forall i :: 0 <= i < n ==> i in m && m[i].verdict != TP && m[i].verdict != Uncertain
  }

  lemma BenignIsCleared(js: seq<Judgment>, n: nat)
    requires Distinct(js) && forall j :: j in js ==> 0 <= j.index < n
    ensures Benign(js, n) <==> Cleared(ByIndex(js), n)
  {
    KeyedByIndex(js, n);
    ByIndexCount(js);
    var m := ByIndex(js);
    var all := Below(n);
    assert m.Keys <= all;
    if Benign(js, n) {
      SameSize(m.Keys, all);
      forall i | 0 <= i < n ensures i in m && m[i].verdict != TP && m[i].verdict != Uncertain {
        assert i in all;
        ByIndexOf(js, i);
      }
    }
    if Cleared(m, n) {
      assert m.Keys == all;
      assert |m| == |m.Keys|;
      forall j | j in js ensures j.verdict != TP && j.verdict != Uncertain { assert m[j.index] == j; }
    }
  }

  lemma SameSize<T>(a: set<T>, b: set<T>)
    requires a <= b && |a| == |b|
    ensures a == b
  {
    assert b == a + (b - a);
    assert |b - a| == 0;
  }

  /**
   * A group is merged into an earlier entry exactly when the evidence has not changed but for the time it was fetched and,
   * where a corpus is kept or given, every finding is then cleared. The entry keeps its evidence, takes the new verdicts
   * over the old ones, and has the corpus among its paths.
   */
  lemma NextIff(p: Entry, e: Evidence, g: Group, fields: map<string, Value>, corpus: Option<string>, r: Rules)
    requires EntryOk(p, r) && GroupOk(g, r) && p.slug == e.slug && p.name == g.package.name
    ensures
      var verdicts := ByIndex(p.verdicts.findings) + ByIndex(g.findings);
      var now := Next(Some(p), e, g, fields, corpus, r);
      && (now.Some? <==>
            && SameEvidence(p.evidence, e, g.package)
            && (corpus.Some? || p.corpusPaths != [] ==> Cleared(verdicts, |g.package.findings|)))
      && (now.Some? ==>
            && now.value.slug == e.slug && now.value.name == p.name && now.value.reportPath == r.reportName(e.slug, p.name)
            && now.value.evidence == p.evidence && ByIndex(now.value.verdicts.findings) == verdicts
            && now.value.verdicts.fields == p.verdicts.fields + fields
            && p.corpusPaths <= now.value.corpusPaths && (corpus.Some? ==> corpus.value in now.value.corpusPaths)
            && |now.value.corpusPaths| <= |p.corpusPaths| + (if corpus.Some? then 1 else 0))
  {
    hide Comparable, SameBut, Cleared, Benign, ByIndex, ToStored;
    ComparableIff(p.evidence, e, g.package);
    if SameEvidence(p.evidence, e, g.package) {
      MergedFacts(p, g, r);
      BenignIsCleared(MergedFindings(Some(p), g), |g.package.findings|);
    }
  }

  /** A first group makes an entry exactly when, with a corpus given, it clears every finding. */
  lemma FirstIff(e: Evidence, g: Group, fields: map<string, Value>, corpus: Option<string>, r: Rules)
    requires GroupOk(g, r)
    ensures
      var now := Next(None, e, g, fields, corpus, r);
      && (now.Some? <==> (corpus.Some? ==> Cleared(ByIndex(g.findings), |g.package.findings|)))
      && (now.Some? ==>
            && SameEvidence(now.value.evidence, e, g.package) && now.value.verdicts == Verdicts(g.findings, fields)
            && now.value.slug == e.slug && now.value.name == g.package.name
            && now.value.reportPath == r.reportName(e.slug, g.package.name)
            && now.value.corpusPaths == if corpus.Some? then [corpus.value] else [])
  {
    BenignIsCleared(g.findings, |g.package.findings|);
  }

  // ---- One report ----

  /** A report is merged exactly when each of its groups is, on its own, into the entry it finds. */
  lemma {:induction false} MergeIff(rec: Record, e: Evidence, groups: seq<Group>, fields: map<string, Value>,
      corpus: Option<string>, r: Rules)
    requires NamesDistinct(groups)
    ensures Merge(rec, e, groups, fields, corpus, r).Some? <==>
      forall g :: g in groups ==> Next(Lookup(rec, e.slug, g.package.name), e, g, fields, corpus, r).Some?
    decreases |groups|
  {
    hide Next;
    if groups != [] {
      var g, rest := groups[0], groups[1..];
      assert groups == [g] + rest && g in groups;
      var first := Next(Lookup(rec, e.slug, g.package.name), e, g, fields, corpus, r);
      if first.Some? {
        var now := Store(rec, first.value);
        NextIs(rec, e, g, fields, corpus, r);
        forall h | h in rest ensures h in groups && Lookup(now, e.slug, h.package.name) == Lookup(rec, e.slug, h.package.name) {
          var k :| 0 <= k < |rest| && rest[k] == h;
          assert groups[k + 1] == h;
          StoreLookup(rec, first.value, e.slug, h.package.name);
        }
        MergeIff(now, e, rest, fields, corpus, r);
      }
    }
  }

  lemma NextIs(rec: Record, e: Evidence, g: Group, fields: map<string, Value>, corpus: Option<string>, r: Rules)
    ensures
      var now := Next(Lookup(rec, e.slug, g.package.name), e, g, fields, corpus, r);
      now.Some? ==> Is(now.value, e.slug, g.package.name)
  {
  }

  /**
   * A report goes through exactly when its selection is made, a diff that comes with it is sound and about one package
   * alone, the record on disk loads, every group is merged, and the new record fits.
   */
  lemma PlanIff(rec: Record, c: Call, r: Rules, fits: Record -> bool, groups: seq<Group>)
    requires groups != [] && Select(c.evidence.slug, c.evidence.packages, c.verdicts, r) == Some(groups)
    ensures
      var e := c.evidence;
      var corpus := if c.diff.Some? then Some(r.corpusName(groups[0].package.name, c.diff.value)) else None;
      var now := Merge(rec, e, groups, c.verdicts.fields, corpus, r);
      && (Plan(rec, c, r, fits).Some? <==>
            && (c.diff.Some? ==> r.diffOk(c.diff.value) && |groups| == 1) && Loads(rec, r.dateOf(e.slug), r)
            && (forall g :: g in groups ==>
                  Next(Lookup(rec, e.slug, g.package.name), e, g, c.verdicts.fields, corpus, r).Some?)
            && (now.Some? ==> fits(now.value)))
      && (Plan(rec, c, r, fits).Some? ==> now == Some(Plan(rec, c, r, fits).value.0))
  {
    hide Next, Loads;
    SelectSound(c.evidence.slug, c.evidence.packages, c.verdicts, r);
    hide Select, GroupsOk;
    MergeIff(rec, c.evidence, groups, c.verdicts.fields, CorpusFor(groups, c.diff, r), r);
    hide Merge;
  }
}
