/** `harness/benign.py`, `_plan`, `_scan_task` and their join in `scan_benign`: packages scanned apart, as if in one walk. */
module Benign {
  import opened Arithmetic
  import opened Sets

  type Url = string

  datatype Fact = Fact(score: int, rules: seq<string>)
  datatype Row = Row(package: string, path: string, fact: Fact)

  /** The diffs of one package, in walking order. */
  datatype Bundle = Bundle(package: string, paths: seq<string>)
  datatype Task = Task(package: string, paths: seq<string>, prefix: set<Url>)

  /**
   * The analysis: the URLs a diff scores, what a set of seen URLs is after scanning it, and the fact it gives when some
   * URLs are known for the package and some anywhere.
   */
  datatype Tool = Tool(scored: (string, string) -> set<Url>, learn: (set<Url>, string, string) -> set<Url>,
                       scan: (string, string, set<Url>, set<Url>) -> Fact, threshold: int)

  /** Scanning a diff adds exactly its scored URLs. */
  ghost predicate AddsScored(t: Tool) { forall seen, p, d :: t.learn(seen, p, d) == seen + t.scored(p, d) }

  // ---- The reference: one walk over the whole corpus ----

  datatype Diff = Diff(package: string, path: string)

  function DiffsOf(package: string, paths: seq<string>): seq<Diff> {
    if paths == [] then [] else [Diff(package, paths[0])] + DiffsOf(package, paths[1..])
  }

  function Corpus(bundles: seq<Bundle>): seq<Diff> {
    if bundles == [] then [] else DiffsOf(bundles[0].package, bundles[0].paths) + Corpus(bundles[1..])
  }

  /** Whether the diff counted as number `index` (from one) is looked at. */
  predicate Sampled(index: nat, sample: int) { sample <= 1 || index % sample == 0 }

  function Picker(sample: int): nat -> bool { (index: nat) => Sampled(index, sample) }

  /** The sampled diffs, `index` having been counted before them. */
  function Thin(diffs: seq<Diff>, index: nat, pick: nat -> bool): seq<Diff> {
    if diffs == [] then []
    else if pick(index + 1) then [diffs[0]] + Thin(diffs[1..], index + 1, pick)
    else Thin(diffs[1..], index + 1, pick)
  }

  function Known(seen: map<string, set<Url>>, package: string): set<Url> {
    if package in seen then seen[package] else {}
  }

  function Flag(d: Diff, f: Fact, threshold: int): seq<Row> {
    if f.score > threshold then [Row(d.package, d.path, f)] else []
  }

  /** Scan diff after diff with one growing set for each package and one for all. */
  function Walk(diffs: seq<Diff>, seen: map<string, set<Url>>, all: set<Url>, t: Tool): seq<Row> {
    if diffs == [] then []
    else
      var d := diffs[0];
      var known := Known(seen, d.package);
      Flag(d, t.scan(d.package, d.path, known, all), t.threshold)
        + Walk(diffs[1..], seen[d.package := t.learn(known, d.package, d.path)], t.learn(all, d.package, d.path), t)
  }

  // ---- The plan ----

  function Selected(paths: seq<string>, index: nat, pick: nat -> bool): seq<string> {
    if paths == [] then []
    else if pick(index + 1) then [paths[0]] + Selected(paths[1..], index + 1, pick)
    else Selected(paths[1..], index + 1, pick)
  }

  /** The URLs seen after some diffs of a package, those of `seen` included. */
  function Add(seen: set<Url>, package: string, paths: seq<string>, t: Tool): set<Url>
    decreases |paths|
  {
    if paths == [] then seen else Add(seen + t.scored(package, paths[0]), package, paths[1..], t)
  }

  /** The URLs seen after scanning some diffs of a package. */
  function Learned(seen: set<Url>, package: string, paths: seq<string>, t: Tool): set<Url>
    decreases |paths|
  {
    if paths == [] then seen else Learned(t.learn(seen, package, paths[0]), package, paths[1..], t)
  }

  lemma {:induction false} LearnedIsAdd(seen: set<Url>, package: string, paths: seq<string>, t: Tool)
    requires AddsScored(t)
    ensures Learned(seen, package, paths, t) == Add(seen, package, paths, t)
    decreases |paths|
  {
    if paths != [] {
      LearnedIsAdd(t.learn(seen, package, paths[0]), package, paths[1..], t);
    }
  }

  function Plan(bundles: seq<Bundle>, index: nat, all: set<Url>, pick: nat -> bool, t: Tool): seq<Task> {
    if bundles == [] then []
    else
      var b := bundles[0];
      var selected := Selected(b.paths, index, pick);
      var rest := Plan(bundles[1..], index + |b.paths|, Add(all, b.package, selected, t), pick, t);
      if selected == [] then rest else [Task(b.package, selected, all)] + rest
  }

  /** One package's rows, from the URLs known for it and anywhere. */
  function Rows(package: string, paths: seq<string>, known: set<Url>, all: set<Url>, t: Tool): seq<Row> {
    if paths == [] then []
    else
      Flag(Diff(package, paths[0]), t.scan(package, paths[0], known, all), t.threshold)
        + Rows(package, paths[1..], t.learn(known, package, paths[0]), t.learn(all, package, paths[0]), t)
  }

  function TaskRows(task: Task, t: Tool): seq<Row> { Rows(task.package, task.paths, {}, task.prefix, t) }

  function AllRows(tasks: seq<Task>, t: Tool): seq<Row> {
    if tasks == [] then [] else TaskRows(tasks[0], t) + AllRows(tasks[1..], t)
  }

  function Scanned(tasks: seq<Task>): nat {
    if tasks == [] then 0 else |tasks[0].paths| + Scanned(tasks[1..])
  }

  // ---- Planned scanning is the walk ----

  lemma {:induction false} ThinConcat(a: seq<Diff>, b: seq<Diff>, index: nat, pick: nat -> bool)
    ensures Thin(a + b, index, pick) == Thin(a, index, pick) + Thin(b, index + |a|, pick)
  {
    if a == [] {
      assert a + b == b;
    } else {
      assert (a + b)[1..] == a[1..] + b;
      ThinConcat(a[1..], b, index + 1, pick);
      Shift([a[0]], Thin(a[1..], index + 1, pick), Thin(b, index + |a|, pick));
    }
  }

  lemma DiffsCons(package: string, path: string, paths: seq<string>)
    ensures DiffsOf(package, [path] + paths) == [Diff(package, path)] + DiffsOf(package, paths)
  {
    assert ([path] + paths)[1..] == paths;
  }

  lemma {:induction false} ThinPackage(package: string, paths: seq<string>, index: nat, pick: nat -> bool)
    ensures Thin(DiffsOf(package, paths), index, pick) == DiffsOf(package, Selected(paths, index, pick))
    ensures |DiffsOf(package, paths)| == |paths|
  {
    if paths != [] {
      ThinPackage(package, paths[1..], index + 1, pick);
      assert DiffsOf(package, paths)[1..] == DiffsOf(package, paths[1..]);
      var more := Selected(paths[1..], index + 1, pick);
      DiffsCons(package, paths[0], more);
    }
  }

  lemma MapTwice<K, V>(m: map<K, V>, k: K, v: V, w: V)
    ensures m[k := v][k := w] == m[k := w]
  {
  }

  function After(seen: map<string, set<Url>>, package: string, paths: seq<string>, t: Tool): map<string, set<Url>> {
    if paths == [] then seen else seen[package := Learned(Known(seen, package), package, paths, t)]
  }

  lemma AfterStep(seen: map<string, set<Url>>, package: string, paths: seq<string>, t: Tool)
    requires paths != []
    ensures After(seen[package := t.learn(Known(seen, package), package, paths[0])], package, paths[1..], t)
      == After(seen, package, paths, t)
  {
    var known := t.learn(Known(seen, package), package, paths[0]);
    MapTwice(seen, package, known, Learned(known, package, paths[1..], t));
  }

  /** The walk through one package's diffs gives that package's rows, and leaves its URLs behind. */
  lemma {:induction false} WalkPackage(package: string, paths: seq<string>, rest: seq<Diff>, seen: map<string, set<Url>>,
      all: set<Url>, t: Tool)
    ensures Walk(DiffsOf(package, paths) + rest, seen, all, t) ==
      Rows(package, paths, Known(seen, package), all, t)
        + Walk(rest, After(seen, package, paths, t), Learned(all, package, paths, t), t)
  {
    var diffs := DiffsOf(package, paths) + rest;
    if paths == [] {
      assert diffs == rest;
    } else {
      var known := t.learn(Known(seen, package), package, paths[0]);
      assert diffs[1..] == DiffsOf(package, paths[1..]) + rest;
      WalkPackage(package, paths[1..], rest, seen[package := known], t.learn(all, package, paths[0]), t);
      AfterStep(seen, package, paths, t);
    }
  }

  /** What is known about packages that do not come up does not matter. */
  lemma {:induction false} WalkForgets(diffs: seq<Diff>, a: map<string, set<Url>>, b: map<string, set<Url>>, all: set<Url>, t: Tool)
    requires forall d :: d in diffs ==> Known(a, d.package) == Known(b, d.package)
    ensures Walk(diffs, a, all, t) == Walk(diffs, b, all, t)
  {
    if diffs != [] {
      var d := diffs[0];
      assert d in diffs;
      var now := t.learn(Known(a, d.package), d.package, d.path);
      WalkForgets(diffs[1..], a[d.package := now], b[d.package := now], t.learn(all, d.package, d.path), t);
    }
  }

  lemma {:induction false} CorpusPackages(bundles: seq<Bundle>, index: nat, pick: nat -> bool, d: Diff)
    requires d in Thin(Corpus(bundles), index, pick)
    ensures exists b :: b in bundles && b.package == d.package
  {
    if bundles != [] {
      var b := bundles[0];
      ThinConcat(DiffsOf(b.package, b.paths), Corpus(bundles[1..]), index, pick);
      ThinPackage(b.package, b.paths, index, pick);
      if d in DiffsOf(b.package, Selected(b.paths, index, pick)) {
        DiffsNamed(b.package, Selected(b.paths, index, pick), d);
        assert b in bundles;
      } else {
        CorpusPackages(bundles[1..], index + |b.paths|, pick, d);
      }
    }
  }

  lemma {:induction false} DiffsNamed(package: string, paths: seq<string>, d: Diff)
    requires d in DiffsOf(package, paths)
    ensures d.package == package
  {
    if d != Diff(package, paths[0]) {
      DiffsNamed(package, paths[1..], d);
    }
  }

  predicate PackagesDistinct(bundles: seq<Bundle>) {
    forall i, j :: 0 <= i < j < |bundles| ==> bundles[i].package != bundles[j].package
  }

  lemma OtherPackage(bundles: seq<Bundle>, index: nat, pick: nat -> bool, d: Diff)
    requires PackagesDistinct(bundles) && bundles != [] && d in Thin(Corpus(bundles[1..]), index, pick)
    ensures d.package != bundles[0].package
  {
    var rest := bundles[1..];
    CorpusPackages(rest, index, pick, d);
    var c :| c in rest && c.package == d.package;
    var k :| 0 <= k < |rest| && rest[k] == c;
    assert bundles[k + 1] == c;
  }

  lemma ThinBundle(bundles: seq<Bundle>, index: nat, pick: nat -> bool)
    requires bundles != []
    ensures
      var b := bundles[0];
      Thin(Corpus(bundles), index, pick) ==
        DiffsOf(b.package, Selected(b.paths, index, pick)) + Thin(Corpus(bundles[1..]), index + |b.paths|, pick)
  {
    var b := bundles[0];
    ThinConcat(DiffsOf(b.package, b.paths), Corpus(bundles[1..]), index, pick);
    ThinPackage(b.package, b.paths, index, pick);
  }

  lemma ForgetPackage(diffs: seq<Diff>, package: string, paths: seq<string>, all: set<Url>, t: Tool)
    requires forall d :: d in diffs ==> d.package != package
    ensures Walk(diffs, After(map[], package, paths, t), all, t) == Walk(diffs, map[], all, t)
  {
    WalkForgets(diffs, After(map[], package, paths, t), map[], all, t);
  }

  /** One package of the walk over the sampled corpus. */
  lemma WalkBundle(b: Bundle, selected: seq<string>, diffs: seq<Diff>, all: set<Url>, t: Tool)
    requires forall d :: d in diffs ==> d.package != b.package
    ensures Walk(DiffsOf(b.package, selected) + diffs, map[], all, t) ==
      Rows(b.package, selected, {}, all, t) + Walk(diffs, map[], Learned(all, b.package, selected, t), t)
  {
    WalkPackage(b.package, selected, diffs, map[], all, t);
    ForgetPackage(diffs, b.package, selected, Learned(all, b.package, selected, t), t);
  }

  lemma WalkFirst(bundles: seq<Bundle>, index: nat, all: set<Url>, pick: nat -> bool, t: Tool)
    requires PackagesDistinct(bundles) && bundles != []
    ensures
      var b := bundles[0];
      var selected := Selected(b.paths, index, pick);
      Walk(Thin(Corpus(bundles), index, pick), map[], all, t) == Rows(b.package, selected, {}, all, t)
        + Walk(Thin(Corpus(bundles[1..]), index + |b.paths|, pick), map[], Learned(all, b.package, selected, t), t)
  {
    var b := bundles[0];
    var diffs := Thin(Corpus(bundles[1..]), index + |b.paths|, pick);
    forall d | d in diffs ensures d.package != b.package {
      OtherPackage(bundles, index + |b.paths|, pick, d);
    }
    ThinBundle(bundles, index, pick);
    WalkBundle(b, Selected(b.paths, index, pick), diffs, all, t);
  }

  /** The plan with prefixes as scanning would have left them. */
  function LearnedPlan(bundles: seq<Bundle>, index: nat, all: set<Url>, pick: nat -> bool, t: Tool): seq<Task> {
    if bundles == [] then []
    else
      var b := bundles[0];
      var selected := Selected(b.paths, index, pick);
      var rest := LearnedPlan(bundles[1..], index + |b.paths|, Learned(all, b.package, selected, t), pick, t);
      if selected == [] then rest else [Task(b.package, selected, all)] + rest
  }

  /** The planned prefixes are those. */
  lemma {:induction false} PlanIsLearned(bundles: seq<Bundle>, index: nat, all: set<Url>, pick: nat -> bool, t: Tool)
    requires AddsScored(t)
    ensures Plan(bundles, index, all, pick, t) == LearnedPlan(bundles, index, all, pick, t)
  {
    if bundles != [] {
      var b := bundles[0];
      var selected := Selected(b.paths, index, pick);
      LearnedIsAdd(all, b.package, selected, t);
      PlanIsLearned(bundles[1..], index + |b.paths|, Learned(all, b.package, selected, t), pick, t);
    }
  }

  lemma PlanBundle(bundles: seq<Bundle>, index: nat, all: set<Url>, pick: nat -> bool, t: Tool)
    requires bundles != []
    ensures
      var b := bundles[0];
      var selected := Selected(b.paths, index, pick);
      AllRows(LearnedPlan(bundles, index, all, pick, t), t) == Rows(b.package, selected, {}, all, t)
        + AllRows(LearnedPlan(bundles[1..], index + |b.paths|, Learned(all, b.package, selected, t), pick, t), t)
  {
    var b := bundles[0];
    var selected := Selected(b.paths, index, pick);
    PlanRows(b.package, selected, all, LearnedPlan(bundles[1..], index + |b.paths|, Learned(all, b.package, selected, t), pick, t), t);
  }

  lemma {:induction false} PlanFollowsWalk(bundles: seq<Bundle>, index: nat, all: set<Url>, pick: nat -> bool, t: Tool)
    requires PackagesDistinct(bundles)
    ensures AllRows(LearnedPlan(bundles, index, all, pick, t), t) == Walk(Thin(Corpus(bundles), index, pick), map[], all, t)
  {
    if bundles != [] {
      var b, rest := bundles[0], bundles[1..];
      var selected := Selected(b.paths, index, pick);
      var next, all' := index + |b.paths|, Learned(all, b.package, selected, t);
      var rows, tail := Rows(b.package, selected, {}, all, t), Walk(Thin(Corpus(rest), next, pick), map[], all', t);
      assert Walk(Thin(Corpus(bundles), index, pick), map[], all, t) == rows + tail by { WalkFirst(bundles, index, all, pick, t); }
      assert AllRows(LearnedPlan(bundles, index, all, pick, t), t) == rows + tail by {
        PlanFollowsWalk(rest, next, all', pick, t);
        PlanBundle(bundles, index, all, pick, t);
      }
    }
  }

  lemma PlanRows(package: string, selected: seq<string>, all: set<Url>, rest: seq<Task>, t: Tool)
    ensures AllRows(if selected == [] then rest else [Task(package, selected, all)] + rest, t)
      == Rows(package, selected, {}, all, t) + AllRows(rest, t)
  {
    if selected == [] {
      assert [] + AllRows(rest, t) == AllRows(rest, t);
    } else {
      assert ([Task(package, selected, all)] + rest)[1..] == rest;
    }
  }

  /** Scanning each planned package on its own flags exactly the rows of one walk with a single global set of seen URLs. */
  lemma PlanIsWalk(bundles: seq<Bundle>, sample: int, t: Tool)
    requires PackagesDistinct(bundles) && AddsScored(t)
    ensures AllRows(Plan(bundles, 0, {}, Picker(sample), t), t) == Walk(Thin(Corpus(bundles), 0, Picker(sample)), map[], {}, t)
  {
    PlanIsLearned(bundles, 0, {}, Picker(sample), t);
    PlanFollowsWalk(bundles, 0, {}, Picker(sample), t);
  }

  // ---- How many diffs are scanned ----

  lemma NextMultiple(i: nat, s: int)
    requires s > 1
    ensures (i + 1) / s == i / s + (if (i + 1) % s == 0 then 1 else 0)
  {
    var q, r := i / s, i % s;
    assert i == q * s + r;
    if r == s - 1 {
      assert i + 1 == (q + 1) * s + 0;
      DivMod(i + 1, q + 1, 0, s);
    } else {
      assert i + 1 == q * s + (r + 1);
      DivMod(i + 1, q, r + 1, s);
    }
  }

  lemma {:induction false} ThinCount(diffs: seq<Diff>, index: nat, sample: int)
    ensures sample <= 1 ==> |Thin(diffs, index, Picker(sample))| == |diffs|
    ensures sample > 1 ==> |Thin(diffs, index, Picker(sample))| == (index + |diffs|) / sample - index / sample
  {
    if diffs != [] {
      ThinCount(diffs[1..], index + 1, sample);
      if sample > 1 { NextMultiple(index, sample); }
    }
  }

  lemma ScannedFirst(package: string, selected: seq<string>, all: set<Url>, rest: seq<Task>)
    ensures Scanned(if selected == [] then rest else [Task(package, selected, all)] + rest) == |selected| + Scanned(rest)
  {
    if selected != [] {
      assert ([Task(package, selected, all)] + rest)[1..] == rest;
    }
  }

  lemma {:induction false} DiffsCount(package: string, paths: seq<string>)
    ensures |DiffsOf(package, paths)| == |paths|
  {
    if paths != [] {
      DiffsCount(package, paths[1..]);
    }
  }

  lemma {:induction false} PlanCount(bundles: seq<Bundle>, index: nat, all: set<Url>, pick: nat -> bool, t: Tool)
    ensures Scanned(Plan(bundles, index, all, pick, t)) == |Thin(Corpus(bundles), index, pick)|
  {
    if bundles != [] {
      var b := bundles[0];
      var selected, next := Selected(b.paths, index, pick), index + |b.paths|;
      var all' := Add(all, b.package, selected, t);
      assert |Thin(Corpus(bundles), index, pick)| == |selected| + |Thin(Corpus(bundles[1..]), next, pick)| by {
        ThinBundle(bundles, index, pick);
        DiffsCount(b.package, selected);
      }
      PlanCount(bundles[1..], next, all', pick, t);
      ScannedFirst(b.package, selected, all, Plan(bundles[1..], next, all', pick, t));
    }
  }

  /** With a sample above one the whole corpus is thinned by one counter: one diff in `sample`, rounded down. */
  lemma ScannedCount(bundles: seq<Bundle>, sample: int, t: Tool)
    ensures Scanned(Plan(bundles, 0, {}, Picker(sample), t)) ==
      if sample > 1 then |Corpus(bundles)| / sample else |Corpus(bundles)|
  {
    PlanCount(bundles, 0, {}, Picker(sample), t);
    ThinCount(Corpus(bundles), 0, sample);
    if sample > 1 { DivMod(0, 0, 0, sample); }
  }

  // ---- The loops ----

  lemma Shift<A>(front: seq<A>, a: seq<A>, rest: seq<A>)
    ensures front + (a + rest) == (front + a) + rest && front + [] == front
  {
  }

  lemma Whole<A>(a: seq<A>)
    ensures a[0..] == a && a[|a|..] == [] && a[..0] == [] && a[..|a|] == a
  {
  }

  lemma SelectedAt(front: seq<string>, paths: seq<string>, k: nat, index: nat, pick: nat -> bool)
    requires k < |paths|
    ensures front + Selected(paths[k..], index, pick) ==
      (if pick(index + 1) then front + [paths[k]] else front) + Selected(paths[k + 1..], index + 1, pick)
  {
    assert paths[k..][0] == paths[k] && paths[k..][1..] == paths[k + 1..];
    Shift(front, [paths[k]], Selected(paths[k + 1..], index + 1, pick));
  }

  lemma {:induction false} AddAppend(seen: set<Url>, package: string, paths: seq<string>, path: string, t: Tool)
    ensures Add(seen, package, paths + [path], t) == Add(seen, package, paths, t) + t.scored(package, path)
    decreases |paths|
  {
    if paths == [] {
      assert (paths + [path])[1..] == [];
    } else {
      AddAppend(seen + t.scored(package, paths[0]), package, paths[1..], path, t);
      assert (paths + [path])[1..] == paths[1..] + [path];
    }
  }

  /** Adding them at the end adds the same as adding them one by one. */
  lemma {:induction false} AddLater(seen: set<Url>, package: string, paths: seq<string>, t: Tool)
    ensures Add(seen, package, paths, t) == seen + Add({}, package, paths, t)
    decreases |paths|
  {
    if paths == [] {
      assert seen + {} == seen;
    } else {
      var last := |paths| - 1;
      assert paths == paths[..last] + [paths[last]];
      AddAppend(seen, package, paths[..last], paths[last], t);
      AddAppend({}, package, paths[..last], paths[last], t);
      AddLater(seen, package, paths[..last], t);
      Regroup(seen, Add({}, package, paths[..last], t), t.scored(package, paths[last]));
    }
  }

  lemma Regroup(a: set<Url>, b: set<Url>, c: set<Url>)
    ensures (a + b) + c == a + (b + c)
  {
  }

  /** One package of the plan: its selected diffs, the URLs they add, and the counter behind them. */
  method PlanPackage(b: Bundle, start: nat, sample: int, t: Tool)
    returns (selected: seq<string>, additions: set<Url>, index: nat)
    ensures selected == Selected(b.paths, start, Picker(sample))
    ensures additions == Add({}, b.package, selected, t)
    ensures index == start + |b.paths|
  {
    selected, additions, index := [], {}, start;
    var k := 0;
    Whole(b.paths);
    while k < |b.paths|
      invariant 0 <= k <= |b.paths| && index == start + k
      invariant Selected(b.paths, start, Picker(sample)) == selected + Selected(b.paths[k..], index, Picker(sample))
      invariant additions == Add({}, b.package, selected, t)
    {
      var path := b.paths[k];
      SelectedAt(selected, b.paths, k, index, Picker(sample));
      index := index + 1;
      k := k + 1;
      if sample > 1 && index % sample != 0 { continue; }
      AddAppend({}, b.package, selected, path, t);
      selected := selected + [path];
      additions := additions + t.scored(b.package, path);
    }
    Shift(selected, [], []);
  }

  lemma PlanAt(front: seq<Task>, bundles: seq<Bundle>, k: nat, index: nat, all: set<Url>, pick: nat -> bool, t: Tool)
    requires k < |bundles|
    ensures
      var b := bundles[k];
      var selected := Selected(b.paths, index, pick);
      front + Plan(bundles[k..], index, all, pick, t) ==
        (if selected == [] then front else front + [Task(b.package, selected, all)])
          + Plan(bundles[k + 1..], index + |b.paths|, Add(all, b.package, selected, t), pick, t)
  {
    var b := bundles[k];
    var selected := Selected(b.paths, index, pick);
    assert bundles[k..][0] == b && bundles[k..][1..] == bundles[k + 1..];
    Shift(front, [Task(b.package, selected, all)],
      Plan(bundles[k + 1..], index + |b.paths|, Add(all, b.package, selected, t), pick, t));
  }

  method MakePlan(bundles: seq<Bundle>, sample: int, t: Tool) returns (plan: seq<Task>)
    ensures plan == Plan(bundles, 0, {}, Picker(sample), t)
  {
    plan := [];
    var globalSeen: set<Url> := {};
    var index: nat := 0;
    var k := 0;
    ghost var pick := Picker(sample);
    Whole(bundles);
    while k < |bundles|
      invariant 0 <= k <= |bundles|
      invariant Plan(bundles, 0, {}, pick, t) == plan + Plan(bundles[k..], index, globalSeen, pick, t)
    {
      var b := bundles[k];
      PlanAt(plan, bundles, k, index, globalSeen, pick, t);
      var selected, additions;
      selected, additions, index := PlanPackage(b, index, sample, t);
      if |selected| > 0 {
        plan := plan + [Task(b.package, selected, globalSeen)];
      }
      AddLater(globalSeen, b.package, selected, t);
      globalSeen := globalSeen + additions;
      k := k + 1;
    }
    Shift(plan, [], []);
  }

  lemma RowsAt(front: seq<Row>, package: string, paths: seq<string>, k: nat, known: set<Url>, all: set<Url>, t: Tool)
    requires k < |paths|
    ensures
      var fact := t.scan(package, paths[k], known, all);
      front + Rows(package, paths[k..], known, all, t) ==
        (if fact.score > t.threshold then front + [Row(package, paths[k], fact)] else front)
          + Rows(package, paths[k + 1..], t.learn(known, package, paths[k]), t.learn(all, package, paths[k]), t)
  {
    assert paths[k..][0] == paths[k] && paths[k..][1..] == paths[k + 1..];
    Shift(front, Flag(Diff(package, paths[k]), t.scan(package, paths[k], known, all), t.threshold),
      Rows(package, paths[k + 1..], t.learn(known, package, paths[k]), t.learn(all, package, paths[k]), t));
  }

  /** Scan one package with its own two sets. */
  method ScanTask(task: Task, t: Tool) returns (rows: seq<Row>)
    ensures rows == TaskRows(task, t)
  {
    rows := [];
    var pkgSeen: set<Url>, globalSeen := {}, task.prefix;
    var k := 0;
    Whole(task.paths);
    while k < |task.paths|
      invariant 0 <= k <= |task.paths|
      invariant TaskRows(task, t) == rows + Rows(task.package, task.paths[k..], pkgSeen, globalSeen, t)
    {
      var path := task.paths[k];
      RowsAt(rows, task.package, task.paths, k, pkgSeen, globalSeen, t);
      var fact := t.scan(task.package, path, pkgSeen, globalSeen);
      pkgSeen, globalSeen := t.learn(pkgSeen, task.package, path), t.learn(globalSeen, task.package, path);
      if fact.score > t.threshold {
        rows := rows + [Row(task.package, path, fact)];
      }
      k := k + 1;
    }
    Shift(rows, [], []);
  }

  lemma {:induction false} AllRowsAppend(tasks: seq<Task>, task: Task, t: Tool)
    ensures AllRows(tasks + [task], t) == AllRows(tasks, t) + TaskRows(task, t)
  {
    if tasks == [] {
      assert (tasks + [task])[1..] == [];
    } else {
      AllRowsAppend(tasks[1..], task, t);
      assert (tasks + [task])[1..] == tasks[1..] + [task];
    }
  }

  /** The pool: the workers get to the tasks in any order at all; each result is kept at its task's place. */
  method RunPool(tasks: seq<Task>, t: Tool) returns (done: array<seq<Row>>)
    ensures done.Length == |tasks| && forall k :: 0 <= k < |tasks| ==> done[k] == TaskRows(tasks[k], t)
  {
    done := new seq<Row>[|tasks|];
    var left := Below(|tasks|);
    while left != {}
      invariant forall k :: k in left ==> 0 <= k < |tasks|
      invariant forall k :: 0 <= k < |tasks| && k !in left ==> done[k] == TaskRows(tasks[k], t)
      decreases |left|
    {
      var k :| k in left;
      var rows := ScanTask(tasks[k], t);
      done[k] := rows;
      left := left - {k};
    }
  }

  /** The rows of the tasks in plan order. */
  method Join(tasks: seq<Task>, t: Tool, done: array<seq<Row>>) returns (flagged: seq<Row>)
    requires done.Length == |tasks| && forall k :: 0 <= k < |tasks| ==> done[k] == TaskRows(tasks[k], t)
    ensures flagged == AllRows(tasks, t)
  {
    flagged := [];
    var k := 0;
    while k < |tasks|
      invariant 0 <= k <= |tasks|
      invariant flagged == AllRows(tasks[..k], t)
    {
      AllRowsAppend(tasks[..k], tasks[k], t);
      assert tasks[..k + 1] == tasks[..k] + [tasks[k]];
      flagged := flagged + done[k];
      k := k + 1;
    }
    Whole(tasks);
  }

  /**
   * Plan, scan the tasks in any order, join. Whichever way the tasks are shared out, the flagged rows are those of the
   * one walk.
   */
  method ScanBenign(bundles: seq<Bundle>, sample: int, t: Tool) returns (flagged: seq<Row>, scanned: nat)
    requires PackagesDistinct(bundles) && AddsScored(t)
    ensures flagged == Walk(Thin(Corpus(bundles), 0, Picker(sample)), map[], {}, t)
    ensures scanned == if sample > 1 then |Corpus(bundles)| / sample else |Corpus(bundles)|
  {
    var tasks := MakePlan(bundles, sample, t);
    scanned := Scanned(tasks);
    var done := RunPool(tasks, t);
    flagged := Join(tasks, t, done);
    ScannedCount(bundles, sample, t);
    PlanIsWalk(bundles, sample, t);
  }
}
