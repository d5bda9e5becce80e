/** `harness/code_fixes.py`: which fixes the gate passes, and what the answered files are. */
module FixMeaning {
  import opened CodeFixes
  import opened Options

  // ---- The gate ----

  /** What every shaped entry has to meet: a diff that can be read, writable paths, at most ten files and 400 added lines. */
  predicate Eligible(g: Gate, fix: Fix, rd: Reader) {
    var targets := rd.targets(fix.diff);
    && targets != [] && (forall t :: t in targets ==> rd.allowed(t))
    && |g.seen.Keys + SetOf(targets)| <= 10 && g.total + rd.added(fix.diff) <= 400
  }

  /** The first of the paths that has an owner. */
  predicate FirstOwned(targets: seq<string>, seen: map<string, string>, t: string) {
    exists k :: 0 <= k < |targets| && targets[k] == t && t in seen && forall l :: 0 <= l < k ==> targets[l] !in seen
  }

  lemma {:induction false} ConflictIsFirst(targets: seq<string>, seen: map<string, string>)
    ensures Conflict(targets, seen).None? <==> forall t :: t in targets ==> t !in seen
    ensures Conflict(targets, seen).Some? ==> FirstOwned(targets, seen, Conflict(targets, seen).value)
  {
    if targets != [] {
      var rest := targets[1..];
      ConflictIsFirst(rest, seen);
      if targets[0] in seen {
        assert targets[0] in targets;
      } else {
        assert targets == [targets[0]] + rest;
        if Conflict(rest, seen).Some? {
          var t := Conflict(rest, seen).value;
          var k :| 0 <= k < |rest| && rest[k] == t && t in seen && forall l :: 0 <= l < k ==> rest[l] !in seen;
          forall l | 0 <= l < k + 1 ensures targets[l] !in seen { assert l > 0 ==> targets[l] == rest[l - 1]; }
          assert targets[k + 1] == t;
        }
      }
    }
  }

  lemma UnionSize(a: set<string>, b: set<string>)
    ensures |a + b| == |a| + |b - a|
  {
    assert a + b == a + (b - a);
  }

  /**
   * An entry passes exactly when it is eligible and owns its paths alone; it is dropped as the same exactly when it is
   * eligible and the first of its paths that has an owner is owned by the very same diff.
   */
  lemma PassIff(g: Gate, fix: Fix, package: string, rd: Reader)
    ensures
      var (verdict, targets) := (Judge(g, Shaped(fix, package), rd), rd.targets(fix.diff));
      && (verdict == Pass <==> Eligible(g, fix, rd) && forall t :: t in targets ==> t !in g.seen)
      && (verdict == Same <==> Eligible(g, fix, rd) && exists t :: t in targets && FirstOwned(targets, g.seen, t) && g.seen[t] == fix.diff)
  {
    var targets := rd.targets(fix.diff);
    UnionSize(g.seen.Keys, SetOf(targets));
    ConflictIsFirst(targets, g.seen);
    if Conflict(targets, g.seen).Some? {
      var c := Conflict(targets, g.seen).value;
      forall t | t in targets && FirstOwned(targets, g.seen, t) ensures t == c { OneFirst(targets, g.seen, t, c); }
    }
  }

  lemma OneFirst(targets: seq<string>, seen: map<string, string>, s: string, t: string)
    requires FirstOwned(targets, seen, s) && FirstOwned(targets, seen, t)
    ensures s == t
  {
    var k :| 0 <= k < |targets| && targets[k] == s && s in seen && forall l :: 0 <= l < k ==> targets[l] !in seen;
    var m :| 0 <= m < |targets| && targets[m] == t && t in seen && forall l :: 0 <= l < m ==> targets[l] !in seen;
  }

  /** The entries that passed, in order. */
  function Passing(raws: seq<Raw>, verdicts: seq<Verdict>): seq<Accepted>
    requires |raws| == |verdicts|
  {
    if raws == [] then []
    else
      var n := |raws| - 1;
      Passing(raws[..n], verdicts[..n]) +
      (if verdicts[n] == Pass && raws[n].Shaped? then [Accepted(raws[n].fix, raws[n].package)] else [])
  }

  /** What the gate accepts are exactly the entries that passed. */
  lemma {:induction false} AcceptedArePassed(raws: seq<Raw>, rd: Reader)
    ensures |Verdicts(raws, rd)| == |raws| && Gated(raws, rd).accepted == Passing(raws, Verdicts(raws, rd))
  {
    if raws != [] {
      var n := |raws| - 1;
      AcceptedArePassed(raws[..n], rd);
      assert Verdicts(raws, rd)[..n] == Verdicts(raws[..n], rd);
      assert Gated(raws[..n], rd).accepted + [] == Gated(raws[..n], rd).accepted;
    }
  }

  /** The first owner of a path stays its owner. */
  lemma {:induction false} OwnersStay(raws: seq<Raw>, rd: Reader, k: nat)
    requires k <= |raws|
    ensures forall p :: p in Gated(raws[..k], rd).seen ==> p in Gated(raws, rd).seen && Gated(raws, rd).seen[p] == Gated(raws[..k], rd).seen[p]
  {
    if k == |raws| {
      assert raws[..k] == raws;
    } else {
      var n := |raws| - 1;
      OwnersStay(raws[..n], rd, k);
      assert raws[..n][..k] == raws[..k];
      AdmitKeeps(Gated(raws[..n], rd), raws[n], rd);
    }
  }

  lemma AdmitKeeps(g: Gate, raw: Raw, rd: Reader)
    ensures forall p :: p in g.seen ==> p in Admit(g, raw, rd).seen && Admit(g, raw, rd).seen[p] == g.seen[p]
  {
    if raw.Shaped? && Judge(g, raw, rd) == Pass { PassMeans(g, raw, rd); }
  }

  // ---- The files ----

  /** The diffs of some fixes, applied one after the other. */
  ghost function Applied(tree: Tree, fixes: seq<Accepted>, apply: Applier): Tree {
    if fixes == [] then tree
    else
      var n := |fixes| - 1;
      apply(Applied(tree, fixes[..n], apply), fixes[n].fix.diff).1
  }

  /** Fix `i` applied exactly when its diff applies to the seed with the good fixes before it. */
  ghost predicate OkAt(seed: Tree, accepted: seq<Accepted>, oks: seq<bool>, apply: Applier, i: nat)
    requires |accepted| == |oks| && i < |oks|
  {
    oks[i] <==> apply(Applied(seed, Flagged(accepted[..i], oks[..i], true), apply), accepted[i].fix.diff).0
  }

  lemma OkAtFront(seed: Tree, accepted: seq<Accepted>, oks: seq<bool>, apply: Applier, i: nat, n: nat)
    requires |accepted| == |oks| && i < n <= |oks| && OkAt(seed, accepted[..n], oks[..n], apply, i)
    ensures OkAt(seed, accepted, oks, apply, i)
  {
    assert accepted[..n][..i] == accepted[..i] && oks[..n][..i] == oks[..i];
  }

  lemma AppliedOne(seed: Tree, good: seq<Accepted>, a: Accepted, apply: Applier)
    ensures Applied(seed, good + [a], apply) == apply(Applied(seed, good, apply), a.fix.diff).1
    ensures good + [] == good
  {
    assert (good + [a])[..|good|] == good;
  }

  /** The tree is the seed with the good fixes applied, as if the others had never been tried; good is what applied then. */
  lemma {:induction false} ReplayIsApplied(seed: Tree, accepted: seq<Accepted>, targets: set<string>, apply: Applier)
    requires Replay(seed, accepted, targets, apply).Some?
    ensures
      var (tree, oks) := Replay(seed, accepted, targets, apply).value;
      && |oks| == |accepted| && tree == Applied(seed, Flagged(accepted, oks, true), apply)
      && forall i :: 0 <= i < |oks| ==> OkAt(seed, accepted, oks, apply, i)
  {
    hide Applied, OkAt;
    if accepted == [] {
      NothingApplied(seed, apply);
    } else {
      var n := |accepted| - 1;
      ReplayIsApplied(seed, accepted[..n], targets, apply);
      var (before, was) := Replay(seed, accepted[..n], targets, apply).value;
      var (tree, oks) := Replay(seed, accepted, targets, apply).value;
      assert oks[..n] == was;
      AppliedOne(seed, Flagged(accepted[..n], was, true), accepted[n], apply);
      forall i | 0 <= i < n ensures OkAt(seed, accepted, oks, apply, i) { OkAtFront(seed, accepted, oks, apply, i, n); }
      LastOk(seed, accepted, oks, apply);
    }
  }

  lemma NothingApplied(seed: Tree, apply: Applier)
    ensures Applied(seed, [], apply) == seed
  {
  }

  lemma LastOk(seed: Tree, accepted: seq<Accepted>, oks: seq<bool>, apply: Applier)
    requires |accepted| == |oks| > 0
    requires
      var n := |oks| - 1;
      oks[n] <==> apply(Applied(seed, Flagged(accepted[..n], oks[..n], true), apply), accepted[n].fix.diff).0
    ensures OkAt(seed, accepted, oks, apply, |oks| - 1)
  {
  }

  /** The paths reported as changed are those the good fixes write. */
  lemma {:induction false} ChangedIs(accepted: seq<Accepted>, oks: seq<bool>, rd: Reader, p: string)
    requires |accepted| == |oks|
    ensures p in Changed(accepted, oks, rd) <==> exists a :: a in Flagged(accepted, oks, true) && p in rd.targets(a.fix.diff)
  {
    if accepted != [] {
      var n := |accepted| - 1;
      ChangedIs(accepted[..n], oks[..n], rd, p);
      var front, a := Flagged(accepted[..n], oks[..n], true), accepted[n];
      assert forall b :: b in front + [a] <==> b in front || b == a;
      assert front + [] == front;
    }
  }

  lemma {:induction false} AddNewIs(listed: seq<string>, more: seq<string>, p: string)
    ensures p in AddNew(listed, more) <==> p in listed || p in more
  {
    if more != [] {
      var n := |more| - 1;
      AddNewIs(listed, more[..n], p);
      assert p in more <==> p in more[..n] || p == more[n];
    }
  }

  /** What is seeded are the repository's own files, of every path some accepted fix writes. */
  lemma {:induction false} TargetsAre(accepted: seq<Accepted>, rd: Reader, p: string)
    ensures p in AllTargets(accepted, rd) <==> exists a :: a in accepted && p in rd.targets(a.fix.diff)
  {
    if accepted != [] {
      var n := |accepted| - 1;
      TargetsAre(accepted[..n], rd, p);
      AddNewIs(AllTargets(accepted[..n], rd), rd.targets(accepted[n].fix.diff), p);
      assert forall a :: a in accepted <==> a in accepted[..n] || a == accepted[n];
    }
  }

  /**
   * The answered files: those written by the fixes that applied, with the text the seeded repository has once exactly those
   * fixes have been applied to it. A path whose text cannot be decoded is left out.
   */
  lemma FilesAre(out: Out, raws: seq<Raw>, rd: Reader, repo: Tree, apply: Applier, decode: string -> Option<string>, p: string)
    requires Answers(out, raws, rd, Some(repo), apply, decode) && Gated(raws, rd).accepted != []
    ensures
      var accepted := Gated(raws, rd).accepted;
      var tree := Applied(Seed(repo, AllTargets(accepted, rd)), out.fixes, apply);
      p in out.files <==>
        (exists a :: a in out.fixes && p in rd.targets(a.fix.diff)) && p in tree && decode(tree[p]).Some?
    ensures
      var tree := Applied(Seed(repo, AllTargets(Gated(raws, rd).accepted, rd)), out.fixes, apply);
      p in out.files ==> p in tree && decode(tree[p]) == Some(out.files[p])
  {
    var accepted := Gated(raws, rd).accepted;
    var targets := AllTargets(accepted, rd);
    ReplayIsApplied(Seed(repo, targets), accepted, SetOf(targets), apply);
    var (tree, oks) := Replay(Seed(repo, targets), accepted, SetOf(targets), apply).value;
    ChangedIs(accepted, oks, rd, p);
  }

  /** And the seeded repository is the repository's own text of the paths the accepted fixes write. */
  lemma SeedIs(repo: Tree, accepted: seq<Accepted>, rd: Reader, p: string)
    ensures
      var seed := Seed(repo, AllTargets(accepted, rd));
      && (p in seed <==> p in repo && exists a :: a in accepted && p in rd.targets(a.fix.diff))
      && (p in seed ==> seed[p] == repo[p])
  {
    TargetsAre(accepted, rd, p);
  }
}
