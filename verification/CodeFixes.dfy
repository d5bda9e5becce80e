/** `harness/code_fixes.py`: the gate on proposed fixes, and their application with rollback in a throwaway tree. */
module CodeFixes {
  import opened Options
  import opened Sets

  const MAX_FIX_FILES := 10
  const MAX_ADDED_LINES := 400

  datatype Fix = Fix(path: string, diff: string, summary: string, linkedFinding: string)

  /** A raw entry as the shape check sees it: refused with a reason, or a fix and its package label. */
  datatype Raw = Malformed(path: string, reason: string) | Shaped(fix: Fix, package: string)

  datatype Accepted = Accepted(fix: Fix, package: string)
  datatype Rejection = Rejection(path: string, reason: string)

  /** What the gate reads off a diff: the paths it writes, whether each may be written, and how many lines it adds. */
  datatype Reader = Reader(targets: string -> seq<string>, allowed: string -> bool, added: string -> nat)

  /** The three variables of the gate loop: who owns which path, what was accepted, how many lines that adds. */
  datatype Gate = Gate(seen: map<string, string>, accepted: seq<Accepted>, total: nat)

  const OPEN := Gate(map[], [], 0)

  datatype Verdict = Pass | Same | Reject(r: Rejection)

  function SetOf(paths: seq<string>): set<string> { set p | p in paths }

  /** The first target that already has an owner. */
  function Conflict(targets: seq<string>, seen: map<string, string>): (c: Option<string>)
    ensures c.Some? ==> c.value in targets && c.value in seen
    ensures c.None? ==> forall t :: t in targets ==> t !in seen
  {
    if targets == [] then None
    else if targets[0] in seen then Some(targets[0])
    else Conflict(targets[1..], seen)
  }

  /** The checks on one entry, in the order the loop makes them. */
  function Judge(g: Gate, raw: Raw, rd: Reader): Verdict {
    match raw
    case Malformed(path, reason) => Reject(Rejection(path, reason))
    case Shaped(fix, _) =>
      var targets := rd.targets(fix.diff);
      if targets == [] then Reject(Rejection(fix.path, "unparseable diff"))
      else if exists t :: t in targets && !rd.allowed(t) then Reject(Rejection(fix.path, "path not allowed"))
      else if |g.seen| + |SetOf(targets) - g.seen.Keys| > MAX_FIX_FILES then Reject(Rejection(fix.path, "too many files"))
      else if g.total + rd.added(fix.diff) > MAX_ADDED_LINES then Reject(Rejection(fix.path, "too many added lines"))
      else
        match Conflict(targets, g.seen)
        case Some(c) => if g.seen[c] == fix.diff then Same else Reject(Rejection(fix.path, "conflicting diff"))
        case None => Pass
  }

  /** The paths `targets` now belong to `diff`. */
  function Own(seen: map<string, string>, targets: seq<string>, diff: string): map<string, string> {
    seen + map t | t in targets :: diff
  }

  /** The gate with one more accepted fix. */
  function With(g: Gate, a: Accepted, rd: Reader): Gate {
    Gate(Own(g.seen, rd.targets(a.fix.diff), a.fix.diff), g.accepted + [a], g.total + rd.added(a.fix.diff))
  }

  function Admit(g: Gate, raw: Raw, rd: Reader): Gate {
    if raw.Shaped? && Judge(g, raw, rd) == Pass then With(g, Accepted(raw.fix, raw.package), rd) else g
  }

  /** The gate after all of `raws`. */
  function Gated(raws: seq<Raw>, rd: Reader): Gate {
    if raws == [] then OPEN else Admit(Gated(raws[..|raws| - 1], rd), raws[|raws| - 1], rd)
  }

  /** The verdict on every entry, each against the gate as the entries before it left it. */
  function Verdicts(raws: seq<Raw>, rd: Reader): seq<Verdict> {
    if raws == [] then []
    else Verdicts(raws[..|raws| - 1], rd) + [Judge(Gated(raws[..|raws| - 1], rd), raws[|raws| - 1], rd)]
  }

  ghost function AddedBy(accepted: seq<Accepted>, rd: Reader): nat {
    if accepted == [] then 0
    else AddedBy(accepted[..|accepted| - 1], rd) + rd.added(accepted[|accepted| - 1].fix.diff)
  }

  /** What the gate keeps true: within both caps, and every path owned by exactly one accepted diff. */
  ghost predicate Sound(g: Gate, rd: Reader) { WithinCaps(g, rd) && Ownership(g, rd) }

  ghost predicate WithinCaps(g: Gate, rd: Reader) {
    |g.seen| <= MAX_FIX_FILES && g.total == AddedBy(g.accepted, rd) <= MAX_ADDED_LINES
  }

  /** `seen` lists exactly the paths the accepted diffs write, each path under the one diff that writes it. */
  ghost predicate Ownership(g: Gate, rd: Reader) {
    && (forall p :: p in g.seen ==> exists i :: Owns(g, rd, i, p) && g.seen[p] == g.accepted[i].fix.diff)
    && (forall i, p :: Owns(g, rd, i, p) ==> p in g.seen)
    && (forall i, j, p :: Owns(g, rd, i, p) && Owns(g, rd, j, p) ==> i == j)
    && (forall i, p :: Owns(g, rd, i, p) ==> rd.allowed(p))
  }

  ghost predicate Owns(g: Gate, rd: Reader, i: int, p: string) {
    0 <= i < |g.accepted| && p in rd.targets(g.accepted[i].fix.diff)
  }

  lemma OwnSize(seen: map<string, string>, targets: seq<string>, diff: string)
    ensures |Own(seen, targets, diff)| == |seen| + |SetOf(targets) - seen.Keys|
  {
    var m := Own(seen, targets, diff);
    assert m.Keys == seen.Keys + (SetOf(targets) - seen.Keys);
  }

  lemma PassMeans(g: Gate, raw: Raw, rd: Reader)
    requires raw.Shaped? && Judge(g, raw, rd) == Pass
    ensures
      var targets := rd.targets(raw.fix.diff);
      && |g.seen| + |SetOf(targets) - g.seen.Keys| <= MAX_FIX_FILES
      && g.total + rd.added(raw.fix.diff) <= MAX_ADDED_LINES
      && forall t :: t in targets ==> t !in g.seen && rd.allowed(t)
  {
  }

  /** `h` is `g` with one more accepted diff that owns `targets`, none of them owned before. */
  ghost predicate Extends(h: Gate, g: Gate, rd: Reader, targets: seq<string>, diff: string) {
    && h.seen == Own(g.seen, targets, diff) && |h.accepted| == |g.accepted| + 1
    && h.accepted[|g.accepted|].fix.diff == diff && h.accepted[..|g.accepted|] == g.accepted
    && rd.targets(diff) == targets
    && forall t :: t in targets ==> t !in g.seen && rd.allowed(t)
  }

  lemma OwnsAfter(h: Gate, g: Gate, rd: Reader, targets: seq<string>, diff: string, i: int, p: string)
    requires Extends(h, g, rd, targets, diff)
    ensures Owns(h, rd, i, p) <==> Owns(g, rd, i, p) || (i == |g.accepted| && p in targets)
  {
    assert 0 <= i < |g.accepted| ==> h.accepted[..|g.accepted|][i] == h.accepted[i];
  }

  lemma OwnershipExtends(h: Gate, g: Gate, rd: Reader, targets: seq<string>, diff: string)
    requires Ownership(g, rd) && Extends(h, g, rd, targets, diff)
    ensures Ownership(h, rd)
  {
    var n := |g.accepted|;
    forall p | p in h.seen ensures exists i :: Owns(h, rd, i, p) && h.seen[p] == h.accepted[i].fix.diff {
      if p in targets {
        OwnsAfter(h, g, rd, targets, diff, n, p);
      } else {
        var i :| Owns(g, rd, i, p) && g.seen[p] == g.accepted[i].fix.diff;
        OwnsAfter(h, g, rd, targets, diff, i, p);
        assert h.accepted[..n][i] == h.accepted[i];
      }
    }
    forall i, p | Owns(h, rd, i, p) ensures p in h.seen && rd.allowed(p) {
      OwnsAfter(h, g, rd, targets, diff, i, p);
    }
    forall i, j, p | Owns(h, rd, i, p) && Owns(h, rd, j, p) ensures i == j {
      OwnsAfter(h, g, rd, targets, diff, i, p);
      OwnsAfter(h, g, rd, targets, diff, j, p);
    }
  }

  /** Admitting an entry keeps the gate sound. */
  lemma AdmitSound(g: Gate, raw: Raw, rd: Reader)
    requires Sound(g, rd)
    ensures Sound(Admit(g, raw, rd), rd)
  {
    if raw.Shaped? && Judge(g, raw, rd) == Pass {
      PassMeans(g, raw, rd);
      WithCaps(g, Accepted(raw.fix, raw.package), rd);
      WithOwnership(g, Accepted(raw.fix, raw.package), rd);
    }
  }

  lemma WithCaps(g: Gate, a: Accepted, rd: Reader)
    requires WithinCaps(g, rd) && g.total + rd.added(a.fix.diff) <= MAX_ADDED_LINES
    requires |g.seen| + |SetOf(rd.targets(a.fix.diff)) - g.seen.Keys| <= MAX_FIX_FILES
    ensures WithinCaps(With(g, a, rd), rd)
  {
    OwnSize(g.seen, rd.targets(a.fix.diff), a.fix.diff);
    AddedByAppend(g.accepted, a, rd);
  }

  lemma WithOwnership(g: Gate, a: Accepted, rd: Reader)
    requires Ownership(g, rd) && forall t :: t in rd.targets(a.fix.diff) ==> t !in g.seen && rd.allowed(t)
    ensures Ownership(With(g, a, rd), rd)
  {
    ExtendsByOne(g, a, rd);
    OwnershipExtends(With(g, a, rd), g, rd, rd.targets(a.fix.diff), a.fix.diff);
  }

  lemma ExtendsByOne(g: Gate, a: Accepted, rd: Reader)
    requires forall t :: t in rd.targets(a.fix.diff) ==> t !in g.seen && rd.allowed(t)
    ensures Extends(With(g, a, rd), g, rd, rd.targets(a.fix.diff), a.fix.diff)
  {
    assert With(g, a, rd).accepted[..|g.accepted|] == g.accepted;
  }

  lemma AddedByAppend(accepted: seq<Accepted>, a: Accepted, rd: Reader)
    ensures AddedBy(accepted + [a], rd) == AddedBy(accepted, rd) + rd.added(a.fix.diff)
  {
    assert (accepted + [a])[..|accepted|] == accepted;
  }

  /** Over any list of entries: within the caps, and each path owned by at most one accepted diff. */
  lemma {:induction false} GateSound(raws: seq<Raw>, rd: Reader)
    ensures Sound(Gated(raws, rd), rd)
  {
    if raws != [] {
      GateSound(raws[..|raws| - 1], rd);
      AdmitSound(Gated(raws[..|raws| - 1], rd), raws[|raws| - 1], rd);
    }
  }

  /** A verbatim copy of an accepted diff is deduplicated exactly while the line cap still has room for it a second time. */
  lemma CopyIsDroppedIff(g: Gate, raw: Raw, rd: Reader, i: int)
    requires Sound(g, rd) && raw.Shaped? && 0 <= i < |g.accepted| && g.accepted[i].fix.diff == raw.fix.diff
    requires rd.targets(raw.fix.diff) != []
    ensures Judge(g, raw, rd) == Same <==> g.total + rd.added(raw.fix.diff) <= MAX_ADDED_LINES
    ensures Judge(g, raw, rd) != Same ==> Judge(g, raw, rd).Reject?
  {
    var targets := rd.targets(raw.fix.diff);
    forall t | t in targets ensures t in g.seen && g.seen[t] == raw.fix.diff && rd.allowed(t) {
      assert Owns(g, rd, i, t);
      var j :| Owns(g, rd, j, t) && g.seen[t] == g.accepted[j].fix.diff;
    }
    assert targets[0] in targets;
    assert SetOf(targets) - g.seen.Keys == {};
  }

  /** The same fix twice, with 250 added lines: the first is accepted, and the copy is rejected for the line cap. */
  lemma LongCopyIsRejected(fix: Fix, rd: Reader)
    requires rd.targets(fix.diff) == [fix.path] && rd.allowed(fix.path) && rd.added(fix.diff) == 250
    ensures
      var raw := Shaped(fix, "pkg");
      Verdicts([raw, raw], rd) == [Pass, Reject(Rejection(fix.path, "too many added lines"))]
  {
    var raw := Shaped(fix, "pkg");
    assert [raw, raw][..1] == [raw] && [raw][..0] == [];
    assert Verdicts([raw], rd) == [Pass] by { FirstPasses(fix, rd); }
    var g := Gated([raw], rd);
    FirstPasses(fix, rd);
    assert g == With(OPEN, Accepted(fix, "pkg"), rd);
    assert SetOf(rd.targets(fix.diff)) - g.seen.Keys == {};
    OwnSize(OPEN.seen, rd.targets(fix.diff), fix.diff);
  }

  lemma FirstPasses(fix: Fix, rd: Reader)
    requires rd.targets(fix.diff) == [fix.path] && rd.allowed(fix.path) && rd.added(fix.diff) == 250
    ensures Judge(OPEN, Shaped(fix, "pkg"), rd) == Pass && |SetOf(rd.targets(fix.diff))| == 1
  {
    assert SetOf(rd.targets(fix.diff)) == {fix.path};
    assert SetOf(rd.targets(fix.diff)) - OPEN.seen.Keys == {fix.path};
  }

  function RejectionsIn(verdicts: seq<Verdict>): seq<Rejection> {
    if verdicts == [] then []
    else
      var v := verdicts[|verdicts| - 1];
      RejectionsIn(verdicts[..|verdicts| - 1]) + (if v.Reject? then [v.r] else [])
  }

  function CountSame(verdicts: seq<Verdict>): nat {
    if verdicts == [] then 0
    else CountSame(verdicts[..|verdicts| - 1]) + (if verdicts[|verdicts| - 1] == Same then 1 else 0)
  }

  /** Every entry is accepted, rejected or a duplicate, exactly one of these. */
  lemma {:induction false} EveryEntryOnce(raws: seq<Raw>, rd: Reader)
    ensures |Verdicts(raws, rd)| == |raws|
    ensures |Gated(raws, rd).accepted| + |RejectionsIn(Verdicts(raws, rd))| + CountSame(Verdicts(raws, rd)) == |raws|
  {
    hide Judge, Admit;
    if raws != [] {
      var n := |raws| - 1;
      EveryEntryOnce(raws[..n], rd);
      var v := Judge(Gated(raws[..n], rd), raws[n], rd);
      assert Verdicts(raws, rd) == Verdicts(raws[..n], rd) + [v];
      AdmitCount(Gated(raws[..n], rd), raws[n], rd);
      OneVerdict(Verdicts(raws[..n], rd), v);
    }
  }

  lemma AdmitCount(g: Gate, raw: Raw, rd: Reader)
    ensures |Admit(g, raw, rd).accepted| == |g.accepted| + (if Judge(g, raw, rd) == Pass then 1 else 0)
  {
  }

  lemma OneVerdict(verdicts: seq<Verdict>, v: Verdict)
    ensures |RejectionsIn(verdicts + [v])| == |RejectionsIn(verdicts)| + (if v.Reject? then 1 else 0)
    ensures CountSame(verdicts + [v]) == CountSame(verdicts) + (if v.Same? then 1 else 0)
  {
    assert (verdicts + [v])[..|verdicts|] == verdicts;
  }

  /** An entry is dropped as a duplicate only when the very same diff was accepted before it. */
  lemma DuplicateOfAccepted(g: Gate, raw: Raw, rd: Reader)
    requires Sound(g, rd) && Judge(g, raw, rd) == Same
    ensures raw.Shaped? && exists i :: 0 <= i < |g.accepted| && g.accepted[i].fix.diff == raw.fix.diff
  {
    var c := Conflict(rd.targets(raw.fix.diff), g.seen).value;
    var i :| Owns(g, rd, i, c) && g.seen[c] == g.accepted[i].fix.diff;
    assert g.accepted[i].fix.diff == raw.fix.diff;
  }

  /** The gate loop. */
  method RunGate(raws: seq<Raw>, rd: Reader) returns (accepted: seq<Accepted>, rejected: seq<Rejection>)
    ensures accepted == Gated(raws, rd).accepted && rejected == RejectionsIn(Verdicts(raws, rd))
  {
    var seen: map<string, string>, total: nat := map[], 0;
    accepted, rejected := [], [];
    for i := 0 to |raws|
      invariant Gate(seen, accepted, total) == Gated(raws[..i], rd)
      invariant rejected == RejectionsIn(Verdicts(raws[..i], rd))
    {
      var raw, g := raws[i], Gate(seen, accepted, total);
      GateStep(raws, i, rd);
      match Judge(g, raw, rd)
      case Reject(r) =>
        rejected := rejected + [r];
      case Same =>
      case Pass =>
        var targets := rd.targets(raw.fix.diff);
        accepted := accepted + [Accepted(raw.fix, raw.package)];
        seen := OwnEach(seen, targets, raw.fix.diff);
        total := total + rd.added(raw.fix.diff);
    }
    assert raws[..|raws|] == raws;
  }

  lemma GateStep(raws: seq<Raw>, i: nat, rd: Reader)
    requires i < |raws|
    ensures Gated(raws[..i + 1], rd) == Admit(Gated(raws[..i], rd), raws[i], rd)
    ensures
      var v := Judge(Gated(raws[..i], rd), raws[i], rd);
      RejectionsIn(Verdicts(raws[..i + 1], rd)) == RejectionsIn(Verdicts(raws[..i], rd)) + (if v.Reject? then [v.r] else [])
  {
    assert raws[..i + 1][..i] == raws[..i];
    var vs := Verdicts(raws[..i + 1], rd);
    assert vs[..|vs| - 1] == Verdicts(raws[..i], rd);
  }

  lemma OwnAppend(seen: map<string, string>, targets: seq<string>, t: string, diff: string)
    ensures Own(seen, targets + [t], diff) == Own(seen, targets, diff)[t := diff]
  {
  }

  method OwnEach(seen: map<string, string>, targets: seq<string>, diff: string) returns (m: map<string, string>)
    ensures m == Own(seen, targets, diff)
  {
    m := seen;
    for i := 0 to |targets|
      invariant m == Own(seen, targets[..i], diff)
    {
      assert targets[..i + 1] == targets[..i] + [targets[i]];
      OwnAppend(seen, targets[..i], targets[i], diff);
      m := m[targets[i] := diff];
    }
    assert targets[..|targets|] == targets;
  }

  // ---- Applying the accepted fixes ----

  /** Files by path; a missing path is a missing file. */
  type Tree = map<string, string>

  /** `git apply` on a tree: whether it succeeded, and the tree it left. */
  type Applier = (Tree, string) -> (bool, Tree)

  /** A failed apply may leave anything on the targets, but touches nothing else. */
  ghost predicate Confined(apply: Applier, targets: set<string>) {
    forall t: Tree, d: string, p: string :: !apply(t, d).0 && p !in targets ==>
      (p in apply(t, d).1 <==> p in t) && (p in t && p in apply(t, d).1 ==> apply(t, d).1[p] == t[p])
  }

  /** A target file that was there before and is gone after. */
  ghost predicate Lost(before: Tree, after: Tree, targets: set<string>) {
    exists p :: p in targets && p in before && p !in after
  }

  /** The run as documented: a fix that applies changes the tree, one that fails leaves no trace. `None` is an exception. */
  ghost function Replay(seed: Tree, accepted: seq<Accepted>, targets: set<string>, apply: Applier): Option<(Tree, seq<bool>)> {
    if accepted == [] then Some((seed, []))
    else
      match Replay(seed, accepted[..|accepted| - 1], targets, apply)
      case None => None
      case Some((tree, oks)) =>
        var diff := accepted[|accepted| - 1].fix.diff;
        if apply(tree, diff).0 then Some((apply(tree, diff).1, oks + [true]))
        else if Lost(tree, apply(tree, diff).1, targets) then None
        else Some((tree, oks + [false]))
  }

  /** Is `p` the same, present or absent, in both trees? */
  ghost predicate SameAt(a: Tree, b: Tree, p: string) {
    (p in a <==> p in b) && (p in a && p in b ==> a[p] == b[p])
  }

  lemma SameEverywhere(a: Tree, b: Tree)
    requires forall p :: SameAt(a, b, p)
    ensures a == b
  {
    assert a.Keys == b.Keys by {
      forall p ensures p in a <==> p in b { assert SameAt(a, b, p); }
    }
    forall p | p in a ensures a[p] == b[p] { assert SameAt(a, b, p); }
  }

  /** The paths written by the fixes that applied. */
  ghost function Changed(accepted: seq<Accepted>, oks: seq<bool>, rd: Reader): set<string>
    requires |accepted| == |oks|
  {
    if accepted == [] then {}
    else
      var n := |accepted| - 1;
      Changed(accepted[..n], oks[..n], rd) + (if oks[n] then SetOf(rd.targets(accepted[n].fix.diff)) else {})
  }

  /** The accepted fixes whose flag is `wanted`, in order. */
  ghost function Flagged(accepted: seq<Accepted>, oks: seq<bool>, wanted: bool): seq<Accepted>
    requires |accepted| == |oks|
  {
    if accepted == [] then []
    else
      var n := |accepted| - 1;
      Flagged(accepted[..n], oks[..n], wanted) + (if oks[n] == wanted then [accepted[n]] else [])
  }

  lemma {:induction false} FlaggedSplit(accepted: seq<Accepted>, oks: seq<bool>)
    requires |accepted| == |oks|
    ensures |Flagged(accepted, oks, true)| + |Flagged(accepted, oks, false)| == |accepted|
  {
    if accepted != [] {
      var n := |accepted| - 1;
      FlaggedSplit(accepted[..n], oks[..n]);
    }
  }

  lemma {:induction false} ReplayLength(seed: Tree, accepted: seq<Accepted>, targets: set<string>, apply: Applier)
    ensures match Replay(seed, accepted, targets, apply)
      case None => true
      case Some((_, oks)) => |oks| == |accepted|
  {
    if accepted != [] { ReplayLength(seed, accepted[..|accepted| - 1], targets, apply); }
  }

  lemma ReplayStep(seed: Tree, accepted: seq<Accepted>, i: nat, targets: set<string>, apply: Applier)
    requires i < |accepted| && Replay(seed, accepted[..i], targets, apply).Some?
    ensures
      var (tree, oks), diff := Replay(seed, accepted[..i], targets, apply).value, accepted[i].fix.diff;
      Replay(seed, accepted[..i + 1], targets, apply) ==
        (if apply(tree, diff).0 then Some((apply(tree, diff).1, oks + [true]))
         else if Lost(tree, apply(tree, diff).1, targets) then None
         else Some((tree, oks + [false])))
  {
    assert accepted[..i + 1][..i] == accepted[..i];
  }

  lemma {:induction false} ReplayStops(seed: Tree, accepted: seq<Accepted>, i: nat, targets: set<string>, apply: Applier)
    requires i <= |accepted| && Replay(seed, accepted[..i], targets, apply).None?
    ensures Replay(seed, accepted, targets, apply).None?
  {
    if i == |accepted| {
      assert accepted[..i] == accepted;
    } else {
      var n := |accepted| - 1;
      assert accepted[..n][..i] == accepted[..i];
      ReplayStops(seed, accepted[..n], i, targets, apply);
    }
  }

  /** The throwaway tree. */
  class TempTree {
    var files: Tree

    constructor (seed: Tree)
      ensures files == seed
    {
      files := seed;
    }

    /** Put every target back to what it was before the failed apply; reading back a file that is gone is an exception. */
    method Rollback(before: Tree, targets: seq<string>) returns (ok: bool)
      modifies this
      ensures ok <==> !Lost(before, old(files), SetOf(targets))
      ensures ok ==> forall p :: SameAt(files, if p in targets then before else old(files), p)
    {
      for i := 0 to |targets|
        invariant forall p :: SameAt(files, if p in targets[..i] then before else old(files), p)
        invariant forall p :: p in targets[..i] && p in before ==> p in old(files)
      {
        var target := targets[i];
        assert targets[..i + 1] == targets[..i] + [target];
        assert SameAt(files, if target in targets[..i] then before else old(files), target);
        if target !in before {
          if target in files {
            files := files - {target};
          }
        } else if target !in files {
          assert target in SetOf(targets);
          return false;
        } else if files[target] != before[target] {
          files := files[target := before[target]];
        }
      }
      assert targets[..|targets|] == targets;
      ok := true;
    }

    /** The apply loop: every accepted fix in order, each failure rolled back. `None` is an exception. */
    method ApplyAll(accepted: seq<Accepted>, targets: seq<string>, apply: Applier) returns (r: Option<seq<bool>>)
      modifies this
      ensures Confined(apply, SetOf(targets)) ==>
        match Replay(old(files), accepted, SetOf(targets), apply)
        case None => r.None?
        case Some((tree, oks)) => r == Some(oks) && files == tree && |oks| == |accepted|
    {
      ghost var seed, all := files, SetOf(targets);
      var oks := [];
      for i := 0 to |accepted|
        invariant |oks| == i
        invariant Confined(apply, all) ==> Replay(seed, accepted[..i], all, apply) == Some((files, oks))
      {
        if Confined(apply, all) { ReplayStep(seed, accepted, i, all, apply); }
        var before := files;
        var result := apply(files, accepted[i].fix.diff);
        files := result.1;
        if result.0 {
          oks := oks + [true];
        } else {
          var restored := Rollback(before, targets);
          if !restored {
            if Confined(apply, all) { ReplayStops(seed, accepted, i + 1, all, apply); }
            return None;
          }
          if Confined(apply, all) {
            forall p ensures SameAt(files, before, p) {
              assert SameAt(files, if p in targets then before else result.1, p);
              assert p in targets <==> p in all;
            }
            SameEverywhere(files, before);
          }
          oks := oks + [false];
        }
      }
      assert accepted[..|accepted|] == accepted;
      r := Some(oks);
    }
  }

  // ---- validate_and_apply ----

  datatype Out = Out(files: Tree, fixes: seq<Accepted>, rejected: seq<Rejection>)

  function AddNew(listed: seq<string>, more: seq<string>): seq<string> {
    if more == [] then listed
    else
      var front := AddNew(listed, more[..|more| - 1]);
      var last := more[|more| - 1];
      if last in front then front else front + [last]
  }

  /** Every path any accepted fix writes, each once. */
  function AllTargets(accepted: seq<Accepted>, rd: Reader): seq<string> {
    if accepted == [] then []
    else AddNew(AllTargets(accepted[..|accepted| - 1], rd), rd.targets(accepted[|accepted| - 1].fix.diff))
  }

  /** The seeded tree: the repository's own text of each target it has. */
  function Seed(repo: Tree, targets: seq<string>): Tree { map p | p in repo && p in targets :: repo[p] }

  function Unavailable(accepted: seq<Accepted>): seq<Rejection> {
    seq(|accepted|, i requires 0 <= i < |accepted| => Rejection(accepted[i].fix.path, "repo root unavailable"))
  }

  ghost function Failures(failed: seq<Accepted>): seq<Rejection> {
    seq(|failed|, i requires 0 <= i < |failed| => Rejection(failed[i].fix.path, "does not apply"))
  }

  /** The changed files that are text, as text. */
  ghost function Decoded(tree: Tree, changed: set<string>, decode: string -> Option<string>): Tree {
    map p | p in changed && p in tree && decode(tree[p]).Some? :: decode(tree[p]).value
  }

  ghost function Undecodable(tree: Tree, changed: set<string>, decode: string -> Option<string>): set<string> {
    set p | p in changed && p in tree && decode(tree[p]).None?
  }

  lemma {:induction false} FlaggedStep(accepted: seq<Accepted>, oks: seq<bool>, i: nat, wanted: bool)
    requires |accepted| == |oks| && i < |oks|
    ensures Flagged(accepted[..i + 1], oks[..i + 1], wanted) ==
      Flagged(accepted[..i], oks[..i], wanted) + (if oks[i] == wanted then [accepted[i]] else [])
  {
    assert accepted[..i + 1][..i] == accepted[..i] && oks[..i + 1][..i] == oks[..i];
  }

  lemma ChangedStep(accepted: seq<Accepted>, oks: seq<bool>, i: nat, rd: Reader)
    requires |accepted| == |oks| && i < |oks|
    ensures Changed(accepted[..i + 1], oks[..i + 1], rd) ==
      Changed(accepted[..i], oks[..i], rd) + (if oks[i] then SetOf(rd.targets(accepted[i].fix.diff)) else {})
  {
    assert accepted[..i + 1][..i] == accepted[..i] && oks[..i + 1][..i] == oks[..i];
  }

  /** Sort the fixes by their flag, and collect the paths the good ones changed. */
  method Collect(accepted: seq<Accepted>, oks: seq<bool>, rd: Reader)
    returns (fixes: seq<Accepted>, failed: seq<Rejection>, changed: set<string>)
    requires |accepted| == |oks|
    ensures fixes == Flagged(accepted, oks, true) && failed == Failures(Flagged(accepted, oks, false))
    ensures changed == Changed(accepted, oks, rd)
  {
    fixes, failed, changed := [], [], {};
    for i := 0 to |accepted|
      invariant fixes == Flagged(accepted[..i], oks[..i], true)
      invariant failed == Failures(Flagged(accepted[..i], oks[..i], false))
      invariant changed == Changed(accepted[..i], oks[..i], rd)
    {
      FlaggedStep(accepted, oks, i, true);
      FlaggedStep(accepted, oks, i, false);
      ChangedStep(accepted, oks, i, rd);
      if oks[i] {
        changed := changed + SetOf(rd.targets(accepted[i].fix.diff));
        fixes := fixes + [accepted[i]];
      } else {
        failed := failed + [Rejection(accepted[i].fix.path, "does not apply")];
      }
    }
    assert accepted[..|accepted|] == accepted && oks[..|oks|] == oks;
  }

  lemma DecodedAdd(tree: Tree, done: set<string>, p: string, decode: string -> Option<string>)
    requires p in tree && p !in done
    ensures
      var text := decode(tree[p]);
      && Decoded(tree, done + {p}, decode)
        == (if text.Some? then Decoded(tree, done, decode)[p := text.value] else Decoded(tree, done, decode))
      && |Undecodable(tree, done + {p}, decode)| == |Undecodable(tree, done, decode)| + (if text.Some? then 0 else 1)
  {
    if decode(tree[p]).Some? {
      assert Undecodable(tree, done + {p}, decode) == Undecodable(tree, done, decode);
    } else {
      assert Undecodable(tree, done + {p}, decode) == Undecodable(tree, done, decode) + {p};
    }
  }

  /** Read the changed files back; a missing one is an exception, one that is not text is rejected. */
  method ReadBack(tree: Tree, changed: set<string>, decode: string -> Option<string>)
    returns (ok: bool, files: Tree, rejected: seq<Rejection>)
    ensures ok <==> changed <= tree.Keys
    ensures ok ==> files == Decoded(tree, changed, decode) && |rejected| == |Undecodable(tree, changed, decode)|
  {
    ok, files, rejected := true, map[], [];
    var left := changed;
    while left != {}
      invariant left <= changed && changed - left <= tree.Keys && ok
      invariant files == Decoded(tree, changed - left, decode)
      invariant |rejected| == |Undecodable(tree, changed - left, decode)|
      decreases |left|
    {
      var target :| target in left;
      if target !in tree {
        return false, files, rejected;
      }
      var done := changed - left;
      assert changed - (left - {target}) == done + {target};
      DecodedAdd(tree, done, target, decode);
      var text := decode(tree[target]);
      if text.Some? {
        files := files[target := text.value];
      } else {
        rejected := rejected + [Rejection(target, "post-fix content is not valid UTF-8")];
      }
      left := left - {target};
    }
    assert changed - left == changed;
  }

  /** What a call answers when nothing raises: the files the surviving fixes leave, and where every entry went. */
  ghost predicate Answers(out: Out, raws: seq<Raw>, rd: Reader, repo: Option<Tree>, apply: Applier, decode: string -> Option<string>) {
    var accepted, gated := Gated(raws, rd).accepted, RejectionsIn(Verdicts(raws, rd));
    if accepted == [] then out == Out(map[], [], gated)
    else if repo.None? then out == Out(map[], [], gated + Unavailable(accepted))
    else
      var targets := AllTargets(accepted, rd);
      match Replay(Seed(repo.value, targets), accepted, SetOf(targets), apply)
      case None => false
      case Some((tree, oks)) =>
        && |oks| == |accepted|
        && var changed := Changed(accepted, oks, rd);
           && changed <= tree.Keys
           && out.files == Decoded(tree, changed, decode)
           && out.fixes == Flagged(accepted, oks, true)
           && |out.rejected| == |gated| + |Flagged(accepted, oks, false)| + |Undecodable(tree, changed, decode)|
           && gated + Failures(Flagged(accepted, oks, false)) <= out.rejected
  }

  method ValidateAndApply(raws: seq<Raw>, rd: Reader, repo: Option<Tree>, apply: Applier, decode: string -> Option<string>)
    returns (r: Option<Out>)
    requires Confined(apply, SetOf(AllTargets(Gated(raws, rd).accepted, rd)))
    ensures r.Some? ==> Answers(r.value, raws, rd, repo, apply, decode)
    ensures r.None? ==> !exists out :: Answers(out, raws, rd, repo, apply, decode)
  {
    var accepted, rejected := RunGate(raws, rd);
    if accepted == [] {
      return Some(Out(map[], [], rejected));
    }
    if repo.None? {
      return Some(Out(map[], [], rejected + Unavailable(accepted)));
    }
    var targets := AllTargets(accepted, rd);
    var temp := new TempTree(Seed(repo.value, targets));
    var oks := temp.ApplyAll(accepted, targets, apply);
    if oks.None? {
      return None;
    }
    var fixes, failed, changed := Collect(accepted, oks.value, rd);
    var ok, files, undecodable := ReadBack(temp.files, changed, decode);
    if !ok {
      return None;
    }
    return Some(Out(files, fixes, rejected + failed + undecodable));
  }

  /** Only paths some accepted fix owns are ever changed. */
  lemma {:induction false} ChangedIsOwned(g: Gate, n: nat, oks: seq<bool>, rd: Reader)
    requires Ownership(g, rd) && n <= |g.accepted| && |oks| == n
    ensures Changed(g.accepted[..n], oks, rd) <= g.seen.Keys
  {
    if n > 0 {
      ChangedIsOwned(g, n - 1, oks[..n - 1], rd);
      assert g.accepted[..n][..n - 1] == g.accepted[..n - 1];
      forall p | p in rd.targets(g.accepted[n - 1].fix.diff) ensures p in g.seen {
        assert Owns(g, rd, n - 1, p);
      }
    }
  }

  /** Conservation: every entry is applied, rejected or an identical duplicate, exactly one of these; a rejection beyond
      that is a changed file that is not text. */
  lemma EveryEntryAccounted(out: Out, raws: seq<Raw>, rd: Reader, repo: Option<Tree>, apply: Applier,
                            decode: string -> Option<string>) returns (undecodable: nat)
    requires Answers(out, raws, rd, repo, apply, decode)
    ensures |out.fixes| + |out.rejected| + CountSame(Verdicts(raws, rd)) == |raws| + undecodable
    ensures undecodable + |out.files| <= MAX_FIX_FILES
  {
    var g := Gated(raws, rd);
    EveryEntryOnce(raws, rd);
    GateSound(raws, rd);
    undecodable := 0;
    if g.accepted != [] && repo.Some? {
      var targets := AllTargets(g.accepted, rd);
      var (tree, oks) := Replay(Seed(repo.value, targets), g.accepted, SetOf(targets), apply).value;
      var changed := Changed(g.accepted, oks, rd);
      FlaggedSplit(g.accepted, oks);
      undecodable := |Undecodable(tree, changed, decode)|;
      assert g.accepted[..|oks|] == g.accepted;
      ChangedIsOwned(g, |oks|, oks, rd);
      ReadBackSize(tree, changed, decode, g.seen.Keys);
    }
  }

  lemma ReadBackSize(tree: Tree, changed: set<string>, decode: string -> Option<string>, owned: set<string>)
    requires changed <= owned
    ensures |Undecodable(tree, changed, decode)| + |Decoded(tree, changed, decode)| <= |owned|
  {
    var bad, good := Undecodable(tree, changed, decode), Decoded(tree, changed, decode).Keys;
    assert |bad + good| == |bad| + |good|;
    SubsetSize(bad + good, owned);
  }
}
