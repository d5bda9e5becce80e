/** `harness/benign.py`: which diffs of the corpus are looked at, and which of them are flagged. */
module BenignMeaning {
  import opened Arithmetic
  import opened Benign

  // ---- The sample ----

  /** The place of the `r`-th sampled diff, `index` diffs having been counted before: it is number `count`. */
  lemma {:induction false} SampledPlace(diffs: seq<Diff>, index: nat, sample: int, r: nat, count: nat)
    requires sample > 1 && r < |Thin(diffs, index, Picker(sample))| && count == (index / sample + r + 1) * sample
    ensures index < count <= index + |diffs| && Thin(diffs, index, Picker(sample))[r] == diffs[count - 1 - index]
    decreases |diffs|
  {
    CountOn(index, sample);
    if !Picker(sample)(index + 1) {
      SampledPlace(diffs[1..], index + 1, sample, r, count);
    } else if r > 0 {
      SampledPlace(diffs[1..], index + 1, sample, r - 1, count);
    }
  }

  lemma CountOn(index: nat, sample: int)
    requires sample > 1
    ensures Picker(sample)(index + 1) ==> (index + 1) / sample == index / sample + 1 && (index / sample + 1) * sample == index + 1
    ensures !Picker(sample)(index + 1) ==> (index + 1) / sample == index / sample
  {
    NextMultiple(index, sample);
  }

  /** With a sample above one, number `r` of the diffs looked at is number `(r + 1) * sample` of the corpus; else all are. */
  lemma SampledAt(diffs: seq<Diff>, sample: int, r: nat)
    ensures sample <= 1 ==> Thin(diffs, 0, Picker(sample)) == diffs
    ensures sample > 1 && r < |Thin(diffs, 0, Picker(sample))| ==>
      0 < (r + 1) * sample <= |diffs| && Thin(diffs, 0, Picker(sample))[r] == diffs[(r + 1) * sample - 1]
  {
    if sample <= 1 {
      AllSampled(diffs, 0, sample);
    } else if r < |Thin(diffs, 0, Picker(sample))| {
      DivMod(0, 0, 0, sample);
      SampledPlace(diffs, 0, sample, r, (r + 1) * sample);
    }
  }

  lemma {:induction false} AllSampled(diffs: seq<Diff>, index: nat, sample: int)
    requires sample <= 1
    ensures Thin(diffs, index, Picker(sample)) == diffs
  {
    if diffs != [] {
      AllSampled(diffs[1..], index + 1, sample);
      assert diffs == [diffs[0]] + diffs[1..];
    }
  }

  // ---- The walk ----

  /** The URLs scored by some diffs. */
  function ScoredBy(diffs: seq<Diff>, t: Tool): set<Url> {
    set i, u | 0 <= i < |diffs| && u in t.scored(diffs[i].package, diffs[i].path) :: u
  }

  /** The URLs scored by the diffs of one package among them. */
  function ScoredFor(package: string, diffs: seq<Diff>, t: Tool): set<Url> {
    set i, u | 0 <= i < |diffs| && diffs[i].package == package && u in t.scored(diffs[i].package, diffs[i].path) :: u
  }

  lemma ScoredAppend(diffs: seq<Diff>, d: Diff, package: string, t: Tool)
    ensures ScoredBy(diffs + [d], t) == ScoredBy(diffs, t) + t.scored(d.package, d.path)
    ensures ScoredFor(package, diffs + [d], t) ==
      ScoredFor(package, diffs, t) + (if d.package == package then t.scored(d.package, d.path) else {})
  {
    var all := diffs + [d];
    assert all[|diffs|] == d && forall i :: 0 <= i < |diffs| ==> all[i] == diffs[i];
    forall u ensures u in ScoredBy(all, t) <==> u in ScoredBy(diffs, t) + t.scored(d.package, d.path) {
      if u in ScoredBy(diffs, t) {
        var i :| 0 <= i < |diffs| && u in t.scored(diffs[i].package, diffs[i].path);
        assert all[i] == diffs[i];
      }
      if u in t.scored(d.package, d.path) { assert u in t.scored(all[|diffs|].package, all[|diffs|].path); }
    }
    var more := if d.package == package then t.scored(d.package, d.path) else {};
    forall u ensures u in ScoredFor(package, all, t) <==> u in ScoredFor(package, diffs, t) + more {
      if u in ScoredFor(package, diffs, t) {
        var i :| 0 <= i < |diffs| && diffs[i].package == package && u in t.scored(diffs[i].package, diffs[i].path);
        assert all[i] == diffs[i];
      }
      if u in more { assert u in t.scored(all[|diffs|].package, all[|diffs|].path); }
    }
  }

  /** What is known after the diffs `past`: each package its own URLs, and all of them anywhere. */
  ghost predicate Remembers(seen: map<string, set<Url>>, all: set<Url>, past: seq<Diff>, t: Tool) {
    all == ScoredBy(past, t) && forall p :: Known(seen, p) == ScoredFor(p, past, t)
  }

  lemma RemembersNext(seen: map<string, set<Url>>, all: set<Url>, past: seq<Diff>, d: Diff, t: Tool)
    requires AddsScored(t) && Remembers(seen, all, past, t)
    ensures
      var known := Known(seen, d.package);
      Remembers(seen[d.package := t.learn(known, d.package, d.path)], t.learn(all, d.package, d.path), past + [d], t)
  {
    hide ScoredBy, ScoredFor;
    var known := Known(seen, d.package);
    var next := seen[d.package := t.learn(known, d.package, d.path)];
    ScoredAppend(past, d, d.package, t);
    forall p ensures Known(next, p) == ScoredFor(p, past + [d], t) {
      ScoredAppend(past, d, p, t);
      assert p != d.package ==> Known(next, p) == Known(seen, p);
    }
  }

  /** The fact of diff `k`: scanned with the URLs of the diffs before it, in its package and anywhere. */
  function FactAt(diffs: seq<Diff>, k: nat, t: Tool): Fact
    requires k < |diffs|
  {
    var d, past := diffs[k], diffs[..k];
    t.scan(d.package, d.path, ScoredFor(d.package, past, t), ScoredBy(past, t))
  }

  /** The diffs from `k` on that are flagged, in order: those whose fact scores more than the threshold. */
  function FlaggedFrom(diffs: seq<Diff>, k: nat, t: Tool): seq<nat>
    requires k <= |diffs|
    ensures forall i :: i in FlaggedFrom(diffs, k, t) ==> k <= i < |diffs|
    decreases |diffs| - k
  {
    if k == |diffs| then []
    else (if FactAt(diffs, k, t).score > t.threshold then [k] else []) + FlaggedFrom(diffs, k + 1, t)
  }

  /** They are exactly those, each once and in order. */
  lemma {:induction false} FlaggedAre(diffs: seq<Diff>, k: nat, t: Tool)
    requires k <= |diffs|
    ensures forall i :: i in FlaggedFrom(diffs, k, t) <==> k <= i < |diffs| && FactAt(diffs, i, t).score > t.threshold
    ensures forall i, j :: 0 <= i < j < |FlaggedFrom(diffs, k, t)| ==> FlaggedFrom(diffs, k, t)[i] < FlaggedFrom(diffs, k, t)[j]
    decreases |diffs| - k
  {
    hide FactAt;
    if k < |diffs| {
      FlaggedAre(diffs, k + 1, t);
      var rest := FlaggedFrom(diffs, k + 1, t);
      assert forall j :: 0 <= j < |rest| ==> rest[j] in rest;
    }
  }

  /** The row of diff `i`. */
  predicate RowOf(row: Row, diffs: seq<Diff>, i: nat, t: Tool)
    requires i < |diffs|
  {
    row.package == diffs[i].package && row.path == diffs[i].path && row.fact == FactAt(diffs, i, t)
  }

  predicate RowsOf(rows: seq<Row>, diffs: seq<Diff>, at: seq<nat>, t: Tool)
  {
    |rows| == |at| && forall r :: 0 <= r < |rows| ==> at[r] < |diffs| && RowOf(rows[r], diffs, at[r], t)
  }

  lemma {:induction false} WalkRows(diffs: seq<Diff>, k: nat, seen: map<string, set<Url>>, all: set<Url>, t: Tool)
    requires AddsScored(t) && k <= |diffs| && Remembers(seen, all, diffs[..k], t)
    ensures RowsOf(Walk(diffs[k..], seen, all, t), diffs, FlaggedFrom(diffs, k, t), t)
    decreases |diffs| - k
  {
    hide ScoredBy, ScoredFor;
    if k < |diffs| {
      var d := diffs[k];
      assert diffs[..k + 1] == diffs[..k] + [d] && diffs[k..][1..] == diffs[k + 1..];
      RemembersNext(seen, all, diffs[..k], d, t);
      WalkRows(diffs, k + 1, seen[d.package := t.learn(Known(seen, d.package), d.package, d.path)], t.learn(all, d.package, d.path), t);
    }
  }

  /**
   * The walk gives one row for each diff that scores more than the threshold, in walking order, and none for any other;
   * a diff is scanned with the URLs of all diffs before it and those of its package among them.
   */
  lemma WalkIs(diffs: seq<Diff>, t: Tool)
    requires AddsScored(t)
    ensures RowsOf(Walk(diffs, map[], {}, t), diffs, FlaggedFrom(diffs, 0, t), t)
    ensures forall i :: i in FlaggedFrom(diffs, 0, t) <==> 0 <= i < |diffs| && FactAt(diffs, i, t).score > t.threshold
    ensures forall i, j :: 0 <= i < j < |FlaggedFrom(diffs, 0, t)| ==> FlaggedFrom(diffs, 0, t)[i] < FlaggedFrom(diffs, 0, t)[j]
  {
    assert diffs[..0] == [] && diffs[0..] == diffs;
    WalkRows(diffs, 0, map[], {}, t);
    FlaggedAre(diffs, 0, t);
  }
}
