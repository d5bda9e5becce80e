/** `harness/minimize.py`: delta debugging over the change lines of a diff. */
module Minimize {
  import opened Text
  import opened UnifiedDiff

  const MAX_CHANGE_UNITS := 4096

  function Max(a: int, b: int): int { if a < b then b else a }

  /** 1 + 2 + ... + n. */
  ghost function Triangle(n: nat): nat { if n == 0 then 0 else n + Triangle(n - 1) }

  lemma {:induction false} TriangleClosed(n: nat)
    ensures 2 * Triangle(n) == n * (n + 1)
  {
    if n > 0 { TriangleClosed(n - 1); }
  }

  lemma {:induction false} TriangleGap(m: nat, n: nat)
    requires m < n
    ensures Triangle(m) + n <= Triangle(n)
  {
    if m < n - 1 { TriangleGap(m, n - 1); }
  }

  // ---- Unit lists ----

  ghost function Elems(units: seq<int>): set<int> { set u | u in units }

  /** The units that are in `s`, order kept: `[u for u in units if u in s]`. */
  function Restrict(units: seq<int>, s: set<int>): seq<int> {
    if units == [] then []
    else
      var n := |units| - 1;
      Restrict(units[..n], s) + (if units[n] in s then [units[n]] else [])
  }

  ghost predicate Distinct(units: seq<int>) {
    forall i, j :: 0 <= i < j < |units| ==> units[i] != units[j]
  }

  /** Some units, each listed once: what the change-line indices of a diff worth shrinking are. */
  ghost predicate Usable(units: seq<int>) { Distinct(units) && units != [] }

  lemma {:induction false} RestrictMember(units: seq<int>, s: set<int>, u: int)
    ensures u in Restrict(units, s) <==> u in units && u in s
  {
    if units != [] {
      var n := |units| - 1;
      RestrictMember(units[..n], s, u);
      assert u in units <==> u in units[..n] || u == units[n];
    }
  }

  lemma {:induction false} RestrictLength(units: seq<int>, s: set<int>)
    ensures |Restrict(units, s)| <= |units|
  {
    if units != [] { RestrictLength(units[..|units| - 1], s); }
  }

  lemma RestrictElems(units: seq<int>, s: set<int>)
    ensures Elems(Restrict(units, s)) == Elems(units) * s
  {
    forall u ensures u in Elems(Restrict(units, s)) <==> u in Elems(units) * s {
      RestrictMember(units, s, u);
    }
  }

  lemma {:induction false} RestrictAll(units: seq<int>, s: set<int>)
    requires Elems(units) <= s
    ensures Restrict(units, s) == units
  {
    if units != [] {
      var n := |units| - 1;
      assert units[n] in Elems(units);
      assert Elems(units[..n]) <= Elems(units);
      RestrictAll(units[..n], s);
    }
  }

  lemma {:induction false} RestrictTwice(units: seq<int>, s: set<int>, t: set<int>)
    ensures Restrict(Restrict(units, s), t) == Restrict(units, s * t)
  {
    if units != [] {
      var n := |units| - 1;
      RestrictTwice(units[..n], s, t);
      var front := Restrict(units[..n], s);
      if units[n] in s {
        var whole := Restrict(units, s);
        assert whole == front + [units[n]];
        assert whole[..|whole| - 1] == front;
      } else {
        assert Restrict(units, s) == front;
      }
    }
  }

  lemma {:induction false} RestrictDrops(units: seq<int>, s: set<int>, i: nat)
    requires i < |units| && units[i] !in s
    ensures |Restrict(units, s)| < |units|
  {
    var n := |units| - 1;
    if i < n {
      RestrictDrops(units[..n], s, i);
    } else {
      RestrictLength(units[..n], s);
    }
  }

  lemma RestrictKeeps(units: seq<int>, s: set<int>, i: nat)
    requires i < |units| && units[i] in s
    ensures Restrict(units, s) != []
  {
    RestrictMember(units, s, units[i]);
  }

  // ---- ddmin ----

  /** Removing `start..start+chunk` from a distinct list of two or more units leaves something. */
  lemma VictimLeavesSome(units: seq<int>, start: nat, stop: nat)
    requires Distinct(units) && start < stop <= |units| && stop - start < |units|
    ensures Restrict(units, Elems(units) - Elems(units[start..stop])) != []
  {
    var i := if start > 0 then 0 else stop;
    assert units[i] !in Elems(units[start..stop]);
    RestrictKeeps(units, Elems(units) - Elems(units[start..stop]), i);
  }

  /** `-(-n // g)`: the ceiling of `n / g`. */
  function CeilDiv(n: nat, g: nat): nat
    requires g > 0
  {
    (n + g - 1) / g
  }

  lemma CeilDivision(n: nat, g: nat)
    requires n >= 2 && g >= 2
    ensures 1 <= CeilDiv(n, g) < n && n <= CeilDiv(n, g) * g
    ensures g >= n ==> CeilDiv(n, g) == 1
  {
    var chunk := CeilDiv(n, g);
    var rest := (n + g - 1) % g;
    assert n + g - 1 == chunk * g + rest;
    assert n * (g - 1) >= 2 * (g - 1) by { MulMonotone(2, n, g - 1); }
    assert n * g == n * (g - 1) + n;
    FactorLess(chunk, n, g);
    assert 0 * g == 0;
    FactorLess(0, chunk, g);
    if g >= n { FactorLess(chunk, 2, g); }
  }

  lemma MulMonotone(a: nat, b: nat, c: nat)
    requires a <= b
    ensures a * c <= b * c
  {
  }

  lemma FactorLess(a: nat, b: nat, c: nat)
    requires a * c < b * c
    ensures a < b
  {
    if b <= a { MulMonotone(b, a, c); assert false; }
  }

  /** What one granularity may have cost at the present size before its pass starts. */
  ghost function Spent(size: nat, granularity: nat): nat {
    if granularity < size then granularity else 2 * size
  }

  /** `kept` is `units` with some units left out: what it holds decides which, and the order stays. */
  ghost predicate Reduction(kept: seq<int>, units: seq<int>) {
    Elems(kept) <= Elems(units) && kept == Restrict(units, Elems(kept))
  }

  /** A pass over `n` units at granularity `g` makes at most `g` calls, and at most `n`. */
  lemma PassCost(n: nat, g: nat, k: nat)
    requires n >= 2 && g >= 2 && k > 0 && (k - 1) * CeilDiv(n, g) < n
    ensures k <= g && k <= n
  {
    CeilDivision(n, g);
    var chunk := CeilDiv(n, g);
    assert chunk * g == g * chunk;
    FactorLess(k - 1, g, chunk);
    MulMonotone(1, chunk, k - 1);
    assert (k - 1) * chunk == chunk * (k - 1);
  }

  /** One pass of `ddmin`: the first of the granularity's chunks that the oracle can spare goes. */
  method Pass(current: seq<int>, granularity: nat, test: set<int> -> bool, budget: int, before: nat)
    returns (next: seq<int>, calls: nat, reduced: bool, partial: bool)
    requires |current| >= 2 && granularity >= 2
    requires before <= Max(0, budget)
    ensures before <= calls <= Max(0, budget)
    ensures calls - before <= granularity && calls - before <= |current|
    ensures partial ==> calls == Max(0, budget) && !reduced
    ensures !reduced ==> next == current
    ensures reduced ==> Reduction(next, current) && |next| < |current|
    ensures reduced ==> test(Elems(next)) && (Usable(current) ==> Usable(next))
    ensures !reduced && !partial && granularity >= |current| ==>
      forall u :: u in current ==> !test(Elems(current) - {u})
  {
    var chunk := CeilDiv(|current|, granularity);
    assert 1 <= chunk < |current| && (granularity >= |current| ==> chunk == 1) by {
      CeilDivision(|current|, granularity);
    }
    next, calls, reduced, partial := current, before, false, false;
    var start := 0;
    while start < |current|
      invariant !reduced && !partial && next == current
      invariant calls >= before && start == (calls - before) * chunk && calls <= Max(0, budget)
      invariant calls - before <= granularity && calls - before <= |current|
      invariant chunk == 1 ==> start <= |current| && forall j :: 0 <= j < start ==> !test(Elems(current) - {current[j]})
      decreases |current| - start
    {
      if calls >= budget {
        partial := true;
        break;
      }
      var stop := if start + chunk < |current| then start + chunk else |current|;
      var victim := current[start..stop];
      var complement := set u | u in current && u !in victim;
      PassCost(|current|, granularity, calls - before + 1);
      calls := calls + 1;
      assert complement == Elems(current) - Elems(victim);
      if test(complement) {
        SpareChunk(current, start, stop);
        next := Restrict(current, complement);
        reduced := true;
        break;
      }
      if chunk == 1 {
        assert victim == [current[start]];
        assert complement == Elems(current) - {current[start]};
      }
      assert (calls - before) * chunk == start + chunk;
      start := start + chunk;
    }
  }

  /** Leaving out a chunk that is not everything: a shorter reduction, with exactly the rest in it. */
  lemma SpareChunk(current: seq<int>, start: nat, stop: nat)
    requires start < stop <= |current| && stop - start < |current|
    ensures
      var rest := Elems(current) - Elems(current[start..stop]);
      var next := Restrict(current, rest);
      && Elems(next) == rest && Reduction(next, current) && |next| < |current|
      && (Usable(current) ==> Usable(next))
  {
    var rest := Elems(current) - Elems(current[start..stop]);
    assert current[start] in current[start..stop];
    RestrictDrops(current, rest, start);
    RestrictElems(current, rest);
    assert Elems(current) * rest == rest;
    if Usable(current) {
      VictimLeavesSome(current, start, stop);
      RestrictDistinct(current, rest);
    }
  }

  lemma ReductionTransitive(a: seq<int>, b: seq<int>, c: seq<int>)
    requires Reduction(a, b) && Reduction(b, c)
    ensures Reduction(a, c)
  {
    RestrictTwice(c, Elems(b), Elems(a));
    assert Elems(b) * Elems(a) == Elems(a);
  }

  /** The calls made so far are covered by the sizes already left behind and by this size's granularity. */
  ghost predicate Paid(calls: nat, n: nat, size: nat, granularity: nat) {
    size <= n && Triangle(size) <= Triangle(n) &&
    calls <= 3 * (Triangle(n) - Triangle(size)) + Spent(size, granularity)
  }

  lemma PaidAfterPass(calls: nat, k: nat, n: nat, size: nat, g: nat)
    requires Paid(calls, n, size, g) && size >= 2 && k <= g && k <= size
    ensures calls + k <= 3 * Triangle(n)
    ensures g < size ==> Paid(calls + k, n, size, if g * 2 < size then g * 2 else size)
  {
    TriangleGap(0, size);

  }

  lemma PaidAtEnd(calls: nat, n: nat, size: nat, g: nat)
    requires Paid(calls, n, size, g) && size < 2 && g >= 2
    ensures calls <= 3 * Triangle(n)
  {
    if size == 1 { TriangleGap(0, 1); }

  }

  lemma PaidAfterReduction(calls: nat, k: nat, n: nat, size: nat, g: nat, size': nat, g': nat)
    requires Paid(calls, n, size, g) && size' < size && k <= g && k <= size
    ensures Paid(calls + k, n, size', g')
  {
    TriangleGap(size', size);
  }

  method Ddmin(units: seq<int>, test: set<int> -> bool, budget: int)
    returns (kept: seq<int>, calls: nat, partial: bool)
    ensures Reduction(kept, units)
    // It is the input, or exactly a set the oracle accepted.
    ensures kept == units || test(Elems(kept))
    ensures Usable(units) ==> Usable(kept)
    // 1-minimal: of a finished result with two or more units, no single one can go.
    ensures !partial && |kept| >= 2 ==> forall u :: u in kept ==> !test(Elems(kept) - {u})
    // The budget bounds the calls, and so does the size whatever the budget.
    ensures calls <= Max(0, budget) && (partial ==> calls == Max(0, budget))
    ensures calls <= 3 * Triangle(|units|)
  {
    var current := units;
    RestrictAll(units, Elems(units));
    calls := 0;
    var granularity := 2;
    partial := false;
    while |current| >= 2
      invariant granularity >= 2 && !partial
      invariant Reduction(current, units) && (current == units || test(Elems(current)))
      invariant Usable(units) ==> Usable(current)
      invariant calls <= Max(0, budget)
      invariant Paid(calls, |units|, |current|, granularity)
      decreases |current|, Max(0, |current| - granularity)
    {
      var next, after, reduced;
      next, after, reduced, partial := Pass(current, granularity, test, budget, calls);
      PaidAfterPass(calls, after - calls, |units|, |current|, granularity);
      if partial {
        calls := after;
        break;
      }
      if reduced {
        ReductionTransitive(next, current, units);
        PaidAfterReduction(calls, after - calls, |units|, |current|, granularity, |next|, Max(2, granularity - 1));
        current := next;
        granularity := Max(2, granularity - 1);
        calls := after;
      } else {
        calls := after;
        if granularity >= |current| {
          break;
        }
        granularity := if granularity * 2 < |current| then granularity * 2 else |current|;
      }
    }
    if |current| < 2 && !partial {
      PaidAtEnd(calls, |units|, |current|, granularity);
    }
    kept := current;
  }

  lemma {:induction false} RestrictDistinct(units: seq<int>, s: set<int>)
    requires Distinct(units)
    ensures Distinct(Restrict(units, s))
  {
    if units != [] {
      var n := |units| - 1;
      var front := Restrict(units[..n], s);
      RestrictDistinct(units[..n], s);
      forall i | 0 <= i < |front| ensures front[i] != units[n] {
        RestrictMember(units[..n], s, front[i]);
      }
    }
  }

  // ---- The change lines of a diff, and the candidates built from them ----

  /** Added or removed content; file headers, hunk headers, context and the no-newline marker are structure. */
  predicate IsChange(line: string) {
    line != "" && (line[0] == '+' || line[0] == '-') && !StartsWith(line, "+++") && !StartsWith(line, "---")
  }

  /** `change_line_indices`. */
  function ChangeIndices(lines: seq<string>): seq<int> {
    if lines == [] then []
    else
      var n := |lines| - 1;
      ChangeIndices(lines[..n]) + (if IsChange(lines[n]) then [n] else [])
  }

  lemma {:induction false} ChangeIndicesAre(lines: seq<string>)
    ensures Elems(ChangeIndices(lines)) == set i | 0 <= i < |lines| && IsChange(lines[i])
    ensures Distinct(ChangeIndices(lines))
    ensures forall u :: u in ChangeIndices(lines) ==> 0 <= u < |lines|
  {
    if lines != [] {
      var n := |lines| - 1;
      ChangeIndicesAre(lines[..n]);
      var front := ChangeIndices(lines[..n]);
      assert forall i :: 0 <= i < |front| ==> front[i] in front;
      forall u ensures u in ChangeIndices(lines) <==> 0 <= u < |lines| && IsChange(lines[u]) {
        assert u in ChangeIndices(lines[..n]) <==> u in Elems(ChangeIndices(lines[..n]));
      }
    }
  }

  /** `_rebuild`: the lines with every change line that is not kept taken out. */
  function Rebuild(lines: seq<string>, changes: seq<int>, keep: set<int>): string {
    Join(Without(lines, (set u | u in changes) - keep), '\n')
  }

  lemma CountWithout(lines: seq<string>, keep: set<int>)
    ensures |ChangeIndices(Without(lines, Elems(ChangeIndices(lines)) - keep))| == |Restrict(ChangeIndices(lines), keep)|
  {
    ChangeIndicesAre(lines);
    CountWithoutAny(lines, Elems(ChangeIndices(lines)) - keep, keep);
  }

  /** Dropping some lines drops just their change-line indices from the count. */
  lemma {:induction false} CountWithoutAny(lines: seq<string>, dropped: set<int>, keep: set<int>)
    requires forall i :: 0 <= i < |lines| ==> (i in dropped <==> IsChange(lines[i]) && i !in keep)
    ensures |ChangeIndices(Without(lines, dropped))| == |Restrict(ChangeIndices(lines), keep)|
  {
    if lines != [] {
      var n := |lines| - 1;
      CountWithoutAny(lines[..n], dropped, keep);
      var front, units := Without(lines[..n], dropped), ChangeIndices(lines[..n]);
      CountAppended(front, units, lines[n], n, keep);
      if n in dropped { assert Without(lines, dropped) == front; }
      if !IsChange(lines[n]) { assert ChangeIndices(lines) == units; }
    }
  }

  lemma CountAppended(front: seq<string>, units: seq<int>, line: string, n: int, keep: set<int>)
    ensures |ChangeIndices(front + [line])| == |ChangeIndices(front)| + (if IsChange(line) then 1 else 0)
    ensures |Restrict(units + [n], keep)| == |Restrict(units, keep)| + (if n in keep then 1 else 0)
  {
    assert (front + [line])[..|front|] == front;
    assert (units + [n])[..|units|] == units;
  }

  function RemoveAt<T>(items: seq<T>, j: nat): seq<T>
    requires j < |items|
  {
    items[..j] + items[j + 1..]
  }

  /** Line `j` of a candidate is some line `i` of the original; taking it out is dropping `i` as well. */
  lemma {:induction false} OriginOf(lines: seq<string>, dropped: set<int>, j: nat) returns (i: nat)
    requires j < |Without(lines, dropped)|
    ensures i < |lines| && i !in dropped && lines[i] == Without(lines, dropped)[j]
    ensures RemoveAt(Without(lines, dropped), j) == Without(lines, dropped + {i})
  {
    var n := |lines| - 1;
    var front := Without(lines[..n], dropped);
    if j < |front| {
      i := OriginOf(lines[..n], dropped, j);
      if n !in dropped {
        assert RemoveAt(Without(lines, dropped), j) == RemoveAt(front, j) + [lines[n]];
      } else {
        assert Without(lines, dropped) == front;
      }
    } else {
      i := n;
      WithoutAgree(lines[..n], dropped, dropped + {n});
      assert Without(lines, dropped) == front + [lines[n]];
      assert RemoveAt(front + [lines[n]], j) == front;
    }
  }

  // ---- The candidate set is closed under the diff parser ----

  /** The context bodies of a diff: what both sides share and the minimizer never touches. */
  function ContextLines(lines: seq<string>): seq<string> {
    if lines == [] then []
    else
      var n := |lines| - 1;
      ContextLines(lines[..n]) +
      (if ReadLines(lines[..n]).Ok? && KindOf(lines[n], ReadLines(lines[..n]).value.inHunk) == Body(true, true)
       then [BodyOf(lines[n])] else [])
  }

  ghost predicate SameFlags(q: Reader, r: Reader) { q.inHunk == r.inHunk && q.seenHunk == r.seenHunk }

  /** `q` has read a part of what `r` has read. */
  ghost predicate PartOf(q: Reader, r: Reader) {
    SameFlags(q, r) && Sublist(q.before, r.before) && Sublist(q.after, r.after)
  }

  lemma ChangeIsBody(raw: string)
    requires IsChange(raw)
    ensures !IsFileHeader(raw) && !IsGitHeader(raw) && !StartsWith(raw, "@@") && !StartsWith(raw, "\\") && !IsBlank(raw)
  {
    FirstCharacters(raw);
    assert raw[0] in raw;
    StartsWithPrefix(raw, "--- ", "---");
    StartsWithPrefix(raw, "+++ ", "+++");
    assert "--- "[..3] == "---" && "+++ "[..3] == "+++";
  }

  /** Leaving a change line out keeps the reader in step. */
  lemma SkipChange(q: Reader, r: Reader, raw: string)
    requires PartOf(q, r) && IsChange(raw) && ReadLine(r, raw).Ok?
    ensures PartOf(q, ReadLine(r, raw).value) && KindOf(raw, r.inHunk) != Body(true, true)
  {
    ChangeIsBody(raw);
    SublistStep(q.before, r.before, raw[1..]);
    SublistStep(q.after, r.after, raw[1..]);
  }

  lemma ApplyBoth(q: Reader, r: Reader, kind: Kind, body: string)
    requires PartOf(q, r) && !kind.Bad?
    ensures PartOf(Apply(q, kind, body).value, Apply(r, kind, body).value)
  {
    SublistStep(q.before, r.before, body);
    SublistStep(q.after, r.after, body);
  }

  /** Candidate lines `a` stay in step with the diff lines `b` they come from. */
  ghost predicate Tracks(a: seq<string>, b: seq<string>) {
    && ReadLines(a).Ok? && ReadLines(b).Ok?
    && PartOf(ReadLines(a).value, ReadLines(b).value)
    && ContextLines(a) == ContextLines(b)
  }

  lemma ContextAppended(lines: seq<string>, raw: string)
    requires ReadLines(lines).Ok?
    ensures ContextLines(lines + [raw]) ==
            ContextLines(lines) +
            (if KindOf(raw, ReadLines(lines).value.inHunk) == Body(true, true) then [BodyOf(raw)] else [])
  {
    assert (lines + [raw])[..|lines|] == lines;
  }

  lemma TracksKept(a: seq<string>, b: seq<string>, raw: string)
    requires Tracks(a, b) && ReadLines(b + [raw]).Ok?
    ensures Tracks(a + [raw], b + [raw])
  {
    ReadAppended(a, raw);
    ReadAppended(b, raw);
    ContextAppended(a, raw);
    ContextAppended(b, raw);
    ApplyBoth(ReadLines(a).value, ReadLines(b).value, KindOf(raw, ReadLines(b).value.inHunk), BodyOf(raw));
  }

  lemma TracksDropped(a: seq<string>, b: seq<string>, raw: string)
    requires Tracks(a, b) && ReadLines(b + [raw]).Ok? && IsChange(raw)
    ensures Tracks(a, b + [raw])
  {
    ReadAppended(b, raw);
    ContextAppended(b, raw);
    SkipChange(ReadLines(a).value, ReadLines(b).value, raw);
    assert ContextLines(b) + [] == ContextLines(b);
  }

  lemma {:induction false} ReadCandidate(lines: seq<string>, dropped: set<int>)
    requires forall i :: 0 <= i < |lines| && i in dropped ==> IsChange(lines[i])
    requires ReadLines(lines).Ok?
    ensures Tracks(Without(lines, dropped), lines)
  {
    if lines != [] {
      var n := |lines| - 1;
      assert lines == lines[..n] + [lines[n]];
      ReadAppended(lines[..n], lines[n]);
      ReadCandidate(lines[..n], dropped);
      var front := Without(lines[..n], dropped);
      if n in dropped {
        assert Without(lines, dropped) == front;
        TracksDropped(front, lines[..n], lines[n]);
      } else {
        TracksKept(front, lines[..n], lines[n]);
      }
    }
  }

  lemma ContextStep(context: seq<string>, r: Reader, kind: Kind, body: string)
    requires Sublist(context, r.before) && Sublist(context, r.after) && !kind.Bad?
    ensures
      var context', r' := context + (if kind == Body(true, true) then [body] else []), Apply(r, kind, body).value;
      Sublist(context', r'.before) && Sublist(context', r'.after)
  {
    assert context + [] == context;
    SublistStep(context, r.before, body);
    SublistStep(context, r.after, body);
  }

  ghost predicate ContextKept(lines: seq<string>) {
    ReadLines(lines).Ok? && Sublist(ContextLines(lines), ReadLines(lines).value.before) &&
    Sublist(ContextLines(lines), ReadLines(lines).value.after)
  }

  lemma ContextKeptStep(front: seq<string>, raw: string)
    requires ContextKept(front) && ReadLines(front + [raw]).Ok?
    ensures ContextKept(front + [raw])
  {
    ReadAppended(front, raw);
    ContextAppended(front, raw);
    var r := ReadLines(front).value;
    ContextStep(ContextLines(front), r, KindOf(raw, r.inHunk), BodyOf(raw));
  }

  lemma {:induction false} ContextInBothSides(lines: seq<string>)
    requires ReadLines(lines).Ok?
    ensures ContextKept(lines)
  {
    if lines == [] {
      assert Without(START.before, {}) == [];
    } else {
      var n := |lines| - 1;
      assert lines == lines[..n] + [lines[n]];
      ReadAppended(lines[..n], lines[n]);
      ContextInBothSides(lines[..n]);
      ContextKeptStep(lines[..n], lines[n]);
    }
  }

  /** If the parser accepts a diff it accepts every candidate; each side of the candidate is a sublist of the
      original side that still has every context line. */
  lemma CandidateParses(lines: seq<string>, keep: set<int>)
    requires Sides(lines).Ok?
    ensures
      var candidate := Without(lines, Elems(ChangeIndices(lines)) - keep);
      && Sides(candidate).Ok?
      && Sublist(Sides(candidate).value.0, Sides(lines).value.0)
      && Sublist(Sides(candidate).value.1, Sides(lines).value.1)
      && Sublist(ContextLines(lines), Sides(candidate).value.0)
      && Sublist(ContextLines(lines), Sides(candidate).value.1)
  {
    ChangeIndicesAre(lines);
    var dropped := Elems(ChangeIndices(lines)) - keep;
    ReadCandidate(lines, dropped);
    ContextInBothSides(Without(lines, dropped));
  }

  // ---- minimize ----

  datatype MinimizeResult = MinimizeResult(diff: string, changeLines: nat, originalChangeLines: nat, analyses: nat, partial: bool)

  /** Some change lines of `diffText` taken out, nothing else. */
  ghost predicate IsCandidate(diff: string, diffText: string) {
    exists keep: set<int> :: diff == Rebuild(Split(diffText, '\n'), ChangeIndices(Split(diffText, '\n')), keep)
  }

  /** Taking out any one change line of `diff` gives a text the oracle refuses. */
  ghost predicate OneMinimal(diff: string, test: string -> bool) {
    var lines := Split(diff, '\n');
    forall j :: j in ChangeIndices(lines) && 0 <= j < |lines| ==> !test(Join(RemoveAt(lines, j), '\n'))
  }

  lemma OriginalIsCandidate(diffText: string)
    ensures IsCandidate(diffText, diffText)
    ensures
      var lines := Split(diffText, '\n');
      Rebuild(lines, ChangeIndices(lines), Elems(ChangeIndices(lines))) == diffText
  {
    var lines := Split(diffText, '\n');
    WithoutNothing(lines);
    JoinOfSplit(diffText, '\n');
    var keep := Elems(ChangeIndices(lines));
    assert (set u | u in ChangeIndices(lines)) - keep == {};
    assert diffText == Rebuild(lines, ChangeIndices(lines), keep);
  }

  /** The closure on texts: a candidate of an accepted diff is an accepted diff. */
  lemma CandidateTextParses(diff: string, diffText: string)
    requires IsCandidate(diff, diffText) && Sides(Split(diffText, '\n')).Ok?
    ensures Sides(Split(diff, '\n')).Ok?
  {
    var lines := Split(diffText, '\n');
    var changes := ChangeIndices(lines);
    var keep: set<int> :| diff == Rebuild(lines, changes, keep);
    assert (set u | u in changes) == Elems(changes);
    CandidateParses(lines, keep);
    WithoutMembers(lines, Elems(changes) - keep, '\n');
    SplitOfJoin(Without(lines, Elems(changes) - keep), '\n');
  }

  /** The lines of a rebuilt candidate are the kept lines, and its change lines are the kept units. */
  lemma KeptSetRebuilds(diffText: string, kept: seq<int>)
    requires kept != [] && Reduction(kept, ChangeIndices(Split(diffText, '\n')))
    ensures
      var lines := Split(diffText, '\n');
      var diff := Rebuild(lines, ChangeIndices(lines), Elems(kept));
      && Split(diff, '\n') == Without(lines, Elems(ChangeIndices(lines)) - Elems(kept))
      && |ChangeIndices(Split(diff, '\n'))| == |kept|
  {
    var lines := Split(diffText, '\n');
    var changes := ChangeIndices(lines);
    CountWithout(lines, Elems(kept));
    WithoutMembers(lines, Elems(changes) - Elems(kept), '\n');
    assert (set u | u in changes) == Elems(changes);
    SplitOfJoin(Without(lines, Elems(changes) - Elems(kept)), '\n');
  }

  /** Taking out one change line of a candidate is keeping one unit fewer. */
  lemma OneLineFewer(lines: seq<string>, kept: seq<int>, j: nat) returns (u: int)
    requires Elems(kept) <= Elems(ChangeIndices(lines))
    requires
      var left := Without(lines, Elems(ChangeIndices(lines)) - Elems(kept));
      j < |left| && IsChange(left[j])
    ensures u in kept
    ensures
      var left := Without(lines, Elems(ChangeIndices(lines)) - Elems(kept));
      Join(RemoveAt(left, j), '\n') == Rebuild(lines, ChangeIndices(lines), Elems(kept) - {u})
  {
    var changes := ChangeIndices(lines);
    var dropped := Elems(changes) - Elems(kept);
    ChangeIndicesAre(lines);
    u := OriginOf(lines, dropped, j);
    assert u in Elems(changes) && u in Elems(kept);
    assert dropped + {u} == (set c | c in changes) - (Elems(kept) - {u});
  }

  lemma KeptSetIsOneMinimal(diffText: string, kept: seq<int>, test: string -> bool)
    requires kept != [] && Reduction(kept, ChangeIndices(Split(diffText, '\n')))
    requires
      var lines := Split(diffText, '\n');
      forall u :: u in kept ==> !test(Rebuild(lines, ChangeIndices(lines), Elems(kept) - {u}))
    ensures
      var lines := Split(diffText, '\n');
      OneMinimal(Rebuild(lines, ChangeIndices(lines), Elems(kept)), test)
  {
    var lines := Split(diffText, '\n');
    KeptSetRebuilds(diffText, kept);
    var left := Split(Rebuild(lines, ChangeIndices(lines), Elems(kept)), '\n');
    ChangeIndicesAre(left);
    forall j | j in ChangeIndices(left) && 0 <= j < |left| ensures !test(Join(RemoveAt(left, j), '\n')) {
      assert j in Elems(ChangeIndices(left));
      var u := OneLineFewer(lines, kept, j);
    }
  }

  method Minimize(diffText: string, test: string -> bool, budget: int) returns (r: MinimizeResult)
    ensures IsCandidate(r.diff, diffText) && (r.diff == diffText || test(r.diff))
    ensures r.changeLines == |ChangeIndices(Split(r.diff, '\n'))|
    ensures r.originalChangeLines == |ChangeIndices(Split(diffText, '\n'))|
    ensures r.originalChangeLines > 0 ==> r.changeLines > 0
    ensures !r.partial && r.changeLines >= 2 ==> OneMinimal(r.diff, test)
    ensures r.analyses <= Max(0, budget) && r.analyses <= 3 * Triangle(r.originalChangeLines)
    ensures r.originalChangeLines > MAX_CHANGE_UNITS ==> r == MinimizeResult(diffText, r.originalChangeLines, r.originalChangeLines, 0, true)
  {
    var lines := Split(diffText, '\n');
    var changes := ChangeIndices(lines);
    OriginalIsCandidate(diffText);
    if |changes| < 2 {
      return MinimizeResult(diffText, |changes|, |changes|, 0, false);
    }
    if |changes| > MAX_CHANGE_UNITS {
      return MinimizeResult(diffText, |changes|, |changes|, 0, true);
    }
    ChangeIndicesAre(lines);
    var kept, calls, partial := Ddmin(changes, keep => test(Rebuild(lines, changes, keep)), budget);
    var keep := set u | u in kept;
    assert keep == Elems(kept);
    var diff := Rebuild(lines, changes, keep);
    KeptSetRebuilds(diffText, kept);
    if !partial && |kept| >= 2 {
      KeptSetIsOneMinimal(diffText, kept, test);
    }
    r := MinimizeResult(diff, |kept|, |changes|, calls, partial);
  }
}
