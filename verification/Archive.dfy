/** `harness/archive.py`: the grid of cells that parallel workers merge into one shared file. */
module Archive {
  import opened Text
  import opened Options

  function MaxNat(a: nat, b: nat): nat { if a < b then b else a }

  // ---- Cells ----

  /** A confirmed bypass of a cell, and the three fields it is deduplicated by. */
  datatype Obs = Obs(key: ObsKey, cost: real)
  datatype ObsKey = ObsKey(campaign: string, attempt: int, version: string)

  /** The value of one cell: everything `to_dict` writes. */
  datatype Cell = Cell(
    representative: string, observations: seq<Obs>, status: string, closedVersion: string,
    duplicates: map<string, nat>, degraded: bool)

  const EMPTY := Cell("", [], "", "", map[], false)

  function LineCount(s: string): nat { |Split(s, '\n')| }

  /** `_better_rep`: the smaller diff wins, and any diff beats none. */
  predicate BetterRep(candidate: string, incumbent: string) {
    if candidate == "" then incumbent == ""
    else incumbent == "" || LineCount(candidate) < LineCount(incumbent)
  }

  /** The observations of `incoming` whose key is not among `seen`. */
  function Fresh(incoming: seq<Obs>, seen: set<ObsKey>): seq<Obs> {
    if incoming == [] then []
    else
      var n := |incoming| - 1;
      Fresh(incoming[..n], seen) + (if incoming[n].key in seen then [] else [incoming[n]])
  }

  function Count(counts: map<string, nat>, version: string): nat { if version in counts then counts[version] else 0 }

  /** `a` with the maximum taken against `b` at each of `versions`. */
  function MaxAt(a: map<string, nat>, b: map<string, nat>, versions: set<string>): map<string, nat> {
    map v | v in a.Keys + versions :: if v in versions then MaxNat(Count(a, v), Count(b, v)) else a[v]
  }

  function MergeDuplicates(a: map<string, nat>, b: map<string, nat>): map<string, nat> {
    MaxAt(a, b, b.Keys)
  }

  lemma MaxAtOneMore(a: map<string, nat>, b: map<string, nat>, versions: set<string>, v: string)
    requires v !in versions
    ensures MaxAt(a, b, versions + {v}) == MaxAt(a, b, versions)[v := MaxNat(Count(MaxAt(a, b, versions), v), Count(b, v))]
  {
  }

  function Seen(observations: seq<Obs>): set<ObsKey> { set o | o in observations :: o.key }

  /** What a cell is after another has been folded in. */
  function MergeCell(a: Cell, b: Cell): Cell {
    Cell(
      if b.representative != "" && BetterRep(b.representative, a.representative) then b.representative else a.representative,
      a.observations + Fresh(b.observations, Seen(a.observations)),
      if b.status != "" then b.status else a.status,
      if b.status != "" then b.closedVersion else a.closedVersion,
      MergeDuplicates(a.duplicates, b.duplicates),
      a.degraded && b.degraded)
  }

  /** A cell as the program holds it: an object whose fields the merge updates. */
  class CellEntry {
    var representative: string
    var observations: seq<Obs>
    var status: string
    var closedVersion: string
    var duplicates: map<string, nat>
    var degraded: bool

    function Value(): Cell
      reads this
    {
      Cell(representative, observations, status, closedVersion, duplicates, degraded)
    }

    constructor (c: Cell)
      ensures Value() == c
    {
      representative, observations, status := c.representative, c.observations, c.status;
      closedVersion, duplicates, degraded := c.closedVersion, c.duplicates, c.degraded;
    }

    method MergeObservations(theirs: seq<Obs>)
      modifies this`observations
      ensures observations == old(observations) + Fresh(theirs, Seen(old(observations)))
    {
      var seen := Seen(observations);
      for i := 0 to |theirs|
        invariant observations == old(observations) + Fresh(theirs[..i], seen)
      {
        assert theirs[..i + 1][..i] == theirs[..i];
        if theirs[i].key in seen {
          continue;
        }
        observations := observations + [theirs[i]];
      }
      assert theirs[..|theirs|] == theirs;
    }

    method MaxDuplicates(theirs: map<string, nat>)
      modifies this`duplicates
      ensures duplicates == MergeDuplicates(old(duplicates), theirs)
    {
      ghost var ours := duplicates;
      var left := theirs.Keys;
      while left != {}
        invariant left <= theirs.Keys && duplicates == MaxAt(ours, theirs, theirs.Keys - left)
        decreases |left|
      {
        var version :| version in left;
        MaxAtOneMore(ours, theirs, theirs.Keys - left, version);
        assert theirs.Keys - left + {version} == theirs.Keys - (left - {version});
        var count := MaxNat(Count(duplicates, version), theirs[version]);
        duplicates := duplicates[version := count];
        left := left - {version};
      }
      assert theirs.Keys - left == theirs.Keys;
    }

    /** Fold `other` into this cell. */
    method Merge(other: CellEntry)
      modifies this
      ensures Value() == MergeCell(old(Value()), old(other.Value()))
    {
      var theirs := other.Value();
      MergeObservations(theirs.observations);
      MaxDuplicates(theirs.duplicates);
      if theirs.status != "" {
        status := theirs.status;
        closedVersion := theirs.closedVersion;
      }
      if theirs.representative != "" && BetterRep(theirs.representative, representative) {
        representative := theirs.representative;
      }
      degraded := degraded && theirs.degraded;
    }
  }

  // ---- What does not depend on the order of merges ----

  /** The order-independent part of a cell: observation keys, duplicate maxima, the degraded mark, the best size. */
  datatype Summary = Summary(keys: set<ObsKey>, duplicates: map<string, nat>, degraded: bool, size: Option<nat>)

  function Size(representative: string): Option<nat> {
    if representative == "" then None else Some(LineCount(representative))
  }

  function Least(a: Option<nat>, b: Option<nat>): Option<nat> {
    if a.None? then b else if b.None? then a else if b.value < a.value then b else a
  }

  function Summarize(c: Cell): Summary {
    Summary(Seen(c.observations), c.duplicates, c.degraded, Size(c.representative))
  }

  /** The least upper bound of two summaries. */
  function Join(a: Summary, b: Summary): Summary {
    Summary(a.keys + b.keys, MergeDuplicates(a.duplicates, b.duplicates), a.degraded && b.degraded, Least(a.size, b.size))
  }

  lemma MaximaAt(a: map<string, nat>, b: map<string, nat>, v: string)
    ensures Count(MergeDuplicates(a, b), v) == MaxNat(Count(a, v), Count(b, v))
    ensures v in MergeDuplicates(a, b) <==> v in a || v in b
  {
  }

  lemma SameCounts(a: map<string, nat>, b: map<string, nat>)
    requires forall v :: (v in a <==> v in b) && Count(a, v) == Count(b, v)
    ensures a == b
  {
    forall v | v in a ensures a[v] == b[v] { assert Count(a, v) == Count(b, v); }
  }

  lemma MaximaCommute(a: map<string, nat>, b: map<string, nat>)
    ensures MergeDuplicates(a, b) == MergeDuplicates(b, a)
  {
    var l, r := MergeDuplicates(a, b), MergeDuplicates(b, a);
    forall v ensures (v in l <==> v in r) && Count(l, v) == Count(r, v) {
      MaximaAt(a, b, v);
      MaximaAt(b, a, v);
    }
    SameCounts(l, r);
  }

  lemma MaximaAssociate(a: map<string, nat>, b: map<string, nat>, c: map<string, nat>)
    ensures MergeDuplicates(MergeDuplicates(a, b), c) == MergeDuplicates(a, MergeDuplicates(b, c))
  {
    var ab, bc := MergeDuplicates(a, b), MergeDuplicates(b, c);
    var l, r := MergeDuplicates(ab, c), MergeDuplicates(a, bc);
    forall v ensures (v in l <==> v in r) && Count(l, v) == Count(r, v) {
      MaximaAt(a, b, v);
      MaximaAt(b, c, v);
      MaximaAt(ab, c, v);
      MaximaAt(a, bc, v);
    }
    SameCounts(l, r);
  }

  lemma JoinIsSemilattice(a: Summary, b: Summary, c: Summary)
    ensures Join(a, b) == Join(b, a)
    ensures Join(Join(a, b), c) == Join(a, Join(b, c))
    ensures Join(a, a) == a
  {
    MaximaCommute(a.duplicates, b.duplicates);
    MaximaAssociate(a.duplicates, b.duplicates, c.duplicates);
  }

  lemma {:induction false} FreshKeys(incoming: seq<Obs>, seen: set<ObsKey>)
    ensures Seen(Fresh(incoming, seen)) == Seen(incoming) - seen
  {
    if incoming != [] {
      var n := |incoming| - 1;
      FreshKeys(incoming[..n], seen);
      assert Seen(incoming) == Seen(incoming[..n]) + {incoming[n].key} by {
        assert incoming == incoming[..n] + [incoming[n]];
        SeenConcat(incoming[..n], [incoming[n]]);
      }
      SeenConcat(Fresh(incoming[..n], seen), if incoming[n].key in seen then [] else [incoming[n]]);
    }
  }

  lemma SeenConcat(a: seq<Obs>, b: seq<Obs>)
    ensures Seen(a + b) == Seen(a) + Seen(b)
  {
    forall k | k in Seen(a) + Seen(b) ensures k in Seen(a + b) {
      if o :| o in a && o.key == k {
        assert o in a + b;
      } else {
        var o :| o in b && o.key == k;
        assert o in a + b;
      }
    }
  }

  /** Folding one cell into another joins their summaries. */
  lemma MergeJoins(a: Cell, b: Cell)
    ensures Summarize(MergeCell(a, b)) == Join(Summarize(a), Summarize(b))
  {
    FreshKeys(b.observations, Seen(a.observations));
    SeenConcat(a.observations, Fresh(b.observations, Seen(a.observations)));
  }

  type Grid = map<string, Cell>

  /** What `merge_into` leaves in the file: cell by cell, folded in or added. */
  function MergeGrid(file: Grid, mine: Grid): Grid {
    map k | k in file.Keys + mine.Keys ::
      if k in file && k in mine then MergeCell(file[k], mine[k]) else if k in file then file[k] else mine[k]
  }

  function Summaries(g: Grid): map<string, Summary> { map k | k in g :: Summarize(g[k]) }

  function JoinGrid(a: map<string, Summary>, b: map<string, Summary>): map<string, Summary> {
    map k | k in a.Keys + b.Keys ::
      if k in a && k in b then Join(a[k], b[k]) else if k in a then a[k] else b[k]
  }

  lemma MergeGridJoins(f: Grid, g: Grid)
    ensures Summaries(MergeGrid(f, g)) == JoinGrid(Summaries(f), Summaries(g))
  {
    forall k | k in f && k in g ensures Summarize(MergeCell(f[k], g[k])) == Join(Summarize(f[k]), Summarize(g[k])) {
      MergeJoins(f[k], g[k]);
    }
  }

  lemma JoinGridSwap(a: map<string, Summary>, b: map<string, Summary>, c: map<string, Summary>)
    ensures JoinGrid(JoinGrid(a, b), c) == JoinGrid(JoinGrid(a, c), b)
  {
    var l, r := JoinGrid(JoinGrid(a, b), c), JoinGrid(JoinGrid(a, c), b);
    assert l.Keys == r.Keys;
    forall k | k in l ensures l[k] == r[k] {
      if k in a && k in b && k in c {
        JoinIsSemilattice(a[k], b[k], c[k]);
        JoinIsSemilattice(a[k], c[k], b[k]);
        JoinIsSemilattice(b[k], c[k], a[k]);
      } else if k in b && k in c {
        JoinIsSemilattice(b[k], c[k], c[k]);
      }
    }
  }

  /** The file after merging each grid in turn. */
  function MergeAll(file: Grid, grids: seq<Grid>): Grid {
    if grids == [] then file else MergeGrid(MergeAll(file, grids[..|grids| - 1]), grids[|grids| - 1])
  }

  function Except<T>(items: seq<T>, i: nat): seq<T>
    requires i < |items|
  {
    items[..i] + items[i + 1..]
  }

  lemma ExceptMultiset<T>(items: seq<T>, i: nat)
    requires i < |items|
    ensures multiset(items) == multiset(Except(items, i)) + multiset{items[i]}
  {
    assert items == items[..i] + ([items[i]] + items[i + 1..]);
    assert multiset(items) == multiset(items[..i]) + multiset([items[i]] + items[i + 1..]);
  }

  /** One merge on top of an earlier one, in the other order. */
  lemma SwapMerges(front: Grid, rest: Grid, x: Grid, y: Grid)
    requires Summaries(front) == JoinGrid(Summaries(rest), Summaries(x))
    ensures Summaries(MergeGrid(front, y)) == JoinGrid(Summaries(MergeGrid(rest, y)), Summaries(x))
  {
    MergeGridJoins(front, y);
    MergeGridJoins(rest, y);
    JoinGridSwap(Summaries(rest), Summaries(x), Summaries(y));
  }

  lemma MergeAllSnoc(file: Grid, grids: seq<Grid>, last: Grid)
    ensures MergeAll(file, grids + [last]) == MergeGrid(MergeAll(file, grids), last)
  {
    assert (grids + [last])[..|grids|] == grids;
  }

  /** Whichever merge is made last, the summaries come out the same. */
  lemma {:induction false} MoveLast(file: Grid, grids: seq<Grid>, i: nat)
    requires i < |grids|
    ensures Summaries(MergeAll(file, grids)) == JoinGrid(Summaries(MergeAll(file, Except(grids, i))), Summaries(grids[i]))
    decreases |grids|
  {
    var n := |grids| - 1;
    var early := grids[..n];
    assert grids == early + [grids[n]];
    MergeAllSnoc(file, early, grids[n]);
    if i == n {
      MergeGridJoins(MergeAll(file, early), grids[n]);
      assert Except(grids, i) == early;
    } else {
      assert Except(grids, i) == Except(early, i) + [grids[n]];
      MergeAllSnoc(file, Except(early, i), grids[n]);
      MoveLast(file, early, i);
      SwapMerges(MergeAll(file, early), MergeAll(file, Except(early, i)), grids[i], grids[n]);
    }
  }

  /** Workers merging in any order leave the same keys, duplicate maxima, degraded marks and best sizes in every cell. */
  lemma {:induction false} OrderDoesNotMatter(file: Grid, a: seq<Grid>, b: seq<Grid>)
    requires multiset(a) == multiset(b)
    ensures Summaries(MergeAll(file, a)) == Summaries(MergeAll(file, b))
    decreases |b|
  {
    if b == [] {
      assert |multiset(a)| == 0;
    } else {
      var n := |b| - 1;
      assert b == b[..n] + [b[n]];
      assert b[n] in multiset(a);
      var i :| 0 <= i < |a| && a[i] == b[n];
      ExceptMultiset(a, i);
      ExceptMultiset(b, n);
      assert Except(b, n) == b[..n];
      assert multiset(Except(a, i)) == multiset(a) - multiset{b[n]};
      OrderDoesNotMatter(file, Except(a, i), b[..n]);
      MoveLast(file, a, i);
      MergeGridJoins(MergeAll(file, b[..n]), b[n]);
    }
  }
}
