/** Greedy cutting into consecutive batches: nothing lost, and never more batches than any other cut. */
module Greedy {
  function Concat<T>(batches: seq<seq<T>>): seq<T> {
    if batches == [] then [] else batches[0] + Concat(batches[1..])
  }

  ghost predicate Splits<T(!new)>(batches: seq<seq<T>>, items: seq<T>, fits: seq<T> -> bool) {
    Concat(batches) == items && forall b :: b in batches ==> b != [] && fits(b)
  }

  /** Every stretch of a batch that fits fits too, and so does any item alone. */
  ghost predicate Hereditary<T(!new)>(fits: seq<T> -> bool) {
    forall s: seq<T>, i, j :: 0 <= i < j <= |s| && fits(s) ==> fits(s[i..j])
  }

  ghost predicate Singles<T(!new)>(items: seq<T>, fits: seq<T> -> bool) { forall x :: x in items ==> fits([x]) }

  /** A batch is closed when the next item would not fit into it. */
  predicate Closes<T>(current: seq<T>, item: T, fits: seq<T> -> bool) { current != [] && !fits(current + [item]) }

  /** The batches from a batch under way and the items behind it. */
  function Chunks<T>(current: seq<T>, items: seq<T>, fits: seq<T> -> bool): seq<seq<T>>
    decreases |items|
  {
    if items == [] then (if current == [] then [] else [current])
    else if Closes(current, items[0], fits) then [current] + Chunks([items[0]], items[1..], fits)
    else Chunks(current + [items[0]], items[1..], fits)
  }

  // ---- Nothing lost, every batch fits ----

  lemma ConcatCons<T>(batch: seq<T>, batches: seq<seq<T>>)
    ensures Concat([batch] + batches) == batch + Concat(batches)
  {
    assert ([batch] + batches)[1..] == batches;
  }

  lemma {:induction false} ChunksSplit<T(!new)>(current: seq<T>, items: seq<T>, fits: seq<T> -> bool)
    requires Singles(items, fits) && (current == [] || fits(current))
    ensures Splits(Chunks(current, items, fits), current + items, fits)
    decreases |items|
  {
    if items == [] {
      assert current + items == current;
    } else {
      var item, rest := items[0], items[1..];
      assert item in items && forall x :: x in rest ==> x in items;
      if Closes(current, item, fits) {
        ChunksSplit([item], rest, fits);
        ConcatCons(current, Chunks([item], rest, fits));
        assert current + ([item] + rest) == current + items;
      } else {
        assert current == [] ==> current + [item] == [item];
        ChunksSplit(current + [item], rest, fits);
        assert (current + [item]) + rest == current + items;
      }
    }
  }

  // ---- The first batch ----

  /** How many of the items still go into the batch under way. */
  function Extra<T>(current: seq<T>, items: seq<T>, fits: seq<T> -> bool): (k: nat)
    ensures k <= |items| && (current == [] && items != [] ==> k > 0)
    decreases |items|
  {
    if items == [] || Closes(current, items[0], fits) then 0 else 1 + Extra(current + [items[0]], items[1..], fits)
  }

  lemma TakenTogether<T>(current: seq<T>, items: seq<T>, k: nat)
    requires 0 < k <= |items|
    ensures (current + [items[0]]) + items[1..][..k - 1] == current + items[..k]
    ensures items[1..][k - 1..] == items[k..]
  {
  }

  lemma {:induction false} ChunksExtra<T>(current: seq<T>, items: seq<T>, fits: seq<T> -> bool)
    requires current != [] || items != []
    ensures
      var k := Extra(current, items, fits);
      Chunks(current, items, fits) == [current + items[..k]] + Chunks([], items[k..], fits)
    decreases |items|
  {
    if items == [] {
      assert current + items[..0] == current && items[0..] == [];
    } else if Closes(current, items[0], fits) {
      assert [] + [items[0]] == [items[0]];
      assert current + items[..0] == current && items[0..] == items;
    } else {
      ChunksExtra(current + [items[0]], items[1..], fits);
      TakenTogether(current, items, Extra(current, items, fits));
    }
  }

  /** The batch under way cannot take more: a longer one does not fit. */
  lemma {:induction false} ExtraMost<T(!new)>(current: seq<T>, items: seq<T>, j: nat, fits: seq<T> -> bool)
    requires Hereditary(fits) && j <= |items| && fits(current + items[..j])
    ensures j <= Extra(current, items, fits)
    decreases |items|
  {
    if j > 0 {
      var all, more := current + items[..j], current + [items[0]];
      assert all[0..|more|] == more;
      TakenTogether(current, items, j);
      ExtraMost(more, items[1..], j - 1, fits);
    }
  }

  lemma {:induction false} ExtraFits<T(!new)>(current: seq<T>, items: seq<T>, fits: seq<T> -> bool)
    requires Singles(items, fits) && (current == [] || fits(current)) && (current != [] || items != [])
    ensures fits(current + items[..Extra(current, items, fits)])
    decreases |items|
  {
    var k := Extra(current, items, fits);
    if k == 0 {
      assert current + items[..0] == current;
    } else {
      assert items[0] in items && forall x :: x in items[1..] ==> x in items;
      assert current == [] ==> current + [items[0]] == [items[0]];
      ExtraFits(current + [items[0]], items[1..], fits);
      TakenTogether(current, items, k);
    }
  }

  lemma FirstBatch<T>(items: seq<T>, fits: seq<T> -> bool)
    requires items != []
    ensures
      var k := Extra([], items, fits);
      0 < k <= |items| && |Chunks([], items, fits)| == 1 + |Chunks([], items[k..], fits)|
  {
    ChunksExtra([], items, fits);
  }

  // ---- No cut into batches that fit is shorter ----

  /** Where the greedy batch begun at `k` ends. */
  function End<T>(items: seq<T>, k: nat, fits: seq<T> -> bool): (e: nat)
    requires k <= |items|
    ensures k <= e <= |items| && (k < |items| ==> k < e)
  {
    k + Extra([], items[k..], fits)
  }

  lemma DropDrop<T>(items: seq<T>, k: nat, e: nat)
    requires k <= e <= |items|
    ensures items[k..][e - k..] == items[e..]
  {
  }

  lemma BatchFrom<T>(items: seq<T>, k: nat, fits: seq<T> -> bool)
    requires k < |items|
    ensures |Chunks([], items[k..], fits)| == 1 + |Chunks([], items[End(items, k, fits)..], fits)|
  {
    FirstBatch(items[k..], fits);
    DropDrop(items, k, End(items, k, fits));
  }

  lemma SliceOfFirst<T>(items: seq<T>, k: nat, d: nat, e: nat)
    requires k <= d <= e <= |items|
    ensures ([] + items[k..][..e - k])[d - k..e - k] == [] + items[d..][..e - d]
  {
  }

  /** A batch begun inside another ends no earlier. */
  lemma ReachesAsFar<T(!new)>(items: seq<T>, k: nat, d: nat, fits: seq<T> -> bool)
    requires Hereditary(fits) && Singles(items, fits) && k <= d < |items| && d < End(items, k, fits)
    ensures End(items, k, fits) <= End(items, d, fits)
  {
    var e, from := End(items, k, fits), items[k..];
    assert forall x :: x in from ==> x in items;
    ExtraFits([], from, fits);
    var first := [] + from[..e - k];
    SliceOfFirst(items, k, d, e);
    assert fits(first[d - k..e - k]);
    ExtraMost([], items[d..], e - d, fits);
  }

  /** Items dropped in front never cost a batch more. */
  lemma {:induction false} DropMonotone<T(!new)>(items: seq<T>, k: nat, d: nat, fits: seq<T> -> bool)
    requires k <= d <= |items| && Hereditary(fits) && Singles(items, fits)
    ensures |Chunks([], items[d..], fits)| <= |Chunks([], items[k..], fits)|
    decreases |items| - k
  {
    if k < d < |items| {
      var e := End(items, k, fits);
      BatchFrom(items, k, fits);
      if d >= e {
        DropMonotone(items, e, d, fits);
      } else {
        BatchFrom(items, d, fits);
        ReachesAsFar(items, k, d, fits);
        DropMonotone(items, e, End(items, d, fits), fits);
      }
    } else if d == |items| {
      assert items[d..] == [];
    }
  }

  /** Every cut into consecutive batches that fit has at least as many batches as the greedy one. */
  lemma {:induction false} FewestBatches<T(!new)>(items: seq<T>, parts: seq<seq<T>>, fits: seq<T> -> bool)
    requires Splits(parts, items, fits) && Hereditary(fits) && Singles(items, fits)
    ensures |Chunks([], items, fits)| <= |parts|
    decreases |parts|
  {
    if parts != [] {
      var head, rest := parts[0], parts[1..];
      var j, k := |head|, Extra([], items, fits);
      FirstPart(items, parts, fits);
      FirstBatch(items, fits);
      FewestBatches(items[j..], rest, fits);
      DropMonotone(items, j, k, fits);
    }
  }

  /** The first part of another cut is within the first greedy batch. */
  lemma FirstPart<T(!new)>(items: seq<T>, parts: seq<seq<T>>, fits: seq<T> -> bool)
    requires Splits(parts, items, fits) && Hereditary(fits) && Singles(items, fits) && parts != []
    ensures 0 < |parts[0]| <= Extra([], items, fits) && Splits(parts[1..], items[|parts[0]|..], fits)
    ensures Singles(items[|parts[0]|..], fits)
  {
    var head, rest := parts[0], parts[1..];
    assert head in parts && forall b :: b in rest ==> b in parts;
    assert [] + items[..|head|] == head && items[|head|..] == Concat(rest);
    assert forall x :: x in items[|head|..] ==> x in items;
    ExtraMost([], items, |head|, fits);
  }
}
