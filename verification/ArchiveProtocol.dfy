/** `harness/archive.py`: the shared archive as workers use it - load, observe, merge back under the lock. */
module ArchiveProtocol {
  import opened Text
  import opened Archive
  import opened Options

  // ---- Merging again changes nothing ----

  lemma {:induction false} NothingFresh(incoming: seq<Obs>, seen: set<ObsKey>)
    requires Seen(incoming) <= seen
    ensures Fresh(incoming, seen) == []
  {
    if incoming != [] {
      var n := |incoming| - 1;
      SeenConcat(incoming[..n], [incoming[n]]);
      assert incoming == incoming[..n] + [incoming[n]];
      assert incoming[n].key in Seen(incoming);
      NothingFresh(incoming[..n], seen);
    }
  }

  lemma MaximaAbsorb(a: map<string, nat>, b: map<string, nat>)
    ensures MergeDuplicates(MergeDuplicates(a, b), b) == MergeDuplicates(a, b)
    ensures MergeDuplicates(b, b) == b
  {
    var m := MergeDuplicates(a, b);
    forall v ensures (v in MergeDuplicates(m, b) <==> v in m) && Count(MergeDuplicates(m, b), v) == Count(m, v) {
      MaximaAt(a, b, v);
      MaximaAt(m, b, v);
    }
    SameCounts(MergeDuplicates(m, b), m);
  }

  lemma MergeCellAgain(a: Cell, b: Cell)
    ensures MergeCell(MergeCell(a, b), b) == MergeCell(a, b)
    ensures MergeCell(b, b) == b
  {
    var m := MergeCell(a, b);
    FreshKeys(b.observations, Seen(a.observations));
    SeenConcat(a.observations, Fresh(b.observations, Seen(a.observations)));
    NothingFresh(b.observations, Seen(m.observations));
    NothingFresh(b.observations, Seen(b.observations));
    assert m.observations + [] == m.observations && b.observations + [] == b.observations;
    MaximaAbsorb(a.duplicates, b.duplicates);
  }

  /** Re-merging the same grid leaves the file exactly as it was: lists, statuses and representatives included. */
  lemma MergeAgain(file: Grid, mine: Grid)
    ensures MergeGrid(MergeGrid(file, mine), mine) == MergeGrid(file, mine)
  {
    forall k | k in mine
      ensures MergeGrid(MergeGrid(file, mine), mine)[k] == MergeGrid(file, mine)[k]
    {
      MergeCellAgain(if k in file then file[k] else mine[k], mine[k]);
    }
  }

  // ---- The patch status is last-writer-wins ----

  function Status(c: Cell): (string, string) { (c.status, c.closedVersion) }

  /** Two merges leave the same patch status in either order exactly when one carries none or both carry the same. */
  lemma StatusCommutesIff(file: Cell, a: Cell, b: Cell)
    ensures Status(MergeCell(MergeCell(file, a), b)) == Status(MergeCell(MergeCell(file, b), a)) <==>
      a.status == "" || b.status == "" || Status(a) == Status(b)
  {
  }

  // ---- Cell keys ----

  const SEP := '\U{1f}'

  /** `archive_key`: the separator is refused inside a rule or a shape part. */
  function ArchiveKey(rule: string, shape: seq<string>): Option<string> {
    if SEP in rule || exists i :: 0 <= i < |shape| && SEP in shape[i] then None
    else Some(rule + [SEP] + Text.Join(shape, SEP))
  }

  /** The empty shape and the shape of one empty part are written alike. */
  function Written(shape: seq<string>): seq<string> { if shape == [] then [""] else shape }

  /** Two cells share a key exactly when their rules agree and their shapes are written alike. */
  lemma ArchiveKeyInjectiveIff(rule: string, shape: seq<string>, rule': string, shape': seq<string>)
    requires ArchiveKey(rule, shape).Some? && ArchiveKey(rule', shape').Some?
    ensures ArchiveKey(rule, shape) == ArchiveKey(rule', shape') <==> rule == rule' && Written(shape) == Written(shape')
  {
    KeyIsJoin(rule, shape);
    KeyIsJoin(rule', shape');
    if ArchiveKey(rule, shape) == ArchiveKey(rule', shape') {
      JoinInjective([rule] + Written(shape), [rule'] + Written(shape'), SEP);
      assert ([rule] + Written(shape))[1..] == Written(shape) && ([rule'] + Written(shape'))[1..] == Written(shape');
      assert rule == ([rule] + Written(shape))[0];
    }
  }

  lemma KeyIsJoin(rule: string, shape: seq<string>)
    requires ArchiveKey(rule, shape).Some?
    ensures ArchiveKey(rule, shape).value == Text.Join([rule] + Written(shape), SEP)
    ensures Free([rule] + Written(shape), SEP)
  {
    var parts := [rule] + Written(shape);
    assert parts[1..] == Written(shape);
    assert Text.Join(Written(shape), SEP) == Text.Join(shape, SEP);
    forall p | p in parts ensures SEP !in p {
      if p != rule && p in shape { var i :| 0 <= i < |shape| && shape[i] == p; }
    }
  }

  // ---- Occupancy ----

  /** `verified_count`. */
  function VerifiedCount(observations: seq<Obs>, version: string): nat {
    if observations == [] then 0
    else
      var n := |observations| - 1;
      VerifiedCount(observations[..n], version) + (if observations[n].key.version == version then 1 else 0)
  }

  lemma {:induction false} VerifiedCountGrows(a: seq<Obs>, b: seq<Obs>, version: string)
    ensures VerifiedCount(a, version) <= VerifiedCount(a + b, version)
  {
    if b == [] {
      assert a + b == a;
    } else {
      assert (a + b)[..|a + b| - 1] == a + b[..|b| - 1];
      VerifiedCountGrows(a, b[..|b| - 1], version);
    }
  }

  /** `is_closed`: verified by a patch, or filled up at this version. */
  predicate IsClosed(g: Grid, cell: string, version: string, saturation: nat) {
    cell in g && (g[cell].status == "verified" || Saturated(g, cell, version, saturation))
  }

  predicate Saturated(g: Grid, cell: string, version: string, saturation: nat) {
    cell in g && VerifiedCount(g[cell].observations, version) >= saturation
  }

  // ---- The protocol ----

  function ObserveIn(g: Grid, cell: string, diff: string, o: Obs, degraded: bool): Grid {
    var c := if cell in g then g[cell].(degraded := g[cell].degraded && degraded) else EMPTY.(degraded := degraded);
    g[cell := c.(observations := c.observations + [o],
                 representative := if BetterRep(diff, c.representative) then diff else c.representative)]
  }

  function NoteDuplicateIn(g: Grid, cell: string, version: string): Grid {
    var c := if cell in g then g[cell] else EMPTY;
    g[cell := c.(duplicates := c.duplicates[version := Count(c.duplicates, version) + 1])]
  }

  function SetStatusIn(g: Grid, cell: string, status: string, version: string, create: bool): Grid {
    if cell !in g && !create then g
    else
      var c := if cell in g then g[cell] else EMPTY;
      g[cell := c.(status := status, closedVersion := if status == "verified" then version else "")]
  }

  /** The shared file, the grids the workers hold in memory, and the keys of every merge that has completed. */
  datatype State = State(file: Option<Grid>, workers: map<nat, Grid>, completed: set<(string, ObsKey)>)

  /** A merge is one step: the lock and the atomic replace make it so. A crash is a worker gone before its replace. */
  datatype Event =
    | Load(w: nat)
    | Observe(w: nat, cell: string, diff: string, o: Obs, degraded: bool)
    | NoteDuplicate(w: nat, cell: string, version: string)
    | SetStatus(w: nat, cell: string, status: string, version: string, create: bool)
    | MergeInto(w: nat)
    | Crash(w: nat)

  function FileGrid(s: State): Grid { if s.file.Some? then s.file.value else map[] }

  ghost function GridKeys(g: Grid): set<(string, ObsKey)> {
    set k, o | k in g && o in g[k].observations :: (k, o.key)
  }

  ghost function Step(s: State, e: Event): State {
    if e.Load? then s.(workers := s.workers[e.w := FileGrid(s)])
    else if e.w !in s.workers then s
    else
      var g := s.workers[e.w];
      match e
      case Observe(w, cell, diff, o, degraded) => s.(workers := s.workers[w := ObserveIn(g, cell, diff, o, degraded)])
      case NoteDuplicate(w, cell, version) => s.(workers := s.workers[w := NoteDuplicateIn(g, cell, version)])
      case SetStatus(w, cell, status, version, create) =>
        s.(workers := s.workers[w := SetStatusIn(g, cell, status, version, create)])
      case MergeInto(w) => s.(file := Some(MergeGrid(FileGrid(s), g)), completed := s.completed + GridKeys(g))
      case Crash(w) => s.(workers := s.workers - {w})
  }

  ghost function Run(s: State, events: seq<Event>): State {
    if events == [] then s else Step(Run(s, events[..|events| - 1]), events[|events| - 1])
  }

  lemma KeysOfCell(g: Grid, k: string, key: ObsKey)
    ensures (k, key) in GridKeys(g) <==> k in g && key in Seen(g[k].observations)
  {
  }

  /** A merge leaves the keys of both sides, and no others. */
  lemma MergeKeys(f: Grid, g: Grid)
    ensures GridKeys(MergeGrid(f, g)) == GridKeys(f) + GridKeys(g)
  {
    var m := MergeGrid(f, g);
    forall k, key ensures (k, key) in GridKeys(m) <==> (k, key) in GridKeys(f) + GridKeys(g) {
      KeysOfCell(m, k, key);
      KeysOfCell(f, k, key);
      KeysOfCell(g, k, key);
      if k in f && k in g { MergeJoins(f[k], g[k]); }
    }
  }

  /** After any run the file holds exactly the observation keys it began with and those of every completed merge. */
  lemma {:induction false} NothingLost(s: State, events: seq<Event>)
    requires s.completed == GridKeys(FileGrid(s))
    ensures Run(s, events).completed == GridKeys(FileGrid(Run(s, events)))
  {
    if events != [] {
      var n := |events| - 1;
      NothingLost(s, events[..n]);
      var p := Run(s, events[..n]);
      if events[n].MergeInto? && events[n].w in p.workers {
        MergeKeys(FileGrid(p), p.workers[events[n].w]);
      }
    }
  }

  /** A cell the file has closed by saturation is closed after any run. */
  lemma {:induction false} SaturatedStaysClosed(s: State, events: seq<Event>, cell: string, version: string, saturation: nat)
    requires Saturated(FileGrid(s), cell, version, saturation)
    ensures Saturated(FileGrid(Run(s, events)), cell, version, saturation)
    ensures IsClosed(FileGrid(Run(s, events)), cell, version, saturation)
  {
    if events != [] {
      var n := |events| - 1;
      SaturatedStaysClosed(s, events[..n], cell, version, saturation);
      var p := Run(s, events[..n]);
      if events[n].MergeInto? && events[n].w in p.workers {
        var f, g := FileGrid(p), p.workers[events[n].w];
        if cell in g {
          VerifiedCountGrows(f[cell].observations, Fresh(g[cell].observations, Seen(f[cell].observations)), version);
        }
      }
    }
  }

  /** A cell closed only by a verified patch can be reopened by the next merge. */
  lemma VerifiedCanReopen(file: Grid, cell: string, version: string, saturation: nat)
    requires IsClosed(file, cell, version, saturation)
    ensures (forall mine: Grid :: IsClosed(MergeGrid(file, mine), cell, version, saturation)) <==>
      Saturated(file, cell, version, saturation)
  {
    if Saturated(file, cell, version, saturation) {
      forall mine: Grid ensures IsClosed(MergeGrid(file, mine), cell, version, saturation) {
        if cell in mine {
          VerifiedCountGrows(file[cell].observations, Fresh(mine[cell].observations, Seen(file[cell].observations)), version);
        }
      }
    } else {
      var mine: Grid := map[cell := EMPTY.(status := "regression")];
      assert MergeGrid(file, mine)[cell].observations == file[cell].observations;
      assert !IsClosed(MergeGrid(file, mine), cell, version, saturation);
    }
  }

  // ---- The archive object ----

  /** The file on disk: what was saved is what the next load reads. */
  class ArchiveFile {
    var content: Option<Grid>
    constructor () ensures content.None? { content := None; }

    function Stored(): Grid
      reads this
    {
      if content.Some? then content.value else map[]
    }
  }

  class GridObject {
    var cells: Grid

    constructor ()
      ensures cells == map[]
    {
      cells := map[];
    }

    /** `observe`: a new cell, or one more observation and perhaps a smaller face for an old one. */
    method Observe(cell: string, diff: string, o: Obs, degraded: bool)
      modifies this
      ensures cells == ObserveIn(old(cells), cell, diff, o, degraded)
    {
      var entry := new CellEntry(if cell in cells then cells[cell] else EMPTY.(degraded := degraded));
      if cell in cells {
        entry.degraded := entry.degraded && degraded;
      }
      entry.observations := entry.observations + [o];
      if BetterRep(diff, entry.representative) {
        entry.representative := diff;
      }
      cells := cells[cell := entry.Value()];
    }

    /** One turn of the merge loop: fold a cell into the one under its key, or take it over. */
    method Fold(k: string, cell: Cell)
      modifies this
      ensures cells == old(cells)[k := if k in old(cells) then MergeCell(old(cells)[k], cell) else cell]
    {
      if k in cells {
        var existing := new CellEntry(cells[k]);
        var entry := new CellEntry(cell);
        existing.Merge(entry);
        cells := cells[k := existing.Value()];
      } else {
        cells := cells[k := cell];
      }
    }

    /** `merge_into`: load the file, fold every cell of this grid in, and replace the file; `order` is how the cells iterate. */
    method MergeInto(file: ArchiveFile, order: seq<string>) returns (base: GridObject)
      requires Lists(order, cells)
      modifies file
      ensures file.content == Some(MergeGrid(old(file.Stored()), cells)) && base.cells == file.Stored()
    {
      base := new GridObject();
      base.cells := file.Stored();
      for i := 0 to |order|
        invariant file.content == old(file.content) && fresh(base) && base.cells == MergeListed(file.Stored(), cells, order[..i])
      {
        assert order[..i + 1][..i] == order[..i] && order[i] in order;
        base.Fold(order[i], cells[order[i]]);
      }
      assert order[..|order|] == order;
      MergeListedIsMerge(file.Stored(), cells, order);
      file.content := Some(base.cells);
    }
  }

  /** `order` names each cell of `g` once. */
  ghost predicate Lists(order: seq<string>, g: Grid) {
    && (forall k :: k in order <==> k in g)
    && forall i, j :: 0 <= i < j < |order| ==> order[i] != order[j]
  }

  /** The file's grid with the listed cells of `mine` folded in, one after the other. */
  function MergeListed(file: Grid, mine: Grid, keys: seq<string>): Grid
    requires forall k :: k in keys ==> k in mine
  {
    if keys == [] then file
    else
      var k, m := keys[|keys| - 1], MergeListed(file, mine, keys[..|keys| - 1]);
      m[k := if k in m then MergeCell(m[k], mine[k]) else mine[k]]
  }

  lemma {:induction false} MergeListedAt(file: Grid, mine: Grid, keys: seq<string>, k: string)
    requires forall j :: j in keys ==> j in mine
    requires forall i, j :: 0 <= i < j < |keys| ==> keys[i] != keys[j]
    ensures
      var m := MergeListed(file, mine, keys);
      && (k in m <==> k in file || k in keys)
      && (k in m ==>
            m[k] == if k in file && k in keys then MergeCell(file[k], mine[k]) else if k in file then file[k] else mine[k])
  {
    if keys != [] {
      var n := |keys| - 1;
      MergeListedAt(file, mine, keys[..n], k);
      assert k in keys <==> k in keys[..n] || k == keys[n];
    }
  }

  lemma MergeListedIsMerge(file: Grid, mine: Grid, keys: seq<string>)
    requires Lists(keys, mine)
    ensures MergeListed(file, mine, keys) == MergeGrid(file, mine)
  {
    var l, r := MergeListed(file, mine, keys), MergeGrid(file, mine);
    forall k ensures (k in l <==> k in r) && (k in l ==> l[k] == r[k]) {
      MergeListedAt(file, mine, keys, k);
    }
  }
}
