/** `harness/archive.py`: what a merged cell holds in terms of the cells that went into it, and what each update does. */
module ArchiveMeaning {
  import opened Text
  import opened Archive
  import opened ArchiveProtocol
  import opened Options

  // ---- Two cells ----

  predicate HasKey(c: Cell, key: ObsKey) { exists o :: o in c.observations && o.key == key }

  function Lines(s: string): nat { |Split(s, '\n')| }

  lemma HasKeyIsSeen(c: Cell, key: ObsKey)
    ensures HasKey(c, key) <==> key in Seen(c.observations)
  {
  }

  /** Folding `b` into `a`, field by field. */
  lemma MergeCellIs(a: Cell, b: Cell)
    ensures
      var m := MergeCell(a, b);
      && (m.degraded <==> a.degraded && b.degraded)
      && (forall key :: HasKey(m, key) <==> HasKey(a, key) || HasKey(b, key))
      && (forall v :: Count(m.duplicates, v) >= Count(a.duplicates, v) && Count(m.duplicates, v) >= Count(b.duplicates, v))
      && (forall v :: Count(m.duplicates, v) == Count(a.duplicates, v) || Count(m.duplicates, v) == Count(b.duplicates, v))
      && (m.representative ==
            if b.representative != "" && (a.representative == "" || Lines(b.representative) < Lines(a.representative))
            then b.representative else a.representative)
      && (b.status != "" ==> m.status == b.status && m.closedVersion == b.closedVersion)
      && (b.status == "" ==> m.status == a.status && m.closedVersion == a.closedVersion)
      && a.observations <= m.observations
  {
    var m := MergeCell(a, b);
    MergeJoins(a, b);
    forall key ensures HasKey(m, key) <==> HasKey(a, key) || HasKey(b, key) {
      HasKeyIsSeen(a, key);
      HasKeyIsSeen(b, key);
      HasKeyIsSeen(m, key);
    }
    forall v ensures Count(m.duplicates, v) == MaxNat(Count(a.duplicates, v), Count(b.duplicates, v)) {
      MaximaAt(a.duplicates, b.duplicates, v);
    }
  }

  // ---- Any number of grids ----

  /** The cell `c` went into the merge under `k`: from the file, or from the grid number `i`. */
  ghost predicate WentIn(file: Grid, grids: seq<Grid>, k: string, c: Cell) {
    (k in file && c == file[k]) || exists i :: 0 <= i < |grids| && k in grids[i] && c == grids[i][k]
  }

  lemma WentInLast(file: Grid, grids: seq<Grid>, k: string, c: Cell)
    requires grids != []
    ensures
      var n := |grids| - 1;
      WentIn(file, grids, k, c) <==> WentIn(file, grids[..n], k, c) || (k in grids[n] && c == grids[n][k])
  {
    var n := |grids| - 1;
    if i :| 0 <= i < |grids| && k in grids[i] && c == grids[i][k] && i < n { assert grids[..n][i] == grids[i]; }
    if i :| 0 <= i < n && k in grids[..n][i] && c == grids[..n][i][k] { assert grids[i] == grids[..n][i]; }
  }

  /** What `m` has to be of the cells that went in. */
  ghost predicate Merged(file: Grid, grids: seq<Grid>, k: string, m: Cell) {
    && (m.degraded <==> forall c :: WentIn(file, grids, k, c) ==> c.degraded)
    && KeysOf(file, grids, k, m) && Greatest(file, grids, k, m) && Smallest(file, grids, k, m)
  }

  /** Every observation that went in, and no other. */
  ghost predicate KeysOf(file: Grid, grids: seq<Grid>, k: string, m: Cell) {
    forall key :: HasKey(m, key) <==> exists c :: WentIn(file, grids, k, c) && HasKey(c, key)
  }

  /** For every version the greatest count that went in. */
  ghost predicate Greatest(file: Grid, grids: seq<Grid>, k: string, m: Cell) {
    && (forall v, c :: WentIn(file, grids, k, c) ==> Count(m.duplicates, v) >= Count(c.duplicates, v))
    && (forall v :: Attained(file, grids, k, v, Count(m.duplicates, v)))
  }

  ghost predicate Attained(file: Grid, grids: seq<Grid>, k: string, v: string, n: nat) {
    exists c :: WentIn(file, grids, k, c) && Count(c.duplicates, v) == n
  }

  /** A representative that went in, with no more lines than any other. */
  ghost predicate Smallest(file: Grid, grids: seq<Grid>, k: string, m: Cell) {
    && (exists c :: WentIn(file, grids, k, c) && m.representative == c.representative)
    && (forall c :: WentIn(file, grids, k, c) && c.representative != "" ==>
          m.representative != "" && Lines(m.representative) <= Lines(c.representative))
  }

  lemma OneWentIn(file: Grid, grids: seq<Grid>, k: string, m: Cell)
    requires forall c :: WentIn(file, grids, k, c) <==> c == m
    ensures Merged(file, grids, k, m)
  {
    assert WentIn(file, grids, k, m);
  }

  /** `b` went in besides the others. */
  ghost predicate Adds(file: Grid, grids: seq<Grid>, front: seq<Grid>, k: string, b: Cell) {
    forall c :: WentIn(file, grids, k, c) <==> WentIn(file, front, k, c) || c == b
  }

  lemma KeysAdd(file: Grid, grids: seq<Grid>, front: seq<Grid>, k: string, a: Cell, b: Cell)
    requires Adds(file, grids, front, k, b) && KeysOf(file, front, k, a)
    ensures KeysOf(file, grids, k, MergeCell(a, b))
  {
    hide WentIn, HasKey, MergeCell;
    MergeCellIs(a, b);
    var m := MergeCell(a, b);
    assert WentIn(file, grids, k, b);
    forall key ensures HasKey(m, key) <==> exists c :: WentIn(file, grids, k, c) && HasKey(c, key) {
      if HasKey(a, key) {
        var c :| WentIn(file, front, k, c) && HasKey(c, key);
        assert WentIn(file, grids, k, c);
      }
    }
  }

  lemma GreatestAdds(file: Grid, grids: seq<Grid>, front: seq<Grid>, k: string, a: Cell, b: Cell)
    requires Adds(file, grids, front, k, b) && Greatest(file, front, k, a)
    ensures Greatest(file, grids, k, MergeCell(a, b))
  {
    hide WentIn, Count, MergeCell;
    MergeCellIs(a, b);
    var m := MergeCell(a, b);
    assert WentIn(file, grids, k, b);
    forall v ensures Attained(file, grids, k, v, Count(m.duplicates, v)) {
      assert Attained(file, front, k, v, Count(a.duplicates, v));
      var c :| WentIn(file, front, k, c) && Count(c.duplicates, v) == Count(a.duplicates, v);
      assert WentIn(file, grids, k, c);
    }
  }

  lemma SmallestAdds(file: Grid, grids: seq<Grid>, front: seq<Grid>, k: string, a: Cell, b: Cell)
    requires Adds(file, grids, front, k, b) && Smallest(file, front, k, a)
    ensures Smallest(file, grids, k, MergeCell(a, b))
  {
    hide WentIn, Lines, MergeCell;
    MergeCellIs(a, b);
    assert WentIn(file, grids, k, b);
    var c :| WentIn(file, front, k, c) && a.representative == c.representative;
    assert WentIn(file, grids, k, c);
  }

  lemma OneMoreWentIn(file: Grid, grids: seq<Grid>, k: string, a: Cell)
    requires grids != [] && k in grids[|grids| - 1] && Merged(file, grids[..|grids| - 1], k, a)
    ensures Merged(file, grids, k, MergeCell(a, grids[|grids| - 1][k]))
  {
    var n := |grids| - 1;
    var front, b := grids[..n], grids[n][k];
    assert Adds(file, grids, front, k, b) by {
      forall c ensures WentIn(file, grids, k, c) <==> WentIn(file, front, k, c) || c == b { WentInLast(file, grids, k, c); }
    }
    hide WentIn, KeysOf, Greatest, Smallest;
    MergeCellIs(a, b);
    KeysAdd(file, grids, front, k, a, b);
    GreatestAdds(file, grids, front, k, a, b);
    SmallestAdds(file, grids, front, k, a, b);
  }

  /**
   * Whatever grids are merged into a file, a cell is there exactly when it went in, and holds every observation that went
   * in and no other, the greatest count of every version, the smallest representative, and the degraded mark exactly when
   * every cell that went in was degraded.
   */
  lemma {:induction false} MergedCellIs(file: Grid, grids: seq<Grid>, k: string)
    ensures k in MergeAll(file, grids) <==> exists c :: WentIn(file, grids, k, c)
    ensures k in MergeAll(file, grids) ==> Merged(file, grids, k, MergeAll(file, grids)[k])
  {
    hide Merged;
    if grids == [] {
      if k in file {
        assert WentIn(file, grids, k, file[k]);
        OneWentIn(file, grids, k, file[k]);
      }
    } else {
      var n := |grids| - 1;
      var front := grids[..n];
      MergedCellIs(file, front, k);
      forall c ensures WentIn(file, grids, k, c) <==> WentIn(file, front, k, c) || (k in grids[n] && c == grids[n][k]) {
        WentInLast(file, grids, k, c);
      }
      if k in grids[n] {
        assert WentIn(file, grids, k, grids[n][k]);
        if k in MergeAll(file, front) {
          OneMoreWentIn(file, grids, k, MergeAll(file, front)[k]);
        } else {
          OneWentIn(file, grids, k, grids[n][k]);
        }
      } else if k in MergeAll(file, front) {
        var c :| WentIn(file, front, k, c);
        assert WentIn(file, grids, k, c);
        SameWentIn(file, grids, front, k, MergeAll(file, front)[k]);
      }
    }
  }

  lemma SameWentIn(file: Grid, grids: seq<Grid>, front: seq<Grid>, k: string, m: Cell)
    requires Merged(file, front, k, m) && forall c :: WentIn(file, grids, k, c) <==> WentIn(file, front, k, c)
    ensures Merged(file, grids, k, m)
  {
    hide Count, HasKey, Lines, WentIn;
    forall v ensures exists c :: WentIn(file, grids, k, c) && Count(m.duplicates, v) == Count(c.duplicates, v) {
      var c :| WentIn(file, front, k, c) && Count(m.duplicates, v) == Count(c.duplicates, v);
      assert WentIn(file, grids, k, c);
    }
    forall key ensures HasKey(m, key) <==> exists c :: WentIn(file, grids, k, c) && HasKey(c, key) {
    }
  }

  /** The patch status is that of the last grid that has one for the cell. */
  lemma {:induction false} StatusIsLast(file: Grid, grids: seq<Grid>, k: string, i: nat)
    requires i < |grids| && k in grids[i] && grids[i][k].status != ""
    requires forall l :: i < l < |grids| && k in grids[l] ==> grids[l][k].status == ""
    ensures k in MergeAll(file, grids)
    ensures MergeAll(file, grids)[k].status == grids[i][k].status && MergeAll(file, grids)[k].closedVersion == grids[i][k].closedVersion
  {
    var n := |grids| - 1;
    var front := grids[..n];
    if i < n { StatusIsLast(file, front, k, i); }
    if k in grids[n] && k in MergeAll(file, front) { MergeCellIs(MergeAll(file, front)[k], grids[n][k]); }
  }

  // ---- The updates ----

  /** The cell before an update: what is there, or a new one. */
  function Before(g: Grid, cell: string): Cell { if cell in g then g[cell] else EMPTY }

  /** Everything but one cell is as it was. */
  predicate OnlyAt(g: Grid, now: Grid, cell: string) {
    && cell in now && (forall k :: k in g ==> k in now && (k != cell ==> now[k] == g[k])) && forall k :: k in now ==> k in g || k == cell
  }

  /** One more observation: degraded only while all have been, and a smaller diff becomes the face of the cell. */
  lemma ObserveIs(g: Grid, cell: string, diff: string, o: Obs, degraded: bool)
    ensures
      var (now, was) := (ObserveIn(g, cell, diff, o, degraded), Before(g, cell));
      && OnlyAt(g, now, cell) && now[cell].observations == was.observations + [o]
      && (now[cell].degraded <==> degraded && (cell in g ==> was.degraded))
      && now[cell].duplicates == was.duplicates && now[cell].status == was.status && now[cell].closedVersion == was.closedVersion
      && (now[cell].representative ==
            if diff != "" && (was.representative == "" || Lines(diff) < Lines(was.representative)) then diff
            else was.representative)
  {
  }

  lemma NoteIs(g: Grid, cell: string, version: string)
    ensures
      var (now, was) := (NoteDuplicateIn(g, cell, version), Before(g, cell));
      && OnlyAt(g, now, cell) && now[cell] == was.(duplicates := now[cell].duplicates)
      && forall v :: Count(now[cell].duplicates, v) == Count(was.duplicates, v) + (if v == version then 1 else 0)
  {
  }

  lemma SetStatusIs(g: Grid, cell: string, status: string, version: string, create: bool)
    ensures
      var (now, was) := (SetStatusIn(g, cell, status, version, create), Before(g, cell));
      && (cell !in g && !create ==> now == g)
      && (cell in g || create ==>
            && OnlyAt(g, now, cell) && now[cell] == was.(status := status, closedVersion := now[cell].closedVersion)
            && now[cell].closedVersion == if status == "verified" then version else "")
  {
  }

  // ---- Occupancy ----

  /** The positions of the observations made at a version. */
  function At(observations: seq<Obs>, version: string): set<int> {
    set i | 0 <= i < |observations| && observations[i].key.version == version
  }

  lemma {:induction false} VerifiedCountIs(observations: seq<Obs>, version: string)
    ensures VerifiedCount(observations, version) == |At(observations, version)|
  {
    if observations != [] {
      var n := |observations| - 1;
      var front := observations[..n];
      VerifiedCountIs(front, version);
      var more: set<int> := if observations[n].key.version == version then {n} else {};
      forall i ensures i in At(observations, version) <==> i in At(front, version) + more {
        if 0 <= i < n { assert front[i] == observations[i]; }
      }
      assert At(observations, version) == At(front, version) + more;
    }
  }

  /** A cell is closed exactly when a patch has been verified or its bypasses at this version are enough. */
  lemma ClosedIff(g: Grid, cell: string, version: string, saturation: nat)
    ensures IsClosed(g, cell, version, saturation) <==>
      cell in g && (g[cell].status == "verified" || |At(g[cell].observations, version)| >= saturation)
  {
    if cell in g { VerifiedCountIs(g[cell].observations, version); }
  }

  // ---- From a worker to the file ----

  /** Worker `w` neither loads anew nor dies between two events. */
  predicate Stays(events: seq<Event>, w: nat, j: nat, m: nat) {
    forall i :: j < i < m && i < |events| ==> events[i] != Load(w) && events[i] != Crash(w)
  }

  lemma RunStep(s: State, events: seq<Event>, i: nat)
    requires i < |events|
    ensures Run(s, events[..i + 1]) == Step(Run(s, events[..i]), events[i])
  {
    assert events[..i + 1][..i] == events[..i];
  }

  ghost predicate Has(g: Grid, cell: string, key: ObsKey) { cell in g && HasKey(g[cell], key) }

  /** No event but its own load or crash takes an observation from a worker. */
  lemma StepHas(s: State, e: Event, w: nat, cell: string, key: ObsKey)
    requires w in s.workers && Has(s.workers[w], cell, key) && e != Load(w) && e != Crash(w)
    ensures w in Step(s, e).workers && Has(Step(s, e).workers[w], cell, key)
  {
    var g := s.workers[w];
    var o :| o in g[cell].observations && o.key == key;
    match e
    case Observe(v, c, diff, p, degraded) =>
      if v == w { assert o in ObserveIn(g, c, diff, p, degraded)[cell].observations; }
    case NoteDuplicate(v, c, version) =>
      if v == w { assert o in NoteDuplicateIn(g, c, version)[cell].observations; }
    case SetStatus(v, c, status, version, create) =>
      if v == w { assert o in SetStatusIn(g, c, status, version, create)[cell].observations; }
    case _ =>
  }

  lemma {:induction false} WorkerHolds(s: State, events: seq<Event>, j: nat, m: nat)
    requires j < m <= |events| && events[j].Observe? && events[j].w in Run(s, events[..j]).workers
    requires Stays(events, events[j].w, j, m)
    ensures
      var (e, now) := (events[j], Run(s, events[..m]));
      e.w in now.workers && Has(now.workers[e.w], e.cell, e.o.key)
    decreases m
  {
    var e := events[j];
    RunStep(s, events, m - 1);
    if m == j + 1 {
      var g := Run(s, events[..j]).workers[e.w];
      var now := ObserveIn(g, e.cell, e.diff, e.o, e.degraded);
      assert now[e.cell].observations[|now[e.cell].observations| - 1] == e.o;
      assert Has(now, e.cell, e.o.key);
    } else {
      WorkerHolds(s, events, j, m - 1);
      StepHas(Run(s, events[..m - 1]), events[m - 1], e.w, e.cell, e.o.key);
    }
  }

  lemma MergeHas(f: Grid, g: Grid, cell: string, key: ObsKey)
    requires Has(f, cell, key) || Has(g, cell, key)
    ensures Has(MergeGrid(f, g), cell, key)
  {
    if cell in f && cell in g { MergeCellIs(f[cell], g[cell]); }
  }

  /** An observation a worker makes and then merges is in the file after every run, whatever the other workers do. */
  lemma {:induction false} ObservationReachesFile(s: State, events: seq<Event>, j: nat, m: nat)
    requires j < m < |events| && events[j].Observe? && events[m] == MergeInto(events[j].w)
    requires events[j].w in Run(s, events[..j]).workers && Stays(events, events[j].w, j, m)
    ensures Has(FileGrid(Run(s, events)), events[j].cell, events[j].o.key)
    decreases |events|
  {
    var n, e := |events| - 1, events[j];
    RunStep(s, events, n);
    assert events[..n + 1] == events;
    var p := Run(s, events[..n]);
    if m == n {
      WorkerHolds(s, events, j, m);
      MergeHas(FileGrid(p), p.workers[e.w], e.cell, e.o.key);
    } else {
      assert events[..n][..j] == events[..j] && events[..n][j] == e && events[..n][m] == events[m];
      ObservationReachesFile(s, events[..n], j, m);
      if events[n].MergeInto? && events[n].w in p.workers {
        MergeHas(FileGrid(p), p.workers[events[n].w], e.cell, e.o.key);
      }
    }
  }
}
