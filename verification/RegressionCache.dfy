/** `harness/regression_cache.py`, `RegressionCache`: an append-only file of results, the last entry for a key winning. */
module RegressionCache {
  import opened Options

  datatype State = Open | Closed | Degraded | Inconclusive | Unreplayable

  /** Which bypass a result belongs to, and the rules it was checked against. */
  datatype Ref = Ref(diffHash: string, campaign: string, version: string, rules: seq<string>)
  datatype Result = Result(ref: Ref, state: State, body: string)

  const MAX_CACHE_BYTES: nat := 8 * 1024 * 1024

  /** The JSON line of an entry, and what a line says; `None` for a line that is no entry. */
  datatype Codec = Codec(encode: (string, Result) -> string, decode: string -> Option<(string, Result)>)

  ghost predicate RoundTrips(c: Codec) { forall k, r :: c.decode(c.encode(k, r)) == Some((k, r)) }

  // ---- Dictionaries in insertion order ----

  type Dict = seq<(string, Result)>

  predicate KeysDistinct(d: Dict) { forall i, j :: 0 <= i < j < |d| ==> d[i].0 != d[j].0 }

  function Set(d: Dict, k: string, r: Result): Dict {
    if d == [] then [(k, r)]
    else if d[0].0 == k then [(k, r)] + d[1..]
    else [d[0]] + Set(d[1..], k, r)
  }

  function Lookup(d: Dict, k: string): Option<Result> {
    if d == [] then None
    else if d[0].0 == k then Some(d[0].1)
    else Lookup(d[1..], k)
  }

  lemma {:induction false} SetLookup(d: Dict, k: string, r: Result, q: string)
    ensures Lookup(Set(d, k, r), q) == if q == k then Some(r) else Lookup(d, q)
  {
    if d != [] {
      SetLookup(d[1..], k, r, q);
      if d[0].0 == k {
        assert Set(d, k, r)[1..] == d[1..];
      } else {
        assert Set(d, k, r)[1..] == Set(d[1..], k, r);
      }
    }
  }

  lemma {:induction false} SetKeys(d: Dict, k: string, r: Result)
    requires KeysDistinct(d)
    ensures KeysDistinct(Set(d, k, r))
    ensures forall e :: e in Set(d, k, r) ==> e == (k, r) || (e in d && e.0 != k)
  {
    if d != [] && d[0].0 != k {
      SetKeys(d[1..], k, r);
      var rest := Set(d[1..], k, r);
      forall j | 0 <= j < |rest| ensures rest[j].0 != d[0].0 {
        assert rest[j] in rest;
        if rest[j] != (k, r) {
          var i :| 0 <= i < |d| - 1 && d[1..][i] == rest[j];
          assert d[i + 1] == rest[j];
        }
      }
    } else if d != [] {
      forall e | e in d[1..] ensures e in d && e.0 != k {
        var i :| 0 <= i < |d| - 1 && d[1..][i] == e;
        assert d[i + 1] == e;
      }
    }
  }

  // ---- Files ----

  function Take(d: Dict, line: string, c: Codec): Dict {
    match c.decode(line)
    case None => d
    case Some((k, r)) => Set(d, k, r)
  }

  /** The entries of a file, line after line. */
  function Loaded(lines: seq<string>, c: Codec): Dict {
    if lines == [] then [] else Take(Loaded(lines[..|lines| - 1], c), lines[|lines| - 1], c)
  }

  /** The compacted file. */
  function Lines(d: Dict, c: Codec): seq<string> {
    if d == [] then [] else [c.encode(d[0].0, d[0].1)] + Lines(d[1..], c)
  }

  /** Bytes on disk, a line break behind every line. */
  function Size(lines: seq<string>): nat {
    if lines == [] then 0 else Size(lines[..|lines| - 1]) + |lines[|lines| - 1]| + 1
  }

  lemma LoadedAppend(lines: seq<string>, line: string, c: Codec)
    ensures Loaded(lines + [line], c) == Take(Loaded(lines, c), line, c)
    ensures Size(lines + [line]) == Size(lines) + |line| + 1
  {
    assert (lines + [line])[..|lines|] == lines;
  }

  lemma {:induction false} LoadedDistinct(lines: seq<string>, c: Codec)
    ensures KeysDistinct(Loaded(lines, c))
  {
    if lines != [] {
      var front, last := lines[..|lines| - 1], lines[|lines| - 1];
      LoadedDistinct(front, c);
      match c.decode(last)
      case None =>
      case Some((k, r)) => SetKeys(Loaded(front, c), k, r);
    }
  }

  /** The last line for a key wins, whatever other lines the file holds. */
  lemma {:induction false} LastWins(lines: seq<string>, c: Codec, k: string, r: Result)
    ensures Lookup(Loaded(lines, c), k) == Some(r) <==> LastSays(lines, c, k, r)
  {
    if lines != [] {
      var n := |lines| - 1;
      var front, last := lines[..n], lines[n];
      LastWins(front, c, k, r);
      var d := c.decode(last);
      if d.Some? { SetLookup(Loaded(front, c), d.value.0, d.value.1, k); }
      if d.Some? && d.value.0 == k {
        assert IsLast(lines, c, k, n);
      } else {
        if i :| 0 <= i < n && IsLast(front, c, k, i) && c.decode(front[i]) == Some((k, r)) {
          assert IsLast(lines, c, k, i);
        }
        if i :| 0 <= i < |lines| && IsLast(lines, c, k, i) && c.decode(lines[i]) == Some((k, r)) {
          assert i < n;
          LastInFront(lines, c, k, i);
        }
      }
    }
  }

  predicate IsLast(lines: seq<string>, c: Codec, k: string, i: nat)
    requires i < |lines|
  {
    HasKey(lines[i], c, k) && forall j :: i < j < |lines| ==> !HasKey(lines[j], c, k)
  }

  /** The last line for `k` holds `r`. */
  predicate LastSays(lines: seq<string>, c: Codec, k: string, r: Result) {
    exists i :: 0 <= i < |lines| && IsLast(lines, c, k, i) && c.decode(lines[i]) == Some((k, r))
  }

  predicate HasKey(line: string, c: Codec, k: string) { c.decode(line).Some? && c.decode(line).value.0 == k }

  lemma LastInFront(lines: seq<string>, c: Codec, k: string, i: nat)
    requires i < |lines| - 1 && IsLast(lines, c, k, i)
    ensures IsLast(lines[..|lines| - 1], c, k, i)
  {
    var front := lines[..|lines| - 1];
    forall j | i < j < |front| ensures !HasKey(front[j], c, k) {
      assert front[j] == lines[j];
    }
  }

  lemma {:induction false} SetFresh(d: Dict, k: string, r: Result)
    requires forall e :: e in d ==> e.0 != k
    ensures Set(d, k, r) == d + [(k, r)]
  {
    if d != [] {
      assert d[0] in d;
      SetFresh(d[1..], k, r);
    }
  }

  lemma {:induction false} LinesAppend(d: Dict, e: (string, Result), c: Codec)
    ensures Lines(d + [e], c) == Lines(d, c) + [c.encode(e.0, e.1)]
  {
    if d == [] {
      assert (d + [e])[1..] == [];
    } else {
      LinesAppend(d[1..], e, c);
      assert (d + [e])[1..] == d[1..] + [e];
    }
  }

  /** Compacting and loading again gives the same entries in the same order. */
  lemma {:induction false} CompactLoads(d: Dict, c: Codec)
    requires RoundTrips(c) && KeysDistinct(d)
    ensures Loaded(Lines(d, c), c) == d
    decreases |d|
  {
    if d != [] {
      var n := |d| - 1;
      var front, e := d[..n], d[n];
      assert d == front + [e];
      CompactLoads(front, c);
      LinesAppend(front, e, c);
      LoadedAppend(Lines(front, c), c.encode(e.0, e.1), c);
      SetFresh(front, e.0, e.1);
    }
  }

  // ---- Runs ----

  /** What lies on disk, and what the program holds. */
  datatype Cache = Cache(file: seq<string>, entries: Dict)

  datatype Op = Put(key: string, result: Result) | Compact | Reopen

  predicate Reopens(s: Cache) { Size(s.file) <= MAX_CACHE_BYTES }

  function Compacted(s: Cache, c: Codec): Cache { Cache(Lines(s.entries, c), s.entries) }

  function Stored(s: Cache, k: string, r: Result, c: Codec): Cache {
    if r.state == Degraded then s
    else
      var now := Cache(s.file + [c.encode(k, r)], Set(s.entries, k, r));
      if Size(now.file) > MAX_CACHE_BYTES then Compacted(now, c) else now
  }

  /** One operation; reopening raises when the file is over the cap, and then nothing has changed. */
  function Do(s: Cache, op: Op, c: Codec): Cache {
    match op
    case Put(k, r) => Stored(s, k, r, c)
    case Compact => Compacted(s, c)
    case Reopen => if Reopens(s) then Cache(s.file, Loaded(s.file, c)) else s
  }

  function Run(s: Cache, ops: seq<Op>, c: Codec): Cache
    decreases |ops|
  {
    if ops == [] then s else Run(Do(s, ops[0], c), ops[1..], c)
  }

  /** Every degraded result of `d` was one of `before`. */
  predicate AddsNoDegraded(d: Dict, before: Dict) { forall e :: e in d && e.1.state == Degraded ==> e in before }

  /** The entries in memory are those of the file, and a file over the cap has just been compacted. */
  predicate Sound(s: Cache, c: Codec) {
    s.entries == Loaded(s.file, c) && (Size(s.file) > MAX_CACHE_BYTES ==> s.file == Lines(s.entries, c))
  }

  lemma StoredSound(s: Cache, k: string, r: Result, c: Codec)
    requires RoundTrips(c) && Sound(s, c)
    ensures Sound(Stored(s, k, r, c), c) && AddsNoDegraded(Stored(s, k, r, c).entries, s.entries)
  {
    if r.state != Degraded {
      var now := Cache(s.file + [c.encode(k, r)], Set(s.entries, k, r));
      LoadedAppend(s.file, c.encode(k, r), c);
      LoadedDistinct(s.file, c);
      SetKeys(s.entries, k, r);
      CompactLoads(now.entries, c);
    }
  }

  lemma DoSound(s: Cache, op: Op, c: Codec)
    requires RoundTrips(c) && Sound(s, c)
    ensures Sound(Do(s, op, c), c) && AddsNoDegraded(Do(s, op, c).entries, s.entries)
  {
    match op
    case Put(k, r) => StoredSound(s, k, r, c);
    case Compact =>
      LoadedDistinct(s.file, c);
      CompactLoads(s.entries, c);
    case Reopen =>
  }

  /**
   * After any puts, compactions and reopens, loading the file gives exactly the entries in memory, and the only degraded
   * results among them are those the first file already held.
   */
  lemma {:induction false} RunSound(s: Cache, ops: seq<Op>, c: Codec)
    requires RoundTrips(c) && Sound(s, c)
    ensures Sound(Run(s, ops, c), c)
    ensures Loaded(Run(s, ops, c).file, c) == Run(s, ops, c).entries && AddsNoDegraded(Run(s, ops, c).entries, s.entries)
    decreases |ops|
  {
    if ops != [] {
      DoSound(s, ops[0], c);
      RunSound(Do(s, ops[0], c), ops[1..], c);
    }
  }

  // ---- When the file can be opened again ----

  predicate Written(line: string, c: Codec) { c.decode(line).Some? && line == c.encode(c.decode(line).value.0, c.decode(line).value.1) }

  /** Every line is one the cache itself writes. */
  predicate OwnFile(lines: seq<string>, c: Codec) { forall l :: l in lines ==> Written(l, c) }

  function LinesSize(d: Dict, c: Codec): nat {
    if d == [] then 0 else |c.encode(d[0].0, d[0].1)| + 1 + LinesSize(d[1..], c)
  }

  lemma {:induction false} SizeOfLines(d: Dict, c: Codec)
    ensures Size(Lines(d, c)) == LinesSize(d, c)
  {
    if d != [] {
      SizeOfLines(d[1..], c);
      SizeCons(c.encode(d[0].0, d[0].1), Lines(d[1..], c));
    }
  }

  lemma {:induction false} SizeCons(line: string, lines: seq<string>)
    ensures Size([line] + lines) == |line| + 1 + Size(lines)
    decreases |lines|
  {
    var all := [line] + lines;
    if lines == [] {
      assert all[..0] == [];
    } else {
      var n := |lines| - 1;
      SizeCons(line, lines[..n]);
      assert all[..|all| - 1] == [line] + lines[..n];
    }
  }

  lemma {:induction false} SetSize(d: Dict, k: string, r: Result, c: Codec)
    ensures LinesSize(Set(d, k, r), c) <= LinesSize(d, c) + |c.encode(k, r)| + 1
  {
    if d != [] {
      if d[0].0 == k {
        assert Set(d, k, r)[1..] == d[1..];
      } else {
        SetSize(d[1..], k, r, c);
        assert Set(d, k, r)[1..] == Set(d[1..], k, r);
      }
    }
  }

  /** Compacting never makes the cache's own file larger. */
  lemma {:induction false} CompactShrinks(lines: seq<string>, c: Codec)
    requires OwnFile(lines, c)
    ensures Size(Lines(Loaded(lines, c), c)) <= Size(lines)
  {
    SizeOfLines(Loaded(lines, c), c);
    if lines != [] {
      var front, last := lines[..|lines| - 1], lines[|lines| - 1];
      CompactShrinks(front, c);
      SizeOfLines(Loaded(front, c), c);
      assert Written(last, c) by { assert last in lines; }
      var e := c.decode(last).value;
      SetSize(Loaded(front, c), e.0, e.1, c);
    }
  }

  /**
   * The cap is not enforced by compaction: the file can be opened again exactly when one line for each key fits. A cache
   * that has outgrown the cap keeps answering in memory, and the next start raises.
   */
  lemma ReopensIff(s: Cache, c: Codec)
    requires RoundTrips(c) && Sound(s, c) && OwnFile(s.file, c)
    ensures Reopens(s) <==> LinesSize(s.entries, c) <= MAX_CACHE_BYTES
  {
    CompactShrinks(s.file, c);
    SizeOfLines(s.entries, c);
  }

  /** One result whose line is as long as the cap, put into an empty cache: it is kept, and the next start raises. */
  lemma LongEntryLocksOut(k: string, r: Result, c: Codec)
    requires RoundTrips(c) && r.state != Degraded && |c.encode(k, r)| >= MAX_CACHE_BYTES
    ensures
      var s := Run(Cache([], []), [Put(k, r)], c);
      Lookup(s.entries, k) == Some(r) && !Reopens(s)
  {
    var empty := Cache([], []);
    var s := Do(empty, Put(k, r), c);
    assert [Put(k, r)][1..] == [] && Run(s, [], c) == s;
    assert Set([], k, r) == [(k, r)];
    assert Lines([(k, r)], c) == [c.encode(k, r)] by { assert [(k, r)][1..] == []; }
    LoadedAppend([], c.encode(k, r), c);
    assert [] + [c.encode(k, r)] == [c.encode(k, r)];
    assert s.file == [c.encode(k, r)];
  }

  lemma {:induction false} LinesOwn(d: Dict, c: Codec)
    requires RoundTrips(c)
    ensures OwnFile(Lines(d, c), c)
  {
    if d != [] {
      LinesOwn(d[1..], c);
    }
  }

  /** The cache's own file stays its own. */
  lemma {:induction false} RunOwn(s: Cache, ops: seq<Op>, c: Codec)
    requires RoundTrips(c) && OwnFile(s.file, c)
    ensures OwnFile(Run(s, ops, c).file, c)
    decreases |ops|
  {
    if ops != [] {
      LinesOwn(s.entries, c);
      if ops[0].Put? { LinesOwn(Set(s.entries, ops[0].key, ops[0].result), c); }
      RunOwn(Do(s, ops[0], c), ops[1..], c);
    }
  }

  // ---- The cache object ----

  class ResultCache {
    const enabled: bool
    const codec: Codec
    var file: seq<string>
    var entries: Dict

    ghost predicate Valid() reads this { RoundTrips(codec) && (enabled ==> Sound(Now(), codec)) }
    function Now(): Cache reads this { Cache(file, entries) }

    /** A cache over a file already read into memory; `Open` is what reads it. */
    constructor (enabled: bool, codec: Codec, file: seq<string>, entries: Dict)
      requires RoundTrips(codec) && (enabled ==> Sound(Cache(file, entries), codec))
      ensures Valid() && Now() == Cache(file, entries) && this.enabled == enabled && this.codec == codec
    {
      this.enabled, this.codec, this.file, this.entries := enabled, codec, file, entries;
    }

    /** Read the file line by line; over the cap, the reading raises. */
    static method Open(codec: Codec, file: seq<string>) returns (cache: ResultCache?)
      requires RoundTrips(codec)
      ensures cache == null <==> Size(file) > MAX_CACHE_BYTES
      ensures cache != null ==> fresh(cache) && cache.Valid() && cache.enabled && cache.codec == codec
      ensures cache != null ==> cache.Now() == Cache(file, Loaded(file, codec))
    {
      if Size(file) > MAX_CACHE_BYTES { return null; }
      var entries: Dict := [];
      var i := 0;
      while i < |file|
        invariant 0 <= i <= |file| && entries == Loaded(file[..i], codec)
      {
        LoadedAppend(file[..i], file[i], codec);
        assert file[..i + 1] == file[..i] + [file[i]];
        var entry := codec.decode(file[i]);
        if entry.Some? { entries := Set(entries, entry.value.0, entry.value.1); }
        i := i + 1;
      }
      assert file[..i] == file;
      cache := new ResultCache(true, codec, file, entries);
    }

    /** What the last line for the key in the file says; nothing when there is no such line, or no cache. */
    method Get(key: string) returns (result: Option<Result>)
      requires Valid()
      ensures forall r :: result == Some(r) <==> enabled && LastSays(file, codec, key, r)
      ensures result == if enabled then Lookup(entries, key) else None
    {
      forall r ensures enabled && Lookup(entries, key) == Some(r) <==> enabled && LastSays(file, codec, key, r) {
        LastWins(file, codec, key, r);
      }
      result := if enabled then Lookup(entries, key) else None;
    }

    method Put(key: string, result: Result)
      requires Valid()
      modifies this
      ensures Valid() && Now() == if enabled then Stored(old(Now()), key, result, codec) else old(Now())
      ensures enabled && result.state != Degraded ==> Lookup(entries, key) == Some(result)
      ensures forall k :: k != key ==> Lookup(entries, k) == old(Lookup(entries, k))
    {
      if !enabled || result.state == Degraded { return; }
      StoredSound(Now(), key, result, codec);
      forall k ensures Lookup(Set(entries, key, result), k) == if k == key then Some(result) else Lookup(entries, k) {
        SetLookup(entries, key, result, k);
      }
      entries := Set(entries, key, result);
      file := file + [codec.encode(key, result)];
      if Size(file) > MAX_CACHE_BYTES {
        Compact();
      }
    }

    /** One line for each key, in place of the whole file. */
    method Compact()
      modifies this`file
      ensures Now() == Compacted(old(Now()), codec)
    {
      var text: seq<string> := [];
      var i := 0;
      while i < |entries|
        invariant 0 <= i <= |entries| && text == Lines(entries[..i], codec)
      {
        LinesAppend(entries[..i], entries[i], codec);
        assert entries[..i + 1] == entries[..i] + [entries[i]];
        text := text + [codec.encode(entries[i].0, entries[i].1)];
        i := i + 1;
      }
      assert entries[..i] == entries;
      file := text;
    }
  }
}
