/** `harness/aur.py`, `_chunks` and the lookup fold of `_info`. */
module Batches {
  import opened Greedy
  import opened Options

  const INFO_CHUNK: nat := 200
  const URI_BUDGET: nat := 4000
  const MAX_NAME_BYTES: nat := 255

  /** The characters `quote(name, safe="")` leaves alone; any other of a package name takes three. */
  predicate Unreserved(c: char) {
    'A' <= c <= 'Z' || 'a' <= c <= 'z' || '0' <= c <= '9' || c == '_' || c == '.' || c == '-' || c == '~'
  }

  function QuotedLength(name: string): nat {
    if name == "" then 0 else (if Unreserved(name[0]) then 1 else 3) + QuotedLength(name[1..])
  }

  /** `arg[]=`, the quoted name, and a separator. */
  function Cost(name: string): nat { 6 + QuotedLength(name) + 1 }

  function Total(names: seq<string>): nat {
    if names == [] then 0 else Total(names[..|names| - 1]) + Cost(names[|names| - 1])
  }

  /** A character as two hexadecimal digits of its code. */
  function Hex(c: char): string {
    var digits := "0123456789ABCDEF";
    [digits[(c as int / 16) % 16], digits[c as int % 16]]
  }

  /** The percent-encoded name, as it stands in the request. */
  function Quoted(name: string): string {
    if name == "" then "" else (if Unreserved(name[0]) then [name[0]] else "%" + Hex(name[0])) + Quoted(name[1..])
  }

  /** The query of a batch: each name quoted behind `arg[]=`, with a separator behind it. */
  function Query(names: seq<string>): string {
    if names == [] then "" else Query(names[..|names| - 1]) + ("arg[]=" + Quoted(names[|names| - 1]) + "&")
  }

  lemma {:induction false} QuotedLengthIs(name: string)
    ensures |Quoted(name)| == QuotedLength(name)
  {
    if name != "" {
      QuotedLengthIs(name[1..]);
    }
  }

  /** What a batch costs is how long its query is. */
  lemma {:induction false} TotalIsQuery(names: seq<string>)
    ensures Total(names) == |Query(names)|
  {
    if names != [] {
      TotalIsQuery(names[..|names| - 1]);
      QuotedLengthIs(names[|names| - 1]);
    }
  }

  lemma TotalAppend(names: seq<string>, name: string)
    ensures Total(names + [name]) == Total(names) + Cost(name)
  {
    assert (names + [name])[..|names|] == names;
  }

  lemma {:induction false} TotalConcat(a: seq<string>, b: seq<string>)
    ensures Total(a + b) == Total(a) + Total(b)
    decreases |b|
  {
    if b == [] {
      assert a + b == a;
    } else {
      var n := |b| - 1;
      TotalConcat(a, b[..n]);
      assert a + b == (a + b[..n]) + [b[n]];
      TotalAppend(a + b[..n], b[n]);
    }
  }

  lemma {:induction false} QuotedLengthBound(name: string)
    ensures QuotedLength(name) <= 3 * |name|
  {
    if name != "" {
      QuotedLengthBound(name[1..]);
    }
  }

  /** A validated name always fits into a request of its own. */
  lemma NameFits(name: string)
    requires |name| <= MAX_NAME_BYTES
    ensures Cost(name) <= URI_BUDGET
  {
    QuotedLengthBound(name);
  }

  /** A batch within both caps. */
  predicate Fits(batch: seq<string>) { batch != [] && |batch| <= INFO_CHUNK && Total(batch) <= URI_BUDGET }

  /** Both caps are hereditary, and every validated name fits alone. */
  lemma CapsHereditary()
    ensures Hereditary(Fits)
  {
    forall s: seq<string>, i, j | 0 <= i < j <= |s| && Fits(s) ensures Fits(s[i..j]) {
      assert s == (s[..i] + s[i..j]) + s[j..];
      TotalConcat(s[..i] + s[i..j], s[j..]);
      TotalConcat(s[..i], s[i..j]);
    }
  }

  lemma NamesSingle(names: seq<string>)
    requires forall n :: n in names ==> |n| <= MAX_NAME_BYTES
    ensures Singles(names, Fits)
  {
    forall n | n in names ensures Fits([n]) {
      NameFits(n);
      TotalAppend([], n);
      assert [] + [n] == [n];
    }
  }

  lemma ChunksAt(front: seq<seq<string>>, current: seq<string>, names: seq<string>, k: nat)
    requires k < |names|
    ensures front + Chunks(current, names[k..], Fits) ==
      if Closes(current, names[k], Fits) then (front + [current]) + Chunks([names[k]], names[k + 1..], Fits)
      else front + Chunks(current + [names[k]], names[k + 1..], Fits)
  {
    assert names[k..][0] == names[k] && names[k..][1..] == names[k + 1..];
    var rest := Chunks([names[k]], names[k + 1..], Fits);
    assert front + ([current] + rest) == (front + [current]) + rest;
  }

  /** The test the loop makes is whether the name still fits. */
  lemma LoopTest(current: seq<string>, name: string)
    requires Fits(current)
    ensures (|current| >= INFO_CHUNK || Total(current) + Cost(name) > URI_BUDGET) <==> Closes(current, name, Fits)
  {
    TotalAppend(current, name);
  }

  lemma StillFits(current: seq<string>, name: string)
    requires |name| <= MAX_NAME_BYTES && !Closes(current, name, Fits)
    ensures Fits(current + [name]) && Total(current + [name]) == Total(current) + Cost(name)
  {
    TotalAppend(current, name);
    NameFits(name);
  }

  /** One turn of the loop. */
  lemma OneName(chunks: seq<seq<string>>, current: seq<string>, names: seq<string>, k: nat)
    requires k < |names| && |names[k]| <= MAX_NAME_BYTES && (current == [] || Fits(current))
    ensures
      var full := current != [] && (|current| >= INFO_CHUNK || Total(current) + Cost(names[k]) > URI_BUDGET);
      var kept := if full then [] else current;
      && Fits(kept + [names[k]]) && Total(kept + [names[k]]) == Total(kept) + Cost(names[k])
      && chunks + Chunks(current, names[k..], Fits) ==
           (if full then chunks + [current] else chunks) + Chunks(kept + [names[k]], names[k + 1..], Fits)
  {
    ChunksAt(chunks, current, names, k);
    if current != [] { LoopTest(current, names[k]); }
    assert [] + [names[k]] == [names[k]];
    hide Fits, Total, Cost, Chunks;
    if Closes(current, names[k], Fits) {
      StillFits([], names[k]);
    } else {
      StillFits(current, names[k]);
    }
  }

  lemma ChunksAreBest(names: seq<string>)
    requires forall n :: n in names ==> |n| <= MAX_NAME_BYTES
    ensures Splits(Chunks([], names, Fits), names, Fits)
    ensures forall parts :: Splits(parts, names, Fits) ==> |Chunks([], names, Fits)| <= |parts|
  {
    NamesSingle(names);
    CapsHereditary();
    assert [] + names == names;
    ChunksSplit([], names, Fits);
    forall parts | Splits(parts, names, Fits) ensures |Chunks([], names, Fits)| <= |parts| {
      FewestBatches(names, parts, Fits);
    }
  }

  /**
   * `_chunks`: the batches put together are the names, each batch keeps both caps, and no other way to cut the names into
   * consecutive batches within the caps has fewer.
   */
  method MakeChunks(names: seq<string>) returns (chunks: seq<seq<string>>)
    requires forall n :: n in names ==> |n| <= MAX_NAME_BYTES
    ensures Splits(chunks, names, Fits)
    ensures forall parts :: Splits(parts, names, Fits) ==> |chunks| <= |parts|
  {
    chunks := [];
    var current: seq<string> := [];
    var length := 0;
    var k := 0;
    assert names[0..] == names && [] + Chunks([], names, Fits) == Chunks([], names, Fits);
    while k < |names|
      invariant 0 <= k <= |names| && length == Total(current) && (current == [] || Fits(current))
      invariant Chunks([], names, Fits) == chunks + Chunks(current, names[k..], Fits)
    {
      var name := names[k];
      var cost := Cost(name);
      OneName(chunks, current, names, k);
      if current != [] && (|current| >= INFO_CHUNK || length + cost > URI_BUDGET) {
        chunks := chunks + [current];
        current, length := [], 0;
      }
      current := current + [name];
      length := length + cost;
      k := k + 1;
    }
    assert names[k..] == [];
    if current != [] {
      chunks := chunks + [current];
    } else {
      assert chunks + [] == chunks;
    }
    ChunksAreBest(names);
  }

  // ---- The lookup table ----

  /** A record of the reply; either field may be missing. */
  datatype Row = Row(name: Option<string>, base: Option<string>, data: string)

  function Noted(table: map<string, Row>, row: Row): map<string, Row> {
    var named := if row.name.Some? then table[row.name.value := row] else table;
    if row.base.Some? && row.base.value !in named then named[row.base.value := row] else named
  }

  function Table(rows: seq<Row>): map<string, Row> {
    if rows == [] then map[] else Noted(Table(rows[..|rows| - 1]), rows[|rows| - 1])
  }

  predicate Names(row: Row, key: string) { row.name == Some(key) }
  predicate IsBase(row: Row, key: string) { row.base == Some(key) }

  /** The last row with a name, from the end. */
  function LastNamed(rows: seq<Row>, key: string): Option<Row> {
    if rows == [] then None
    else if Names(rows[|rows| - 1], key) then Some(rows[|rows| - 1])
    else LastNamed(rows[..|rows| - 1], key)
  }

  /** The first row with a base, from the front. */
  function FirstBased(rows: seq<Row>, key: string): Option<Row> {
    if rows == [] then None
    else if IsBase(rows[0], key) then Some(rows[0])
    else FirstBased(rows[1..], key)
  }

  lemma {:induction false} FirstBasedAppend(rows: seq<Row>, row: Row, key: string)
    ensures FirstBased(rows + [row], key) ==
      if FirstBased(rows, key).Some? then FirstBased(rows, key) else if IsBase(row, key) then Some(row) else None
  {
    if rows != [] {
      FirstBasedAppend(rows[1..], row, key);
      assert (rows + [row])[1..] == rows[1..] + [row];
    } else {
      assert rows + [row] == [row];
    }
  }

  /** A key looks up the last row of that name; failing that the first row of that base; and nothing otherwise. */
  lemma {:induction false} TableMeans(rows: seq<Row>, key: string)
    ensures (if key in Table(rows) then Some(Table(rows)[key]) else None) ==
      if LastNamed(rows, key).Some? then LastNamed(rows, key) else FirstBased(rows, key)
  {
    if rows != [] {
      var n := |rows| - 1;
      TableMeans(rows[..n], key);
      assert rows == rows[..n] + [rows[n]];
      FirstBasedAppend(rows[..n], rows[n], key);
    }
  }

  method FoldRows(rows: seq<Row>) returns (table: map<string, Row>)
    ensures table == Table(rows)
  {
    table := map[];
    for i := 0 to |rows|
      invariant table == Table(rows[..i])
    {
      var row := rows[i];
      assert rows[..i + 1][..i] == rows[..i];
      if row.name.Some? { table := table[row.name.value := row]; }
      if row.base.Some? && row.base.value !in table { table := table[row.base.value := row]; }
    }
    assert rows[..|rows|] == rows;
  }
}
