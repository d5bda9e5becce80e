/** `harness/fp_report.py`, `_validate_diff`: the counted-hunk reading of a unified diff, and the language it accepts. */
module HunkGrammar {
  import opened Text
  import HunkHeader
  import opened Options

  // ---- Lines ----

  const NO_NEWLINE := "\\ No newline at end of file"

  function Run(s: string, p: char -> bool): (n: nat)
    ensures n <= |s|
  {
    if s == "" || !p(s[0]) then 0 else 1 + Run(s[1..], p)
  }

  predicate IsHex(c: char) { '0' <= c <= '9' || 'a' <= c <= 'f' }

  predicate IsMode(s: string) { |s| == 6 && forall i :: 0 <= i < 6 ==> '0' <= s[i] <= '7' }

  /** `[0-9a-f]+..[0-9a-f]+` and an optional mode. */
  predicate IsIndexTail(s: string) {
    var a := Run(s, IsHex);
    a > 0 && StartsWith(s[a..], "..") &&
    var t := s[a..][2..];
    var b := Run(t, IsHex);
    b > 0 && (t[b..] == "" || (StartsWith(t[b..], " ") && IsMode(t[b..][1..])))
  }

  /** A line of git metadata. */
  predicate IsMeta(line: string) {
    || (StartsWith(line, "diff --git ") && |line| > 11)
    || (StartsWith(line, "index ") && IsIndexTail(line[6..]))
    || (StartsWith(line, "old mode ") && IsMode(line[9..]))
    || (StartsWith(line, "new mode ") && IsMode(line[9..]))
    || (StartsWith(line, "new file mode ") && IsMode(line[14..]))
    || (StartsWith(line, "deleted file mode ") && IsMode(line[18..]))
  }

  /** A file name up to white space, then nothing or a tab and anything. */
  predicate IsNameTail(s: string) {
    var n := Run(s, c => !IsSpace(c));
    n > 0 && (s[n..] == "" || s[n] == '\t')
  }

  predicate IsOldName(line: string) { StartsWith(line, "--- ") && IsNameTail(line[4..]) }
  predicate IsNewName(line: string) { StartsWith(line, "+++ ") && IsNameTail(line[4..]) }

  datatype Counts = Counts(before: nat, after: nat)

  predicate StartsHunk(line: string) { StartsWith(line, "@@") }

  /** The two counts of a valid hunk header; a side with lines may not start at line zero. */
  function HeaderCounts(line: string): Option<Counts> {
    match HunkHeader.Scan(line)
    case None => None
    case Some(h) =>
      if h.rest != "" && h.rest[0] != ' ' then None
      else if (h.oldCount > 0 && h.oldStart == 0) || (h.newCount > 0 && h.newStart == 0) then None
      else Some(Counts(h.oldCount, h.newCount))
  }

  /** The four line tests the reading makes, apart from the body markers, and the line it skips after a hunk line. */
  datatype Lexer = Lexer(meta: string -> bool, oldName: string -> bool, newName: string -> bool,
                         header: string -> Option<Counts>, noNewline: string)

  const LEXER := Lexer(IsMeta, IsOldName, IsNewName, HeaderCounts, NO_NEWLINE)

  predicate IsBody(line: string) { line != "" && (line[0] == ' ' || line[0] == '+' || line[0] == '-') }
  predicate OnOld(line: string) { line != "" && (line[0] == ' ' || line[0] == '-') }
  predicate OnNew(line: string) { line != "" && (line[0] == ' ' || line[0] == '+') }

  // ---- Structured patches ----

  /** A hunk line, and whether the no-newline marker follows it. */
  datatype Item = Item(line: string, marked: bool)
  datatype Hunk = Hunk(header: string, items: seq<Item>)
  datatype File = File(meta: seq<string>, oldName: string, newName: string, hunks: seq<Hunk>)

  /** Context and removed lines on one side, context and added lines on the other. */
  function Tally(items: seq<Item>): Counts {
    if items == [] then Counts(0, 0)
    else
      var t, l := Tally(items[1..]), items[0].line;
      Counts(t.before + (if OnOld(l) then 1 else 0), t.after + (if OnNew(l) then 1 else 0))
  }

  predicate ValidHunk(h: Hunk, lx: Lexer) {
    lx.header(h.header) == Some(Tally(h.items)) && forall i :: i in h.items ==> IsBody(i.line)
  }

  predicate ValidFile(f: File, lx: Lexer) {
    && (forall m :: m in f.meta ==> lx.meta(m)) && lx.oldName(f.oldName) && lx.newName(f.newName)
    && f.hunks != [] && forall h :: h in f.hunks ==> ValidHunk(h, lx)
  }

  predicate ValidPatch(fs: seq<File>, lx: Lexer) { forall f :: f in fs ==> ValidFile(f, lx) }

  function PrintItems(items: seq<Item>, lx: Lexer): seq<string> {
    if items == [] then []
    else [items[0].line] + (if items[0].marked then [lx.noNewline] else []) + PrintItems(items[1..], lx)
  }

  function PrintHunks(hunks: seq<Hunk>, lx: Lexer): seq<string> {
    if hunks == [] then [] else [hunks[0].header] + (PrintItems(hunks[0].items, lx) + PrintHunks(hunks[1..], lx))
  }

  function PrintFile(f: File, lx: Lexer): seq<string> { f.meta + ([f.oldName, f.newName] + PrintHunks(f.hunks, lx)) }

  function Print(fs: seq<File>, lx: Lexer): seq<string> {
    if fs == [] then [] else PrintFile(fs[0], lx) + Print(fs[1..], lx)
  }

  // ---- The reading ----

  /** Take hunk lines until both counts are used up. */
  function ReadItems(lines: seq<string>, c: Counts, lx: Lexer): (r: Option<(seq<Item>, seq<string>)>)
    ensures r.Some? ==> |r.value.1| <= |lines|
  {
    if c == Counts(0, 0) then Some(([], lines))
    else if lines == [] || !IsBody(lines[0]) then None
    else
      var o, n := if OnOld(lines[0]) then 1 else 0, if OnNew(lines[0]) then 1 else 0;
      if c.before < o || c.after < n then None
      else
        var marked := |lines| > 1 && lines[1] == lx.noNewline;
        match ReadItems(lines[if marked then 2 else 1..], Counts(c.before - o, c.after - n), lx)
        case None => None
        case Some((items, rest)) => Some(([Item(lines[0], marked)] + items, rest))
  }

  /** Take hunks as long as a line starts one. */
  function ReadHunks(lines: seq<string>, lx: Lexer): (r: Option<(seq<Hunk>, seq<string>)>)
    ensures r.Some? ==> |r.value.1| <= |lines|
    decreases |lines|
  {
    if lines == [] || !StartsHunk(lines[0]) then Some(([], lines))
    else
      match lx.header(lines[0])
      case None => None
      case Some(c) =>
        match ReadItems(lines[1..], c, lx)
        case None => None
        case Some((items, rest)) =>
          match ReadHunks(rest, lx)
          case None => None
          case Some((hunks, rest')) => Some(([Hunk(lines[0], items)] + hunks, rest'))
  }

  function MetaRun(lines: seq<string>, lx: Lexer): (n: nat)
    ensures n <= |lines|
  {
    if lines == [] || !lx.meta(lines[0]) then 0 else 1 + MetaRun(lines[1..], lx)
  }

  function ReadFile(lines: seq<string>, lx: Lexer): (r: Option<(File, seq<string>)>)
    ensures r.Some? ==> |r.value.1| < |lines|
  {
    var n := MetaRun(lines, lx);
    if n + 1 >= |lines| || !lx.oldName(lines[n]) || !lx.newName(lines[n + 1]) then None
    else
      match ReadHunks(lines[n + 2..], lx)
      case None => None
      case Some((hunks, rest)) => if hunks == [] then None else Some((File(lines[..n], lines[n], lines[n + 1], hunks), rest))
  }

  function Read(lines: seq<string>, lx: Lexer): Option<seq<File>>
    decreases |lines|
  {
    if lines == [] then Some([])
    else
      match ReadFile(lines, lx)
      case None => None
      case Some((f, rest)) =>
        match Read(rest, lx)
        case None => None
        case Some(fs) => Some([f] + fs)
  }

  // ---- Whatever is read prints back ----

  lemma ItemsPrint(lines: seq<string>, marked: bool, items: seq<Item>, rest: seq<string>, lx: Lexer)
    requires lines != [] && (marked ==> |lines| > 1 && lines[1] == lx.noNewline)
    requires PrintItems(items, lx) + rest == lines[if marked then 2 else 1..]
    ensures PrintItems([Item(lines[0], marked)] + items, lx) + rest == lines
  {
    var all := [Item(lines[0], marked)] + items;
    assert all[1..] == items;
    assert lines == [lines[0]] + (if marked then [lx.noNewline] else []) + lines[if marked then 2 else 1..];
  }

  lemma TallyCons(i: Item, items: seq<Item>)
    ensures Tally([i] + items) ==
      Counts(Tally(items).before + (if OnOld(i.line) then 1 else 0), Tally(items).after + (if OnNew(i.line) then 1 else 0))
  {
    assert ([i] + items)[1..] == items;
  }

  lemma {:induction false} ReadItemsSound(lines: seq<string>, c: Counts, lx: Lexer)
    requires ReadItems(lines, c, lx).Some?
    ensures
      var (items, rest) := ReadItems(lines, c, lx).value;
      PrintItems(items, lx) + rest == lines && Tally(items) == c && forall i :: i in items ==> IsBody(i.line)
    decreases |lines|
  {
    if c != Counts(0, 0) {
      var marked := |lines| > 1 && lines[1] == lx.noNewline;
      var left := lines[if marked then 2 else 1..];
      var c' := Counts(c.before - (if OnOld(lines[0]) then 1 else 0), c.after - (if OnNew(lines[0]) then 1 else 0));
      ReadItemsSound(left, c', lx);
      var (items, rest) := ReadItems(left, c', lx).value;
      ItemsPrint(lines, marked, items, rest, lx);
      TallyCons(Item(lines[0], marked), items);
    }
  }

  lemma Regroup<T>(a: seq<T>, b: seq<T>, c: seq<T>, d: seq<T>)
    ensures (a + (b + c)) + d == a + (b + (c + d))
  {
  }

  lemma PrintHunksCons(h: Hunk, hunks: seq<Hunk>, lx: Lexer)
    ensures PrintHunks([h] + hunks, lx) == [h.header] + (PrintItems(h.items, lx) + PrintHunks(hunks, lx))
  {
    assert ([h] + hunks)[1..] == hunks;
  }

  /** One more hunk in front of a hunk list that reads as it should. */
  lemma ReadHunksMore(lines: seq<string>, lx: Lexer, c: Counts, items: seq<Item>, rest: seq<string>)
    requires lines != [] && StartsHunk(lines[0]) && lx.header(lines[0]) == Some(c)
    requires ReadItems(lines[1..], c, lx) == Some((items, rest))
    ensures ReadHunks(lines, lx) ==
      match ReadHunks(rest, lx)
      case None => None
      case Some((hunks, rest')) => Some(([Hunk(lines[0], items)] + hunks, rest'))
  {
  }

  lemma {:induction false} ReadHunksSound(lines: seq<string>, lx: Lexer)
    requires ReadHunks(lines, lx).Some?
    ensures
      var (hunks, rest) := ReadHunks(lines, lx).value;
      && PrintHunks(hunks, lx) + rest == lines && (forall h :: h in hunks ==> ValidHunk(h, lx))
      && (rest == [] || !StartsHunk(rest[0]))
    decreases |lines|
  {
    if lines != [] && StartsHunk(lines[0]) {
      var c := lx.header(lines[0]).value;
      var (items, rest) := ReadItems(lines[1..], c, lx).value;
      ReadItemsSound(lines[1..], c, lx);
      ReadHunksMore(lines, lx, c, items, rest);
      ReadHunksSound(rest, lx);
      var (hunks, rest') := ReadHunks(rest, lx).value;
      var h := Hunk(lines[0], items);
      PrintHunksCons(h, hunks, lx);
      Regroup([h.header], PrintItems(items, lx), PrintHunks(hunks, lx), rest');
      assert lines == [lines[0]] + lines[1..];
      assert ValidHunk(h, lx);
    }
  }

  lemma {:induction false} MetaRunIsMeta(lines: seq<string>, lx: Lexer)
    ensures forall m :: m in lines[..MetaRun(lines, lx)] ==> lx.meta(m)
  {
    if lines != [] && lx.meta(lines[0]) {
      MetaRunIsMeta(lines[1..], lx);
      var n := MetaRun(lines[1..], lx);
      assert lines[..n + 1] == [lines[0]] + lines[1..][..n];
    }
  }

  lemma FilePrints(lines: seq<string>, n: nat, hunks: seq<Hunk>, rest: seq<string>, lx: Lexer)
    requires n + 2 <= |lines| && PrintHunks(hunks, lx) + rest == lines[n + 2..]
    ensures PrintFile(File(lines[..n], lines[n], lines[n + 1], hunks), lx) + rest == lines
  {
    Regroup(lines[..n], [lines[n], lines[n + 1]], PrintHunks(hunks, lx), rest);
    assert lines == lines[..n] + ([lines[n], lines[n + 1]] + lines[n + 2..]);
  }

  lemma ReadFileSound(lines: seq<string>, lx: Lexer)
    requires ReadFile(lines, lx).Some?
    ensures var (f, rest) := ReadFile(lines, lx).value; PrintFile(f, lx) + rest == lines && ValidFile(f, lx)
  {
    var n := MetaRun(lines, lx);
    MetaRunIsMeta(lines, lx);
    ReadHunksSound(lines[n + 2..], lx);
    var (hunks, rest) := ReadHunks(lines[n + 2..], lx).value;
    FilePrints(lines, n, hunks, rest, lx);
    assert ReadFile(lines, lx).value == (File(lines[..n], lines[n], lines[n + 1], hunks), rest);
  }

  lemma {:induction false} ReadSound(lines: seq<string>, lx: Lexer)
    requires Read(lines, lx).Some?
    ensures Print(Read(lines, lx).value, lx) == lines && ValidPatch(Read(lines, lx).value, lx)
    decreases |lines|
  {
    if lines != [] {
      ReadFileSound(lines, lx);
      var (f, rest) := ReadFile(lines, lx).value;
      ReadSound(rest, lx);
      var all := [f] + Read(rest, lx).value;
      assert all[1..] == Read(rest, lx).value;
    }
  }

  // ---- Whatever is printed reads back ----

  /** The line tests do not overlap where the reading looks one line ahead. */
  ghost predicate Apart(lx: Lexer) {
    && (forall l :: lx.meta(l) ==> !lx.oldName(l) && Opens(l, lx))
    && (forall l :: lx.oldName(l) ==> Opens(l, lx))
    && (forall l :: lx.header(l).Some? ==> StartsHunk(l)) && !StartsHunk(lx.noNewline)
    && !IsBody(lx.noNewline)
  }

  /** A line that can follow a finished hunk list. */
  predicate Opens(line: string, lx: Lexer) { !StartsHunk(line) && line != lx.noNewline }

  lemma ItemLines(i: Item, after: seq<string>, lx: Lexer)
    requires after == [] || after[0] != lx.noNewline
    ensures
      var lines := [i.line] + (if i.marked then [lx.noNewline] else []) + after;
      && i.marked == (|lines| > 1 && lines[1] == lx.noNewline)
      && lines[if i.marked then 2 else 1..] == after
  {
  }

  lemma PrintItemsCons(i: Item, items: seq<Item>, tail: seq<string>, lx: Lexer)
    ensures PrintItems([i] + items, lx) + tail ==
      [i.line] + (if i.marked then [lx.noNewline] else []) + (PrintItems(items, lx) + tail)
  {
    assert ([i] + items)[1..] == items;
  }

  lemma {:induction false} ReadItemsComplete(items: seq<Item>, tail: seq<string>, lx: Lexer)
    requires !IsBody(lx.noNewline) && forall i :: i in items ==> IsBody(i.line)
    requires tail == [] || tail[0] != lx.noNewline
    ensures ReadItems(PrintItems(items, lx) + tail, Tally(items), lx) == Some((items, tail))
  {
    if items == [] {
      assert PrintItems(items, lx) + tail == tail;
    } else {
      var i, more := items[0], items[1..];
      assert items == [i] + more;
      ReadItemsComplete(more, tail, lx);
      var after := PrintItems(more, lx) + tail;
      assert after != [] ==> after[0] != lx.noNewline by {
        if more != [] { assert more[0] in items && after[0] == more[0].line; }
      }
      PrintItemsCons(i, more, tail, lx);
      ItemLines(i, after, lx);
      var lines := PrintItems(items, lx) + tail;
      assert Item(lines[0], i.marked) == i;
      ReadItemsMore(lines, Tally(items), i.marked, more, tail, lx);
    }
  }

  lemma ReadItemsMore(lines: seq<string>, c: Counts, marked: bool, items: seq<Item>, rest: seq<string>, lx: Lexer)
    requires lines != [] && IsBody(lines[0]) && marked == (|lines| > 1 && lines[1] == lx.noNewline)
    requires c == Tally([Item(lines[0], marked)] + items)
    requires ReadItems(lines[if marked then 2 else 1..], Tally(items), lx) == Some((items, rest))
    ensures ReadItems(lines, c, lx) == Some(([Item(lines[0], marked)] + items, rest))
  {
    TallyCons(Item(lines[0], marked), items);
  }

  lemma {:induction false} ReadHunksComplete(hunks: seq<Hunk>, tail: seq<string>, lx: Lexer)
    requires Apart(lx) && (forall h :: h in hunks ==> ValidHunk(h, lx))
    requires tail == [] || Opens(tail[0], lx)
    ensures ReadHunks(PrintHunks(hunks, lx) + tail, lx) == Some((hunks, tail))
  {
    if hunks == [] {
      assert PrintHunks(hunks, lx) + tail == tail;
    } else {
      var h, more := hunks[0], hunks[1..];
      assert ValidHunk(h, lx) by { assert h in hunks; }
      ReadHunksComplete(more, tail, lx);
      var after := PrintHunks(more, lx) + tail;
      assert after != [] ==> after[0] != lx.noNewline by {
        if more != [] {
          assert more[0] in hunks && after[0] == more[0].header;
          assert ValidHunk(more[0], lx);
        }
      }
      ReadItemsComplete(h.items, after, lx);
      Regroup([h.header], PrintItems(h.items, lx), PrintHunks(more, lx), tail);
      var lines := PrintHunks(hunks, lx) + tail;
      assert lines == [h.header] + (PrintItems(h.items, lx) + after);
      assert lines[1..] == PrintItems(h.items, lx) + after;
      assert hunks == [h] + more && Hunk(lines[0], h.items) == h;
      ReadHunksMore(lines, lx, Tally(h.items), h.items, after);
    }
  }

  lemma {:induction false} MetaRunComplete(meta: seq<string>, tail: seq<string>, lx: Lexer)
    requires (forall m :: m in meta ==> lx.meta(m)) && tail != [] && !lx.meta(tail[0])
    ensures MetaRun(meta + tail, lx) == |meta|
  {
    if meta == [] {
      assert meta + tail == tail;
    } else {
      assert meta[0] in meta;
      assert (meta + tail)[1..] == meta[1..] + tail;
      MetaRunComplete(meta[1..], tail, lx);
    }
  }

  lemma ReadFileComplete(f: File, tail: seq<string>, lx: Lexer)
    requires Apart(lx) && ValidFile(f, lx) && (tail == [] || Opens(tail[0], lx))
    ensures ReadFile(PrintFile(f, lx) + tail, lx) == Some((f, tail))
  {
    var n := |f.meta|;
    var body := [f.oldName, f.newName] + (PrintHunks(f.hunks, lx) + tail);
    var lines := f.meta + body;
    Regroup(f.meta, [f.oldName, f.newName], PrintHunks(f.hunks, lx), tail);
    MetaRunComplete(f.meta, body, lx);
    assert lines[..n] == f.meta && lines[n] == f.oldName && lines[n + 1] == f.newName;
    assert lines[n + 2..] == PrintHunks(f.hunks, lx) + tail;
    ReadHunksComplete(f.hunks, tail, lx);
  }

  lemma PrintOpens(fs: seq<File>, lx: Lexer)
    requires Apart(lx) && ValidPatch(fs, lx) && fs != []
    ensures Print(fs, lx) != [] && Opens(Print(fs, lx)[0], lx)
  {
    var f := fs[0];
    assert f in fs;
    if f.meta != [] { assert f.meta[0] in f.meta; }
  }

  lemma {:induction false} ReadComplete(fs: seq<File>, lx: Lexer)
    requires Apart(lx) && ValidPatch(fs, lx)
    ensures Read(Print(fs, lx), lx) == Some(fs)
  {
    if fs != [] {
      var f, more := fs[0], fs[1..];
      assert ValidFile(f, lx) by { assert f in fs; }
      forall g | g in more ensures ValidFile(g, lx) { assert g in fs; }
      ReadComplete(more, lx);
      if more != [] { PrintOpens(more, lx); }
      ReadFileComplete(f, Print(more, lx), lx);
      PrintOpens(fs, lx);
      assert fs == [f] + more;
    }
  }

  /** The reading accepts exactly the printed valid patches. */
  lemma AcceptsExactly(lines: seq<string>, lx: Lexer)
    requires Apart(lx)
    ensures Read(lines, lx).Some? <==> exists fs :: ValidPatch(fs, lx) && Print(fs, lx) == lines
  {
    if Read(lines, lx).Some? {
      ReadSound(lines, lx);
    }
    if fs :| ValidPatch(fs, lx) && Print(fs, lx) == lines {
      ReadComplete(fs, lx);
    }
  }

  /** A line list decomposes in at most one way. */
  lemma DecompositionUnique(a: seq<File>, b: seq<File>, lx: Lexer)
    requires Apart(lx) && ValidPatch(a, lx) && ValidPatch(b, lx) && Print(a, lx) == Print(b, lx)
    ensures a == b
  {
    ReadComplete(a, lx);
    ReadComplete(b, lx);
  }

  lemma SecondDiffers(s: string, p: string)
    requires StartsWith(s, p) && |p| >= 1
    ensures s[0] == p[0]
  {
    assert s[0] == s[..|p|][0];
  }

  /** The program's own line tests are apart. */
  lemma LexerApart()
    ensures Apart(LEXER)
  {
    forall l | IsMeta(l) ensures !IsOldName(l) && Opens(l, LEXER) {
      assert l[0] == 'd' || l[0] == 'i' || l[0] == 'o' || l[0] == 'n';
      FirstOfStart(l);
    }
    forall l | IsOldName(l) ensures Opens(l, LEXER) {
      FirstOfStart(l);
    }
    forall l | HeaderCounts(l).Some? ensures StartsHunk(l) {
      HunkHeader.ScannedStartsWithAt(l);
    }
    FirstOfStart(NO_NEWLINE);
  }

  lemma FirstOfStart(l: string)
    ensures StartsHunk(l) ==> l[0] == '@'
    ensures StartsWith(l, "--- ") ==> l[0] == '-'
    ensures l == NO_NEWLINE ==> l[0] == '\\'
  {
    if StartsHunk(l) { SecondDiffers(l, "@@"); }
    if StartsWith(l, "--- ") { SecondDiffers(l, "--- "); }
  }

  /** Every valid patch of the program's language, printed and read again, is itself; the converse is `ReadSound`. */
  lemma RoundTrip(fs: seq<File>)
    requires ValidPatch(fs, LEXER)
    ensures Read(Print(fs, LEXER), LEXER) == Some(fs)
  {
    LexerApart();
    ReadComplete(fs, LEXER);
  }

  // ---- The loop over a line index ----

  function Body(line: string, mark: char): seq<string> {
    if line != "" && line[0] == mark then [line[1..]] else []
  }

  /** The bodies of the lines of one kind, in order. */
  function Bodies(items: seq<Item>, mark: char): seq<string> {
    if items == [] then [] else Body(items[0].line, mark) + Bodies(items[1..], mark)
  }

  /** A hunk changes something: what it removes is not what it adds. */
  predicate Changes(items: seq<Item>) { Bodies(items, '-') != Bodies(items, '+') }

  predicate AnyChanges(hunks: seq<Hunk>) { exists h :: h in hunks && Changes(h.items) }

  function Tallies(hunks: seq<Hunk>): seq<Counts> {
    if hunks == [] then [] else [Tally(hunks[0].items)] + Tallies(hunks[1..])
  }

  function HunksOf(fs: seq<File>): seq<Hunk> {
    if fs == [] then [] else fs[0].hunks + HunksOf(fs[1..])
  }

  lemma {:induction false} BodiesAppend(items: seq<Item>, i: Item, mark: char)
    ensures Bodies(items + [i], mark) == Bodies(items, mark) + Body(i.line, mark)
  {
    if items == [] {
      assert items + [i] == [i];
    } else {
      BodiesAppend(items[1..], i, mark);
      assert (items + [i])[1..] == items[1..] + [i];
    }
  }

  lemma {:induction false} TalliesConcat(a: seq<Hunk>, b: seq<Hunk>)
    ensures Tallies(a + b) == Tallies(a) + Tallies(b)
  {
    if a == [] {
      assert a + b == b;
    } else {
      TalliesConcat(a[1..], b);
      assert (a + b)[1..] == a[1..] + b;
    }
  }

  lemma {:induction false} HunksOfAppend(fs: seq<File>, f: File)
    ensures HunksOf(fs + [f]) == HunksOf(fs) + f.hunks
  {
    if fs == [] {
      assert (fs + [f])[1..] == [];
    } else {
      HunksOfAppend(fs[1..], f);
      assert (fs + [f])[1..] == fs[1..] + [f];
    }
  }

  /** A reading of the rest of the lines, with what has already been taken put in front. */
  function After<A>(front: seq<A>, r: Option<(seq<A>, seq<string>)>): Option<(seq<A>, seq<string>)> {
    match r
    case None => None
    case Some((more, rest)) => Some((front + more, rest))
  }

  lemma AfterNothing<A>(front: seq<A>, r: Option<(seq<A>, seq<string>)>)
    ensures After([], r) == r && (r.Some? && r.value.0 == [] ==> After(front, r) == Some((front, r.value.1)))
  {
    if r.Some? {
      assert [] + r.value.0 == r.value.0 && front + [] == front;
    }
  }

  lemma AfterStep<A>(front: seq<A>, a: A, r: Option<(seq<A>, seq<string>)>)
    ensures After(front + [a], r) == After(front, After([a], r))
  {
    if r.Some? {
      assert (front + [a]) + r.value.0 == front + ([a] + r.value.0);
    }
  }

  predicate MarkedAt(lines: seq<string>, k: nat, lx: Lexer) { k + 1 < |lines| && lines[k + 1] == lx.noNewline }

  /** One line taken at index `k`, in the loop's arithmetic: counters first go down, then are tested. */
  lemma ReadItemsAt(lines: seq<string>, k: nat, c: Counts, before: int, after: int, lx: Lexer)
    requires c != Counts(0, 0) && k < |lines| && IsBody(lines[k])
    requires before == c.before - (if OnOld(lines[k]) then 1 else 0)
    requires after == c.after - (if OnNew(lines[k]) then 1 else 0)
    ensures before < 0 || after < 0 ==> ReadItems(lines[k..], c, lx).None?
    ensures before >= 0 && after >= 0 ==>
      ReadItems(lines[k..], c, lx) ==
      After([Item(lines[k], MarkedAt(lines, k, lx))],
        ReadItems(lines[k + (if MarkedAt(lines, k, lx) then 2 else 1)..], Counts(before, after), lx))
  {
    var left, marked := lines[k..], MarkedAt(lines, k, lx);
    assert left[0] == lines[k] && marked == (|left| > 1 && left[1] == lx.noNewline);
    assert left[if marked then 2 else 1..] == lines[k + (if marked then 2 else 1)..];
  }

  /** One turn of the inner loop: count the line on its sides, step over it and over a marker behind it. */
  method TakeLine(lines: seq<string>, k: nat, c: Counts, lx: Lexer) returns (ok: bool, next: nat, left: Counts)
    requires c != Counts(0, 0) && k < |lines|
    ensures !ok ==> ReadItems(lines[k..], c, lx).None?
    ensures ok ==> k < next <= |lines| && IsBody(lines[k])
    ensures ok ==>
      (ReadItems(lines[k..], c, lx) == After([Item(lines[k], MarkedAt(lines, k, lx))], ReadItems(lines[next..], left, lx)))
  {
    ok, next, left := false, k, c;
    if !IsBody(lines[k]) { return; }
    var before: int, after: int := c.before, c.after;
    if OnOld(lines[k]) { before := before - 1; }
    if OnNew(lines[k]) { after := after - 1; }
    ReadItemsAt(lines, k, c, before, after, lx);
    if before < 0 || after < 0 { return; }
    next := next + 1;
    if next < |lines| && lines[next] == lx.noNewline {
      next := next + 1;
    }
    ok, left := true, Counts(before, after);
  }

  /** The inner loop: lines are taken until both counters reach zero; a counter below zero is an error. */
  method TakeItems(lines: seq<string>, start: nat, c: Counts, lx: Lexer) returns (ok: bool, next: nat, changed: bool)
    requires start <= |lines|
    ensures ok == ReadItems(lines[start..], c, lx).Some?
    ensures ok ==> start <= next <= |lines| && ReadItems(lines[start..], c, lx).value.1 == lines[next..]
    ensures ok ==> changed == Changes(ReadItems(lines[start..], c, lx).value.0)
  {
    ok, next, changed := false, start, false;
    var left := c;
    var removed: seq<string>, added: seq<string> := [], [];
    ghost var items: seq<Item> := [];
    ghost var whole := ReadItems(lines[start..], c, lx);
    AfterNothing(items, whole);
    while left != Counts(0, 0)
      invariant start <= next <= |lines|
      invariant whole == After(items, ReadItems(lines[next..], left, lx))
      invariant removed == Bodies(items, '-') && added == Bodies(items, '+')
      decreases |lines| - next
    {
      if next >= |lines| { return; }
      var line := lines[next];
      ghost var i := Item(line, MarkedAt(lines, next, lx));
      var taken;
      taken, next, left := TakeLine(lines, next, left, lx);
      if !taken { return; }
      removed, added := removed + Body(line, '-'), added + Body(line, '+');
      BodiesAppend(items, i, '-');
      BodiesAppend(items, i, '+');
      AfterStep(items, i, ReadItems(lines[next..], left, lx));
      items := items + [i];
    }
    ok := true;
    changed := removed != added;
    AfterNothing(items, ReadItems(lines[next..], Counts(0, 0), lx));
  }

  lemma ReadHunksStep(lines: seq<string>, lx: Lexer)
    requires lines != [] && StartsHunk(lines[0])
    ensures lx.header(lines[0]).None? ==> ReadHunks(lines, lx).None?
    ensures lx.header(lines[0]).Some? && ReadItems(lines[1..], lx.header(lines[0]).value, lx).None? ==> ReadHunks(lines, lx).None?
    ensures lx.header(lines[0]).Some? && ReadItems(lines[1..], lx.header(lines[0]).value, lx).Some? ==>
      var (items, rest) := ReadItems(lines[1..], lx.header(lines[0]).value, lx).value;
      ReadHunks(lines, lx) == After([Hunk(lines[0], items)], ReadHunks(rest, lx))
  {
  }

  lemma HunkNoted(hunks: seq<Hunk>, h: Hunk, c: Counts)
    requires Tally(h.items) == c
    ensures Tallies(hunks + [h]) == Tallies(hunks) + [c]
    ensures AnyChanges(hunks + [h]) == (AnyChanges(hunks) || Changes(h.items))
  {
    TalliesConcat(hunks, [h]);
    if Changes(h.items) { assert h in hunks + [h]; }
    if g :| g in hunks && Changes(g.items) { assert g in hunks + [h]; }
  }

  /** The hunks of one file: header, counts noted, lines taken, as long as a line starts a hunk. */
  method TakeHunks(lines: seq<string>, start: nat, lx: Lexer)
    returns (ok: bool, next: nat, headers: seq<Counts>, changed: bool)
    requires start <= |lines|
    ensures ok == ReadHunks(lines[start..], lx).Some?
    ensures ok ==> start <= next <= |lines| && ReadHunks(lines[start..], lx).value.1 == lines[next..]
    ensures ok ==> headers == Tallies(ReadHunks(lines[start..], lx).value.0)
    ensures ok ==> changed == AnyChanges(ReadHunks(lines[start..], lx).value.0)
  {
    ok, next, headers, changed := false, start, [], false;
    ghost var hunks: seq<Hunk> := [];
    ghost var whole := ReadHunks(lines[start..], lx);
    AfterNothing(hunks, whole);
    while next < |lines| && StartsHunk(lines[next])
      invariant start <= next <= |lines|
      invariant whole == After(hunks, ReadHunks(lines[next..], lx))
      invariant headers == Tallies(hunks) && changed == AnyChanges(hunks)
    {
      var header := lx.header(lines[next]);
      ReadHunksStep(lines[next..], lx);
      if header.None? { return; }
      headers := headers + [header.value];
      assert lines[next..][1..] == lines[next + 1..];
      var taken, after, differs := TakeItems(lines, next + 1, header.value, lx);
      if !taken { return; }
      ghost var items := ReadItems(lines[next + 1..], header.value, lx).value.0;
      ReadItemsSound(lines[next + 1..], header.value, lx);
      ghost var h := Hunk(lines[next], items);
      HunkNoted(hunks, h, header.value);
      AfterStep(hunks, h, ReadHunks(lines[after..], lx));
      hunks := hunks + [h];
      changed := changed || differs;
      next := after;
    }
    ok := true;
    AfterNothing(hunks, ReadHunks(lines[next..], lx));
  }

  method SkipMeta(lines: seq<string>, start: nat, lx: Lexer) returns (next: nat)
    requires start <= |lines|
    ensures next == start + MetaRun(lines[start..], lx)
  {
    next := start;
    while next < |lines| && lx.meta(lines[next])
      invariant start <= next <= |lines|
      invariant start + MetaRun(lines[start..], lx) == next + MetaRun(lines[next..], lx)
    {
      assert lines[next..][1..] == lines[next + 1..];
      next := next + 1;
    }
  }

  method TakeFile(lines: seq<string>, start: nat, lx: Lexer)
    returns (ok: bool, next: nat, headers: seq<Counts>, changed: bool)
    requires start <= |lines|
    ensures ok == ReadFile(lines[start..], lx).Some?
    ensures ok ==> start < next <= |lines| && ReadFile(lines[start..], lx).value.1 == lines[next..]
    ensures ok ==> headers == Tallies(ReadFile(lines[start..], lx).value.0.hunks)
    ensures ok ==> changed == AnyChanges(ReadFile(lines[start..], lx).value.0.hunks)
  {
    ok, next, headers, changed := false, start, [], false;
    var index := SkipMeta(lines, start, lx);
    if index + 1 >= |lines| || !lx.oldName(lines[index]) || !lx.newName(lines[index + 1]) { return; }
    assert lines[start..][index - start + 2..] == lines[index + 2..];
    ok, next, headers, changed := TakeHunks(lines, index + 2, lx);
    if ok && |headers| == 0 {
      ok := false;
    }
  }

  lemma PatchNoted(fs: seq<File>, f: File)
    ensures Tallies(HunksOf(fs + [f])) == Tallies(HunksOf(fs)) + Tallies(f.hunks)
    ensures AnyChanges(HunksOf(fs + [f])) == (AnyChanges(HunksOf(fs)) || AnyChanges(f.hunks))
  {
    HunksOfAppend(fs, f);
    TalliesConcat(HunksOf(fs), f.hunks);
    if h :| h in HunksOf(fs) && Changes(h.items) { assert h in HunksOf(fs + [f]); }
    if h :| h in f.hunks && Changes(h.items) { assert h in HunksOf(fs + [f]); }
  }

  /**
   * The structural loop: it succeeds exactly on the lines of a valid patch, and then reports the counts of that
   * patch's hunks in order and whether any of them changes something.
   */
  method Validate(lines: seq<string>) returns (ok: bool, headers: seq<Counts>, changed: bool)
    ensures ok <==> exists fs :: ValidPatch(fs, LEXER) && Print(fs, LEXER) == lines
    ensures forall fs :: ValidPatch(fs, LEXER) && Print(fs, LEXER) == lines ==>
      headers == Tallies(HunksOf(fs)) && changed == AnyChanges(HunksOf(fs))
  {
    LexerApart();
    AcceptsExactly(lines, LEXER);
    forall fs | ValidPatch(fs, LEXER) && Print(fs, LEXER) == lines ensures Read(lines, LEXER) == Some(fs) { RoundTrip(fs); }
    ok, headers, changed := ReadAll(lines, LEXER);
  }

  function InFront(fs: seq<File>, r: Option<seq<File>>): Option<seq<File>> {
    if r.None? then None else Some(fs + r.value)
  }

  lemma InFrontNothing(r: Option<seq<File>>)
    ensures InFront([], r) == r
  {
    if r.Some? { assert [] + r.value == r.value; }
  }

  lemma InFrontStep(fs: seq<File>, f: File, r: Option<seq<File>>)
    ensures InFront(fs + [f], r) == InFront(fs, InFront([f], r))
  {
    if r.Some? {
      assert (fs + [f]) + r.value == fs + ([f] + r.value);
    }
  }

  method ReadAll(lines: seq<string>, lx: Lexer) returns (ok: bool, headers: seq<Counts>, changed: bool)
    ensures ok == Read(lines, lx).Some?
    ensures ok ==> headers == Tallies(HunksOf(Read(lines, lx).value)) && changed == AnyChanges(HunksOf(Read(lines, lx).value))
  {
    ok, headers, changed := false, [], false;
    var index := 0;
    ghost var files: seq<File> := [];
    assert lines[0..] == lines;
    InFrontNothing(Read(lines, lx));
    while index < |lines|
      invariant 0 <= index <= |lines|
      invariant Read(lines, lx) == InFront(files, Read(lines[index..], lx))
      invariant headers == Tallies(HunksOf(files)) && changed == AnyChanges(HunksOf(files))
    {
      var taken, next, more, differs := TakeFile(lines, index, lx);
      if !taken { return; }
      ghost var f := ReadFile(lines[index..], lx).value.0;
      assert Read(lines[index..], lx) == InFront([f], Read(lines[next..], lx));
      PatchNoted(files, f);
      InFrontStep(files, f, Read(lines[next..], lx));
      files := files + [f];
      index, headers, changed := next, headers + more, changed || differs;
    }
    ok := true;
    assert lines[index..] == [];
    assert files + [] == files;
  }
}
