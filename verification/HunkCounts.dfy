/** `harness/fp_report.py`, `_validate_diff`: what the two counts of a printed hunk header have to be. */
module HunkCounts {
  import opened Text
  import opened HunkGrammar
  import opened Options
  import HunkHeader

  /** How many of the lines begin with `mark`. */
  function Starting(lines: seq<string>, mark: char): nat {
    if lines == [] then 0 else (if lines[0] != "" && lines[0][0] == mark then 1 else 0) + Starting(lines[1..], mark)
  }

  lemma {:induction false} StartingConcat(a: seq<string>, b: seq<string>, mark: char)
    ensures Starting(a + b, mark) == Starting(a, mark) + Starting(b, mark)
  {
    if a == [] {
      assert a + b == b;
    } else {
      StartingConcat(a[1..], b, mark);
      assert (a + b)[1..] == a[1..] + b;
    }
  }

  lemma {:induction false} StartingOfItems(items: seq<Item>, mark: char)
    requires mark != '\\'
    ensures items != [] ==>
      Starting(PrintItems(items, LEXER), mark) ==
        (if items[0].line != "" && items[0].line[0] == mark then 1 else 0) + Starting(PrintItems(items[1..], LEXER), mark)
  {
    if items != [] {
      var first, more := items[0], PrintItems(items[1..], LEXER);
      var marker := if first.marked then [NO_NEWLINE] else [];
      assert PrintItems(items, LEXER) == [first.line] + (marker + more);
      StartingConcat([first.line], marker + more, mark);
      StartingConcat(marker, more, mark);
      FirstOfStart(NO_NEWLINE);
    }
  }

  /** The tally of a hunk is in its printed lines. */
  lemma {:induction false} TallyIs(items: seq<Item>)
    ensures
      var lines := PrintItems(items, LEXER);
      && Tally(items).before == Starting(lines, ' ') + Starting(lines, '-')
      && Tally(items).after == Starting(lines, ' ') + Starting(lines, '+')
  {
    if items != [] {
      TallyIs(items[1..]);
      StartingOfItems(items, ' ');
      StartingOfItems(items, '-');
      StartingOfItems(items, '+');
    }
  }

  /** Nothing or a space behind the second `@@`, and no side that has lines while starting at line zero. */
  predicate WellPut(h: HunkHeader.Header) {
    (h.rest == "" || h.rest[0] == ' ') && (h.oldStart == 0 ==> h.oldCount == 0) && (h.newStart == 0 ==> h.newCount == 0)
  }

  /** The header test takes a printed header exactly when it is well put, and reads its two counts in their order. */
  lemma HeaderOfRender(h: HunkHeader.Header)
    ensures LEXER.header(HunkHeader.Render(h)) == if WellPut(h) then Some(Counts(h.oldCount, h.newCount)) else None
  {
    HunkHeader.ScanOfRender(h);
  }

  /** Lines of a hunk under a header that printed the numbers of `h`. */
  predicate Matching(h: HunkHeader.Header, lines: seq<string>) {
    && WellPut(h)
    && Starting(lines, ' ') + Starting(lines, '-') == h.oldCount
    && Starting(lines, ' ') + Starting(lines, '+') == h.newCount
  }

  predicate NoHunkIn(lines: seq<string>) { forall l :: l in lines ==> !StartsHunk(l) }

  lemma NoHunkNoFile(lines: seq<string>)
    requires lines != [] && NoHunkIn(lines)
    ensures Read(lines, LEXER).None?
  {
    var n := MetaRun(lines, LEXER);
    if n + 2 < |lines| { assert lines[n + 2..][0] in lines; }
  }

  lemma {:induction false} PrintedBody(items: seq<Item>)
    requires forall i :: i in items ==> IsBody(i.line)
    ensures NoHunkIn(PrintItems(items, LEXER))
    ensures PrintItems(items, LEXER) != [] ==> IsBody(PrintItems(items, LEXER)[0])
  {
    if items != [] {
      assert items[0] in items;
      FirstOfStart(items[0].line);
      FirstOfStart(NO_NEWLINE);
      PrintedBody(items[1..]);
    }
  }

  /** Reading the lines of a hunk under any counts: all of them are taken when the counts are their own. */
  lemma ItemsTaken(items: seq<Item>, c: Counts)
    requires forall i :: i in items ==> IsBody(i.line)
    ensures
      var r := ReadItems(PrintItems(items, LEXER), c, LEXER);
      (r.Some? && r.value.1 == [] <==> c == Tally(items)) && (r.Some? ==> NoHunkIn(r.value.1))
  {
    var lines := PrintItems(items, LEXER);
    LexerApart();
    ReadItemsComplete(items, [], LEXER);
    assert lines + [] == lines;
    PrintedBody(items);
    var r := ReadItems(lines, c, LEXER);
    if r.Some? {
      ReadItemsSound(lines, c, LEXER);
      var (took, rest) := r.value;
      assert forall l :: l in rest ==> l in PrintItems(took, LEXER) + rest;
      if rest == [] {
        assert PrintItems(took, LEXER) + [] == PrintItems(took, LEXER);
        TallyIs(took);
        TallyIs(items);
      }
    }
  }

  /** One hunk in front of lines that start none. */
  lemma OneHunkRead(header: string, body: seq<string>, c: Counts, items: seq<Item>, rest: seq<string>)
    requires StartsHunk(header) && LEXER.header(header) == Some(c) && NoHunkIn(rest)
    requires ReadItems(body, c, LEXER) == Some((items, rest))
    ensures ReadHunks([header] + body, LEXER) == Some(([Hunk(header, items)], rest))
  {
    assert ([header] + body)[1..] == body;
    assert rest != [] ==> rest[0] in rest;
    assert ReadHunks(rest, LEXER) == Some(([], rest));
    ReadHunksMore([header] + body, LEXER, c, items, rest);
    assert [Hunk(header, items)] + [] == [Hunk(header, items)];
  }

  /** A file without metadata reads as far as its hunks do. */
  lemma PlainFileRead(oldName: string, newName: string, tail: seq<string>)
    requires IsOldName(oldName) && IsNewName(newName)
    ensures
      var (whole, hunks) := (ReadFile([oldName, newName] + tail, LEXER), ReadHunks(tail, LEXER));
      && (hunks.None? ==> whole.None?)
      && (hunks.Some? && hunks.value.0 != [] ==>
            whole == Some((File([], oldName, newName, hunks.value.0), hunks.value.1)))
  {
    var lines := [oldName, newName] + tail;
    LexerApart();
    assert LEXER.oldName(oldName) && !LEXER.meta(oldName);
    assert MetaRun(lines, LEXER) == 0 && lines[2..] == tail && lines[..0] == [];
  }

  /**
   * A file of one hunk, printed: it is accepted exactly when its header is well put, its context and removed lines number
   * the printed old count, and its context and added lines the printed new count.
   */
  lemma OneHunkAcceptedIff(oldName: string, newName: string, h: HunkHeader.Header, items: seq<Item>)
    requires IsOldName(oldName) && IsNewName(newName) && forall i :: i in items ==> IsBody(i.line)
    ensures
      var body := PrintItems(items, LEXER);
      var lines := [oldName, newName] + ([HunkHeader.Render(h)] + body);
      (exists fs :: ValidPatch(fs, LEXER) && Print(fs, LEXER) == lines) <==> Matching(h, body)
  {
    hide Apart, ReadItems, ReadHunks, ReadFile, Tally, Starting, Print, PrintItems, ValidPatch, HeaderCounts, StartsHunk;
    hide IsOldName, IsNewName, NoHunkIn, HunkHeader.Render;
    var header, body, c := HunkHeader.Render(h), PrintItems(items, LEXER), Counts(h.oldCount, h.newCount);
    var lines := [oldName, newName] + ([header] + body);
    assert Apart(LEXER) by { LexerApart(); }
    AcceptsExactly(lines, LEXER);
    HeaderOfRender(h);
    TallyIs(items);
    ItemsTaken(items, c);
    PlainFileRead(oldName, newName, [header] + body);
    HeaderOpens(h);
    if !WellPut(h) || ReadItems(body, c, LEXER).None? {
      NoHunksRead(header, body);
    } else {
      var (took, rest) := ReadItems(body, c, LEXER).value;
      OneHunkRead(header, body, c, took, rest);
      if rest != [] { NoHunkNoFile(rest); }
    }
  }

  lemma HeaderOpens(h: HunkHeader.Header)
    ensures StartsHunk(HunkHeader.Render(h))
  {
    HunkHeader.ScanOfRender(h);
    HunkHeader.ScannedStartsWithAt(HunkHeader.Render(h));
  }

  lemma NoHunksRead(header: string, body: seq<string>)
    requires StartsHunk(header)
    requires LEXER.header(header).None? || ReadItems(body, LEXER.header(header).value, LEXER).None?
    ensures ReadHunks([header] + body, LEXER).None?
  {
    assert ([header] + body)[1..] == body;
  }
}
