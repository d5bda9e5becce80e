/** `validators/syntax.py`: the old and the new file read back from a unified diff. */
module UnifiedDiff {
  import opened Text
  import HunkHeader

  datatype Result<+T> = Ok(value: T) | Error(reason: string)

  /** Which lines have been read so far: the loop's two flags and its two lists. */
  datatype Reader = Reader(inHunk: bool, seenHunk: bool, before: seq<string>, after: seq<string>)

  const START := Reader(false, false, [], [])

  /** `raw.strip() == ""`. */
  predicate IsBlank(raw: string) { forall c :: c in raw ==> IsSpace(c) }

  predicate IsFileHeader(raw: string) { StartsWith(raw, "--- ") || StartsWith(raw, "+++ ") }

  predicate IsGitHeader(raw: string) { StartsWith(raw, "diff ") || StartsWith(raw, "index ") }

  /** What the reader does with a line: close the hunk, open one, pass over it, or take its body to one side or both. */
  datatype Kind = Close | Open | Skip | Body(removed: bool, added: bool) | Bad(reason: string)

  function KindOf(raw: string, inHunk: bool): Kind {
    if IsFileHeader(raw) || IsGitHeader(raw) then Close
    else if StartsWith(raw, "@@") then
      if HunkHeader.Scan(raw).None? then Bad("malformed hunk header") else Open
    else if !inHunk then
      if IsBlank(raw) then Skip else Bad("content outside a hunk")
    else if StartsWith(raw, "\\") then Skip
    else if raw == "" || raw[0] == ' ' then Body(true, true)
    else if raw[0] == '-' then Body(true, false)
    else if raw[0] == '+' then Body(false, true)
    else Bad("unknown hunk line marker")
  }

  /** A hunk line without its marker; an empty line is an empty context line. */
  function BodyOf(raw: string): string { if raw == "" then "" else raw[1..] }

  function Apply(r: Reader, kind: Kind, body: string): Result<Reader> {
    match kind
    case Close => Ok(r.(inHunk := false))
    case Open => Ok(r.(inHunk := true, seenHunk := true))
    case Skip => Ok(r)
    case Body(removed, added) =>
      Ok(r.(before := if removed then r.before + [body] else r.before,
            after := if added then r.after + [body] else r.after))
    case Bad(reason) => Error(reason)
  }

  /** One turn of the reading loop. */
  function ReadLine(r: Reader, raw: string): Result<Reader> {
    Apply(r, KindOf(raw, r.inHunk), BodyOf(raw))
  }

  /** The reader after all of `lines`, or the first line's error. */
  function ReadLines(lines: seq<string>): Result<Reader> {
    if lines == [] then Ok(START)
    else
      match ReadLines(lines[..|lines| - 1])
      case Error(e) => Error(e)
      case Ok(r) => ReadLine(r, lines[|lines| - 1])
  }

  /** The two sides as line lists; a text with no hunk at all is refused. */
  function Sides(lines: seq<string>): Result<(seq<string>, seq<string>)> {
    match ReadLines(lines)
    case Error(e) => Error(e)
    case Ok(r) => if r.seenHunk then Ok((r.before, r.after)) else Error("no hunks found")
  }

  lemma ReadAppended(lines: seq<string>, raw: string)
    ensures ReadLines(lines + [raw]) ==
            (if ReadLines(lines).Error? then ReadLines(lines) else ReadLine(ReadLines(lines).value, raw))
  {
    assert (lines + [raw])[..|lines|] == lines;
  }

  lemma {:induction false} ErrorsStay(lines: seq<string>, n: nat)
    requires n <= |lines| && ReadLines(lines[..n]).Error?
    ensures ReadLines(lines) == ReadLines(lines[..n])
  {
    if n == |lines| {
      assert lines[..n] == lines;
    } else {
      assert lines[..|lines| - 1][..n] == lines[..n];
      ErrorsStay(lines[..|lines| - 1], n);
    }
  }

  /** Reading line `i` after the first `i` lines; an error there is the answer for the whole list. */
  lemma ReadStep(lines: seq<string>, i: nat, kind: Kind)
    requires i < |lines| && ReadLines(lines[..i]).Ok?
    requires kind == KindOf(lines[i], ReadLines(lines[..i]).value.inHunk)
    ensures ReadLines(lines[..i + 1]) == Apply(ReadLines(lines[..i]).value, kind, BodyOf(lines[i]))
    ensures kind.Bad? ==> ReadLines(lines) == Error(kind.reason)
  {
    ReadAppended(lines[..i], lines[i]);
    assert lines[..i] + [lines[i]] == lines[..i + 1];
    if kind.Bad? { ErrorsStay(lines, i + 1); }
  }

  /** `parse_unified_diff`: one pass over the lines with the flags and lists of `Reader` as its variables. */
  method ParseUnifiedDiff(diffText: string) returns (r: Result<(string, string)>)
    ensures Sides(Split(diffText, '\n')).Ok? <==> r.Ok?
    ensures r.Ok? ==>
      var sides := Sides(Split(diffText, '\n')).value;
      r.value == (Join(sides.0, '\n'), Join(sides.1, '\n'))
    ensures r.Error? ==> r.reason == Sides(Split(diffText, '\n')).reason
  {
    var lines := Split(diffText, '\n');
    var before, after: seq<string>, inHunk, seenHunk := [], [], false, false;
    for i := 0 to |lines|
      invariant ReadLines(lines[..i]) == Ok(Reader(inHunk, seenHunk, before, after))
    {
      var kind, body := KindOf(lines[i], inHunk), BodyOf(lines[i]);
      ReadStep(lines, i, kind);
      match kind
      case Close =>
        inHunk := false;
      case Open =>
        inHunk := true;
        seenHunk := true;
      case Skip =>
      case Body(removed, added) =>
        if removed {
          before := before + [body];
        }
        if added {
          after := after + [body];
        }
      case Bad(reason) =>
        return Error(reason);
    }
    assert lines[..|lines|] == lines;
    if !seenHunk {
      return Error("no hunks found");
    }
    return Ok((Join(before, '\n'), Join(after, '\n')));
  }

  // ---- Reading back a rendered edit script ----

  datatype Edit = Keep(text: string) | Remove(text: string) | Add(text: string)

  /** A hunk to print: its header's numbers and its edits. */
  datatype Hunk = Hunk(header: HunkHeader.Header, edits: seq<Edit>)

  function RenderEdit(e: Edit): string {
    match e
    case Keep(t) => " " + t
    case Remove(t) => "-" + t
    case Add(t) => "+" + t
  }

  function RenderEdits(edits: seq<Edit>): seq<string> {
    if edits == [] then [] else RenderEdits(edits[..|edits| - 1]) + [RenderEdit(edits[|edits| - 1])]
  }

  /** A one-file diff: the file header pair, then every hunk header followed by its edits. */
  function Render(hunks: seq<Hunk>): seq<string> {
    if hunks == [] then ["--- a/PKGBUILD", "+++ b/PKGBUILD"]
    else
      var h := hunks[|hunks| - 1];
      Render(hunks[..|hunks| - 1]) + [HunkHeader.Render(h.header)] + RenderEdits(h.edits)
  }

  function OldOf(edits: seq<Edit>): seq<string> {
    if edits == [] then []
    else
      var e := edits[|edits| - 1];
      OldOf(edits[..|edits| - 1]) + (if e.Add? then [] else [e.text])
  }

  function NewOf(edits: seq<Edit>): seq<string> {
    if edits == [] then []
    else
      var e := edits[|edits| - 1];
      NewOf(edits[..|edits| - 1]) + (if e.Remove? then [] else [e.text])
  }

  function Edits(hunks: seq<Hunk>): seq<Edit> {
    if hunks == [] then [] else Edits(hunks[..|hunks| - 1]) + hunks[|hunks| - 1].edits
  }

  /** An edit whose printed line looks like a file header: `-` before "-- x", `+` before "++ x". */
  predicate Masquerades(e: Edit) {
    (e.Remove? && StartsWith(e.text, "-- ")) || (e.Add? && StartsWith(e.text, "++ "))
  }

  predicate Clean(edits: seq<Edit>) { forall e :: e in edits ==> !Masquerades(e) }

  /** A clean edit reads back as itself; a masquerading one closes the hunk and is lost. */
  lemma ReadEdit(r: Reader, e: Edit)
    ensures Masquerades(e) ==> ReadLine(r, RenderEdit(e)) == Ok(r.(inHunk := false))
    ensures r.inHunk && !Masquerades(e) ==>
      ReadLine(r, RenderEdit(e)) ==
        Ok(r.(before := r.before + (if e.Add? then [] else [e.text]),
              after := r.after + (if e.Remove? then [] else [e.text])))
  {
    var raw := RenderEdit(e);
    assert raw[1..] == e.text && raw[0] == (if e.Keep? then ' ' else if e.Remove? then '-' else '+');
    assert r.before + [] == r.before && r.after + [] == r.after;
    FirstCharacters(raw);
    assert StartsWith(raw, "--- ") <==> e.Remove? && StartsWith(e.text, "-- ") by {
      if e.Remove? { DropFirst(raw, "--- "); assert "--- "[1..] == "-- "; }
    }
    assert StartsWith(raw, "+++ ") <==> e.Add? && StartsWith(e.text, "++ ") by {
      if e.Add? { DropFirst(raw, "+++ "); assert "+++ "[1..] == "++ "; }
    }
  }

  lemma DropFirst(s: string, prefix: string)
    requires s != "" && prefix != ""
    ensures StartsWith(s, prefix) <==> s[0] == prefix[0] && StartsWith(s[1..], prefix[1..])
  {
    if s[0] == prefix[0] && StartsWith(s[1..], prefix[1..]) {
      assert s[..|prefix|] == [s[0]] + s[1..][..|prefix| - 1];
      assert prefix == [prefix[0]] + prefix[1..];
    }
    if StartsWith(s, prefix) {
      assert s[1..][..|prefix| - 1] == s[..|prefix|][1..];
    }
  }

  /** What the reader's prefix tests say about the first character of a line. */
  lemma FirstCharacters(raw: string)
    ensures StartsWith(raw, "--- ") ==> raw[0] == '-'
    ensures StartsWith(raw, "+++ ") ==> raw[0] == '+'
    ensures StartsWith(raw, "diff ") ==> raw[0] == 'd'
    ensures StartsWith(raw, "index ") ==> raw[0] == 'i'
    ensures StartsWith(raw, "@@") ==> raw[0] == '@'
    ensures StartsWith(raw, "\\") ==> raw[0] == '\\'
  {
    if raw != "" {
      DropFirst(raw, "--- ");
      DropFirst(raw, "+++ ");
      DropFirst(raw, "diff ");
      DropFirst(raw, "index ");
      DropFirst(raw, "@@");
      DropFirst(raw, "\\");
    }
  }

  lemma {:induction false} ReadCleanEdits(prefix: seq<string>, edits: seq<Edit>)
    requires ReadLines(prefix).Ok? && ReadLines(prefix).value.inHunk && Clean(edits)
    ensures
      var r := ReadLines(prefix).value;
      ReadLines(prefix + RenderEdits(edits)) ==
        Ok(r.(before := r.before + OldOf(edits), after := r.after + NewOf(edits)))
  {
    var r := ReadLines(prefix).value;
    if edits == [] {
      assert prefix + RenderEdits(edits) == prefix;
      assert r.before + [] == r.before && r.after + [] == r.after;
    } else {
      var n := |edits| - 1;
      ReadCleanEdits(prefix, edits[..n]);
      Assoc(prefix, RenderEdits(edits[..n]), [RenderEdit(edits[n])]);
      Assoc(r.before, OldOf(edits[..n]), if edits[n].Add? then [] else [edits[n].text]);
      Assoc(r.after, NewOf(edits[..n]), if edits[n].Remove? then [] else [edits[n].text]);
      ReadAppended(prefix + RenderEdits(edits[..n]), RenderEdit(edits[n]));
      ReadEdit(r.(before := r.before + OldOf(edits[..n]), after := r.after + NewOf(edits[..n])), edits[n]);
    }
  }

  lemma Assoc<T>(a: seq<T>, b: seq<T>, c: seq<T>)
    ensures a + (b + c) == a + b + c
  {
  }

  lemma {:induction false} ProjectionsAppend(a: seq<Edit>, b: seq<Edit>)
    ensures OldOf(a + b) == OldOf(a) + OldOf(b)
    ensures NewOf(a + b) == NewOf(a) + NewOf(b)
  {
    if b == [] {
      assert a + b == a;
    } else {
      var n := |b| - 1;
      assert (a + b)[..|a + b| - 1] == a + b[..n];
      ProjectionsAppend(a, b[..n]);
    }
  }

  lemma ReadHeader(r: Reader, raw: string)
    requires HunkHeader.Scan(raw).Some?
    ensures ReadLine(r, raw) == Ok(r.(inHunk := true, seenHunk := true))
  {
    HunkHeader.ScannedStartsWithAt(raw);
    FirstCharacters(raw);
  }

  lemma ReadRenderedHeader(r: Reader, h: HunkHeader.Header)
    ensures ReadLine(r, HunkHeader.Render(h)) == Ok(r.(inHunk := true, seenHunk := true))
  {
    HunkHeader.ScanOfRender(h);
    ReadHeader(r, HunkHeader.Render(h));
  }

  lemma {:induction false} ReadCleanRendering(hunks: seq<Hunk>)
    requires Clean(Edits(hunks))
    ensures ReadLines(Render(hunks)) == Ok(Reader(hunks != [], hunks != [], OldOf(Edits(hunks)), NewOf(Edits(hunks))))
  {
    if hunks == [] {
      var l := ["--- a/PKGBUILD", "+++ b/PKGBUILD"];
      assert l[..1] == ["--- a/PKGBUILD"] && l[..1][..0] == [];
      assert "--- a/PKGBUILD"[..4] == "--- " && "+++ b/PKGBUILD"[..4] == "+++ ";
      assert ReadLines(l[..1][..0]) == Ok(START);
      assert ReadLines(l[..1]) == Ok(START);
    } else {
      var n := |hunks| - 1;
      var h := hunks[n];
      forall e | e in Edits(hunks[..n]) || e in h.edits ensures !Masquerades(e) { assert e in Edits(hunks); }
      ReadCleanRendering(hunks[..n]);
      var lead := Render(hunks[..n]) + [HunkHeader.Render(h.header)];
      ReadAppended(Render(hunks[..n]), HunkHeader.Render(h.header));
      ReadRenderedHeader(ReadLines(Render(hunks[..n])).value, h.header);
      ReadCleanEdits(lead, h.edits);
      ProjectionsAppend(Edits(hunks[..n]), h.edits);
    }
  }

  /** No edit adds more to a side than its own projection does, and a masquerading one adds less. */
  lemma {:induction false} ReadAnyEdits(prefix: seq<string>, edits: seq<Edit>)
    requires ReadLines(prefix + RenderEdits(edits)).Ok?
    ensures ReadLines(prefix).Ok?
    ensures
      var r, r' := ReadLines(prefix).value, ReadLines(prefix + RenderEdits(edits)).value;
      && |r'.before| <= |r.before| + |OldOf(edits)| && |r'.after| <= |r.after| + |NewOf(edits)|
      && (!Clean(edits) ==>
            |r'.before| + |r'.after| < |r.before| + |OldOf(edits)| + |r.after| + |NewOf(edits)|)
  {
    if edits == [] {
      assert prefix + RenderEdits(edits) == prefix;
    } else {
      var n := |edits| - 1;
      var front := prefix + RenderEdits(edits[..n]);
      assert prefix + RenderEdits(edits) == front + [RenderEdit(edits[n])];
      ReadAppended(front, RenderEdit(edits[n]));
      ReadAnyEdits(prefix, edits[..n]);
      ReadEdit(ReadLines(front).value, edits[n]);
      if !ReadLines(front).value.inHunk {
        ReadOutside(ReadLines(front).value, edits[n]);
      }
      if !Clean(edits) && Clean(edits[..n]) {
        assert forall e :: e in edits ==> e in edits[..n] || e == edits[n];
      }
    }
  }

  lemma ReadOutside(r: Reader, e: Edit)
    requires !r.inHunk && ReadLine(r, RenderEdit(e)).Ok?
    ensures ReadLine(r, RenderEdit(e)).value.before == r.before
    ensures ReadLine(r, RenderEdit(e)).value.after == r.after
  {
  }

  lemma {:induction false} ReadAnyRendering(hunks: seq<Hunk>)
    requires ReadLines(Render(hunks)).Ok?
    ensures
      var r := ReadLines(Render(hunks)).value;
      && |r.before| <= |OldOf(Edits(hunks))| && |r.after| <= |NewOf(Edits(hunks))|
      && (!Clean(Edits(hunks)) ==> |r.before| + |r.after| < |OldOf(Edits(hunks))| + |NewOf(Edits(hunks))|)
  {
    if hunks == [] {
      ReadCleanRendering(hunks);
    } else {
      var n := |hunks| - 1;
      var h := hunks[n];
      var lead := Render(hunks[..n]) + [HunkHeader.Render(h.header)];
      ReadAnyEdits(lead, h.edits);
      ReadAppended(Render(hunks[..n]), HunkHeader.Render(h.header));
      ReadRenderedHeader(ReadLines(Render(hunks[..n])).value, h.header);
      ReadAnyRendering(hunks[..n]);
      ProjectionsAppend(Edits(hunks[..n]), h.edits);
      if !Clean(Edits(hunks)) && Clean(h.edits) {
        assert forall e :: e in Edits(hunks) ==> e in Edits(hunks[..n]) || e in h.edits;
      }
    }
  }

  /** Parsing a printed edit script returns its old and its new projection exactly when no removed line starts
      with "-- " and no added line with "++ ". */
  lemma RoundTripIffClean(hunks: seq<Hunk>)
    requires hunks != []
    ensures Sides(Render(hunks)) == Ok((OldOf(Edits(hunks)), NewOf(Edits(hunks)))) <==> Clean(Edits(hunks))
  {
    if Clean(Edits(hunks)) {
      ReadCleanRendering(hunks);
    } else if ReadLines(Render(hunks)).Ok? {
      ReadAnyRendering(hunks);
    }
  }

  ghost predicate Printable(h: Hunk) {
    '\n' !in HunkHeader.Render(h.header) && forall e :: e in h.edits ==> '\n' !in e.text
  }

  lemma {:induction false} RenderedEditsFree(edits: seq<Edit>)
    requires forall e :: e in edits ==> '\n' !in e.text
    ensures Free(RenderEdits(edits), '\n')
  {
    if edits != [] {
      RenderedEditsFree(edits[..|edits| - 1]);
      assert edits[|edits| - 1] in edits;
    }
  }

  lemma {:induction false} RenderingFree(hunks: seq<Hunk>)
    requires forall h :: h in hunks ==> Printable(h)
    ensures Free(Render(hunks), '\n') && Render(hunks) != []
  {
    if hunks != [] {
      RenderingFree(hunks[..|hunks| - 1]);
      assert Printable(hunks[|hunks| - 1]);
      RenderedEditsFree(hunks[|hunks| - 1].edits);
    }
  }

  /** The same round trip on text: what `ParseUnifiedDiff` answers on the joined lines of a printed script. */
  lemma TextRoundTrip(hunks: seq<Hunk>)
    requires hunks != [] && forall h :: h in hunks ==> Printable(h)
    ensures
      Sides(Split(Join(Render(hunks), '\n'), '\n')) == Ok((OldOf(Edits(hunks)), NewOf(Edits(hunks))))
      <==> Clean(Edits(hunks))
  {
    RenderingFree(hunks);
    SplitOfJoin(Render(hunks), '\n');
    RoundTripIffClean(hunks);
  }
}
