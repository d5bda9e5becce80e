/** `validators/behavior.py`: comments and heredoc bodies blanked line by line, with the scan for what opens a heredoc. */
module Heredoc {
  import opened Text
  import opened Regions
  import opened Options

  // ---- What a line opens ----

  predicate IsQuote(c: char) { c == '\'' || c == '"' }

  predicate StartsAt(line: string, i: nat, p: string) { i + |p| <= |line| && line[i..i + |p|] == p }

  function SkipSpace(line: string, i: nat): (j: nat)
    requires i <= |line|
    ensures i <= j <= |line|
    decreases |line| - i
  {
    if i < |line| && IsSpace(line[i]) then SkipSpace(line, i + 1) else i
  }

  function SkipWord(line: string, i: nat): (j: nat)
    requires i <= |line|
    ensures i <= j <= |line|
    decreases |line| - i
  {
    if i < |line| && IsWord(line[i]) then SkipWord(line, i + 1) else i
  }

  function FindQuote(line: string, i: nat, q: char): (j: nat)
    requires i <= |line|
    ensures i <= j <= |line| && (j < |line| ==> line[j] == q) && forall k :: i <= k < j ==> line[k] != q
    decreases |line| - i
  {
    if i < |line| && line[i] != q then FindQuote(line, i + 1, q) else i
  }

  /** Behind a `<<` at `i`: the delimiter, quoted or a word, and where it ends. */
  function Delimiter(line: string, i: nat): (d: (string, nat))
    requires i + 2 <= |line|
    ensures i < d.1
  {
    var a := if i + 2 < |line| && line[i + 2] == '-' then i + 3 else i + 2;
    var b := SkipSpace(line, a);
    if b < |line| && IsQuote(line[b]) then
      var e := FindQuote(line, b + 1, line[b]);
      (line[b + 1..e], e + 1)
    else
      var e := SkipWord(line, b);
      (line[b..e], e)
  }

  /** The delimiters opened from position `i` on, inside the quote `q` if there is one. */
  function Opened(line: string, i: nat, q: Option<char>): (found: seq<string>)
    ensures forall d :: d in found ==> d != ""
    decreases |line| - i
  {
    if i >= |line| then []
    else if q.Some? then
      if line[i] == '\\' && q.value == '"' then Opened(line, i + 2, q)
      else Opened(line, i + 1, if line[i] == q.value then None else q)
    else if IsQuote(line[i]) then Opened(line, i + 1, Some(line[i]))
    else if line[i] == '#' && (i == 0 || IsSpace(line[i - 1])) then []
    else if StartsAt(line, i, "<<<") then Opened(line, i + 3, None)
    else if StartsAt(line, i, "<<") then
      var (d, e) := Delimiter(line, i);
      if d != "" then [d] + Opened(line, e, None) else Opened(line, i + 1, None)
    else Opened(line, i + 1, None)
  }

  function Delimiters(line: string): seq<string> { Opened(line, 0, None) }

  /** A quoted stretch opens nothing: the scan goes on behind its closing quote as if it were not there. */
  lemma {:induction false} QuotedOpensNothing(line: string, i: nat, j: nat, q: char)
    requires i <= j < |line| && line[j] == q
    requires forall k :: i <= k < j ==> line[k] != q && line[k] != '\\'
    ensures Opened(line, i, Some(q)) == Opened(line, j + 1, None)
    decreases j - i
  {
    if i < j {
      QuotedOpensNothing(line, i + 1, j, q);
    }
  }

  /** A quote left open to the end of the line opens nothing either. */
  lemma {:induction false} UnclosedOpensNothing(line: string, i: nat, q: char)
    requires forall k :: i <= k < |line| ==> line[k] != q
    ensures Opened(line, i, Some(q)) == []
    decreases |line| - i
  {
    if i < |line| {
      if line[i] == '\\' && q == '"' {
        UnclosedOpensNothing(line, i + 2, q);
      } else {
        UnclosedOpensNothing(line, i + 1, q);
      }
    }
  }

  lemma OpenedAt(line: string, i: nat, found: seq<string>)
    requires i < |line|
    ensures
      var rest := Opened(line, i, None);
      && (StartsAt(line, i, "<<") && !StartsAt(line, i, "<<<") && !IsQuote(line[i]) && line[i] != '#' ==>
            found + rest ==
            if Delimiter(line, i).0 != "" then (found + [Delimiter(line, i).0]) + Opened(line, Delimiter(line, i).1, None)
            else found + Opened(line, i + 1, None))
  {
    if StartsAt(line, i, "<<") && Delimiter(line, i).0 != "" {
      var d := Delimiter(line, i);
      assert found + ([d.0] + Opened(line, d.1, None)) == (found + [d.0]) + Opened(line, d.1, None);
    }
  }

  /** `_heredoc_delimiters`: one pass with an index and the quote it is in. */
  method HeredocDelimiters(line: string) returns (found: seq<string>)
    ensures found == Delimiters(line)
  {
    found := [];
    var quote: Option<char> := None;
    var index := 0;
    while index < |line|
      invariant Delimiters(line) == found + Opened(line, index, quote)
      decreases |line| - index
    {
      var c := line[index];
      if quote.Some? {
        if c == '\\' && quote.value == '"' {
          index := index + 2;
        } else {
          if c == quote.value { quote := None; }
          index := index + 1;
        }
      } else if IsQuote(c) {
        quote, index := Some(c), index + 1;
      } else if c == '#' && (index == 0 || IsSpace(line[index - 1])) {
        assert found + [] == found;
        return;
      } else if StartsAt(line, index, "<<<") {
        index := index + 3;
      } else if StartsAt(line, index, "<<") {
        SharpIsNoOpener(line, index);
        OpenedAt(line, index, found);
        var (d, cursor) := Delimiter(line, index);
        if d != "" {
          found, index := found + [d], cursor;
        } else {
          index := index + 1;
        }
      } else {
        index := index + 1;
      }
    }
    assert found + [] == found;
  }

  lemma SharpIsNoOpener(line: string, i: nat)
    requires i < |line| && StartsAt(line, i, "<<")
    ensures line[i] == '<' && !IsQuote(line[i]) && line[i] != '#'
  {
    assert line[i..i + 2][0] == '<';
  }

  // ---- Blanking, line by line ----

  function Lstripped(line: string): string
    decreases |line|
  {
    if line != "" && IsSpace(line[0]) then Lstripped(line[1..]) else line
  }

  function Stripped(line: string): string
    decreases |line|
  {
    var l := Lstripped(line);
    Rstripped(l)
  }

  function Rstripped(line: string): string
    decreases |line|
  {
    if line != "" && IsSpace(line[|line| - 1]) then Rstripped(line[..|line| - 1]) else line
  }

  predicate IsComment(line: string) { StartsWith(Lstripped(line), "#") }

  function WithoutComments(lines: seq<string>): seq<string> {
    if lines == [] then [] else [if IsComment(lines[0]) then "" else lines[0]] + WithoutComments(lines[1..])
  }

  function Last(ds: seq<string>): Option<string> { if ds == [] then None else Some(ds[|ds| - 1]) }

  /** The heredoc a line leaves open: the last it opens, or the one it was in unless the line ends it. */
  function After(pending: Option<string>, line: string, opens: string -> seq<string>): Option<string> {
    if pending.Some? then (if Stripped(line) == pending.value then None else pending) else Last(opens(line))
  }

  /** Lines inside a heredoc, its last line included, are blanked. */
  function BlankInside(pending: Option<string>, lines: seq<string>, opens: string -> seq<string>): seq<string>
    decreases |lines|
  {
    if lines == [] then []
    else [if pending.Some? then "" else lines[0]] + BlankInside(After(pending, lines[0], opens), lines[1..], opens)
  }

  function WithoutHeredocs(lines: seq<string>, opens: string -> seq<string>): seq<string> { BlankInside(None, lines, opens) }

  /** Every line stays where it is, as it was or blank. */
  lemma {:induction false} BlankedKeepsPlaces(pending: Option<string>, lines: seq<string>, opens: string -> seq<string>)
    ensures |BlankInside(pending, lines, opens)| == |lines|
    ensures forall i :: 0 <= i < |lines| ==> BlankInside(pending, lines, opens)[i] in {lines[i], ""}
    decreases |lines|
  {
    if lines != [] {
      BlankedKeepsPlaces(After(pending, lines[0], opens), lines[1..], opens);
    }
  }

  /** Delimiters are words; an empty line opens nothing. */
  ghost predicate Sensible(opens: string -> seq<string>) {
    opens("") == [] && forall l, d :: d in opens(l) ==> d != ""
  }

  lemma DelimitersSensible()
    ensures Sensible(Delimiters)
  {
  }

  predicate Blank(lines: seq<string>) { forall l :: l in lines ==> l == "" }

  lemma BlankCons(line: string, lines: seq<string>)
    ensures Blank([line] + lines) <==> line == "" && Blank(lines)
  {
    var all := [line] + lines;
    assert line in all;
    forall l | l in lines ensures l in all {}
  }

  /** Inside a heredoc only blank lines survive, and they never end it. */
  lemma {:induction false} InsideStaysIff(pending: string, lines: seq<string>, opens: string -> seq<string>)
    requires pending != ""
    ensures BlankInside(Some(pending), lines, opens) == lines <==> Blank(lines)
    decreases |lines|
  {
    if lines != [] {
      var rest := lines[1..];
      InsideStaysIff(pending, rest, opens);
      assert lines == [lines[0]] + rest;
      BlankCons(lines[0], rest);
      assert lines[0] == "" ==> Stripped(lines[0]) == "";
    }
  }

  /** The lines behind the first one that opens a heredoc. */
  function BehindFirstOpener(lines: seq<string>, opens: string -> seq<string>): seq<string> {
    if lines == [] then [] else if opens(lines[0]) != [] then lines[1..] else BehindFirstOpener(lines[1..], opens)
  }

  /** Blanking leaves a text alone exactly when nothing but blank lines follows its first opener. */
  lemma {:induction false} StaysIff(lines: seq<string>, opens: string -> seq<string>)
    requires Sensible(opens)
    ensures WithoutHeredocs(lines, opens) == lines <==> Blank(BehindFirstOpener(lines, opens))
  {
    if lines != [] {
      var ds, rest := opens(lines[0]), lines[1..];
      assert lines == [lines[0]] + rest;
      if ds != [] {
        assert ds[|ds| - 1] in ds;
        InsideStaysIff(ds[|ds| - 1], rest, opens);
      } else {
        StaysIff(rest, opens);
      }
    }
  }

  /** The lines behind the one that ends the heredoc `d`; none if it never ends. */
  function BehindEnd(d: string, lines: seq<string>): seq<string> {
    if lines == [] then [] else if Stripped(lines[0]) == d then lines[1..] else BehindEnd(d, lines[1..])
  }

  /** The lines behind the first heredoc: none if no heredoc opens, or the first one never ends. */
  function BehindFirstHeredoc(lines: seq<string>, opens: string -> seq<string>): seq<string> {
    if lines == [] then []
    else if opens(lines[0]) != [] then BehindEnd(opens(lines[0])[|opens(lines[0])| - 1], lines[1..])
    else BehindFirstHeredoc(lines[1..], opens)
  }

  /** Outside a heredoc the first line that is not blank survives. */
  lemma {:induction false} OutsideBlankIff(lines: seq<string>, opens: string -> seq<string>)
    requires Sensible(opens)
    ensures Blank(BlankInside(None, lines, opens)) <==> Blank(lines)
  {
    if lines != [] {
      var rest := lines[1..];
      assert lines == [lines[0]] + rest;
      BlankCons(lines[0], rest);
      BlankCons(lines[0], BlankInside(After(None, lines[0], opens), rest, opens));
      if lines[0] == "" {
        OutsideBlankIff(rest, opens);
      }
    }
  }

  lemma {:induction false} InsideBlankIff(d: string, lines: seq<string>, opens: string -> seq<string>)
    requires Sensible(opens)
    ensures Blank(BlankInside(Some(d), lines, opens)) <==> Blank(BehindEnd(d, lines))
  {
    if lines != [] {
      var rest := lines[1..];
      BlankCons("", BlankInside(After(Some(d), lines[0], opens), rest, opens));
      if Stripped(lines[0]) == d {
        OutsideBlankIff(rest, opens);
      } else {
        InsideBlankIff(d, rest, opens);
      }
    }
  }

  /** What the first blanking leaves behind the first opener is blank exactly when the text behind its heredoc is. */
  lemma {:induction false} BehindOpenerIff(lines: seq<string>, opens: string -> seq<string>)
    requires Sensible(opens)
    ensures Blank(BehindFirstOpener(WithoutHeredocs(lines, opens), opens)) <==> Blank(BehindFirstHeredoc(lines, opens))
  {
    if lines != [] {
      var ds, rest := opens(lines[0]), lines[1..];
      var behind := BlankInside(Last(ds), rest, opens);
      assert WithoutHeredocs(lines, opens) == [lines[0]] + behind;
      assert ([lines[0]] + behind)[1..] == behind;
      if ds != [] {
        InsideBlankIff(ds[|ds| - 1], rest, opens);
      } else {
        BehindOpenerIff(rest, opens);
      }
    }
  }

  /**
   * Blanking twice is blanking once exactly when nothing but blank lines follows the first heredoc: the line that ended
   * it has been blanked with it, so the second time its opener swallows the rest of the text.
   */
  lemma TwiceIsOnceIff(lines: seq<string>, opens: string -> seq<string>)
    requires Sensible(opens)
    ensures
      var once := WithoutHeredocs(lines, opens);
      WithoutHeredocs(once, opens) == once <==> Blank(BehindFirstHeredoc(lines, opens))
  {
    StaysIff(WithoutHeredocs(lines, opens), opens);
    BehindOpenerIff(lines, opens);
  }

  /** Both conditions for the program's own scan for openers. */
  lemma StrippedTextStaysIff(lines: seq<string>)
    ensures WithoutHeredocs(lines, Delimiters) == lines <==> Blank(BehindFirstOpener(lines, Delimiters))
    ensures
      var once := WithoutHeredocs(lines, Delimiters);
      WithoutHeredocs(once, Delimiters) == once <==> Blank(BehindFirstHeredoc(lines, Delimiters))
  {
    DelimitersSensible();
    StaysIff(lines, Delimiters);
    TwiceIsOnceIff(lines, Delimiters);
  }

  lemma CatOpens()
    ensures Delimiters("cat <<E") == ["E"]
  {
    var line := "cat <<E";
    assert line[4..6] == "<<" && line[4..7] == "<<E" && line[6..7] == "E";
    assert SkipWord(line, 7) == 7 && SkipWord(line, 6) == 7 && SkipSpace(line, 6) == 6;
    assert Delimiter(line, 4) == ("E", 7);
    assert Opened(line, 4, None) == ["E"];
    assert Opened(line, 3, None) == ["E"] by { assert line[3] == ' ' && line[3..5][0] == ' '; }
    assert Opened(line, 2, None) == ["E"] by { assert line[2] == 't' && line[2..4][0] == 't'; }
    assert Opened(line, 1, None) == ["E"] by { assert line[1] == 'a' && line[1..3][0] == 'a'; }
    assert line[0] == 'c' && line[0..2][0] == 'c';
  }

  /** A text whose last command is lost when it is blanked a second time. */
  lemma SecondBlankingLosesCommand()
    ensures
      var lines := ["cat <<E", "E", "ls"];
      var once := WithoutHeredocs(lines, Delimiters);
      once == ["cat <<E", "", "ls"] && WithoutHeredocs(once, Delimiters) == ["cat <<E", "", ""]
  {
    CatOpens();
    EndsAndReopens("cat <<E", "E", "ls", Delimiters);
  }

  lemma EndsAndReopens(open: string, end: string, next: string, opens: string -> seq<string>)
    requires opens(open) == [end] && Stripped(end) == end && end != "" && Stripped(next) != end
    ensures WithoutHeredocs([open, end, next], opens) == [open, "", next]
    ensures WithoutHeredocs([open, "", next], opens) == [open, "", ""]
  {
    assert [open, end, next][1..] == [end, next] && [end, next][1..] == [next] && [next][1..] == [];
    assert [open, "", next][1..] == ["", next] && ["", next][1..] == [next];
    assert BlankInside(None, [next], opens) == [next] + BlankInside(Last(opens(next)), [], opens);
    assert BlankInside(Some(end), [end, next], opens) == [""] + BlankInside(None, [next], opens);
    assert BlankInside(Some(end), [next], opens) == [""] + BlankInside(Some(end), [], opens);
    assert BlankInside(Some(end), ["", next], opens) == [""] + BlankInside(Some(end), [next], opens);
  }

  // ---- The loops ----

  lemma BlankedAt(front: seq<string>, pending: Option<string>, lines: seq<string>, k: nat, opens: string -> seq<string>)
    requires k < |lines|
    ensures front + BlankInside(pending, lines[k..], opens) ==
      (front + [if pending.Some? then "" else lines[k]]) + BlankInside(After(pending, lines[k], opens), lines[k + 1..], opens)
  {
    assert lines[k..][0] == lines[k] && lines[k..][1..] == lines[k + 1..];
  }

  /** `_strip_heredoc_bodies` on the lines of a text. */
  method StripHeredocBodies(lines: seq<string>) returns (kept: seq<string>)
    ensures kept == WithoutHeredocs(lines, Delimiters)
  {
    kept := [];
    var pending: Option<string> := None;
    var k := 0;
    assert lines[0..] == lines && [] + BlankInside(None, lines, Delimiters) == BlankInside(None, lines, Delimiters);
    while k < |lines|
      invariant 0 <= k <= |lines|
      invariant WithoutHeredocs(lines, Delimiters) == kept + BlankInside(pending, lines[k..], Delimiters)
    {
      var line := lines[k];
      BlankedAt(kept, pending, lines, k, Delimiters);
      k := k + 1;
      if pending.Some? {
        if Stripped(line) == pending.value { pending := None; }
        kept := kept + [""];
        continue;
      }
      kept := kept + [line];
      var delimiters := HeredocDelimiters(line);
      if delimiters != [] { pending := Some(delimiters[|delimiters| - 1]); }
    }
    assert kept + [] == kept;
  }

  /** `_strip_comments` on the lines of a text. */
  method StripComments(lines: seq<string>) returns (kept: seq<string>)
    ensures kept == WithoutComments(lines)
  {
    kept := [];
    var k := 0;
    assert lines[0..] == lines && [] + WithoutComments(lines) == WithoutComments(lines);
    while k < |lines|
      invariant 0 <= k <= |lines|
      invariant WithoutComments(lines) == kept + WithoutComments(lines[k..])
    {
      assert lines[k..][0] == lines[k] && lines[k..][1..] == lines[k + 1..];
      kept := kept + [if IsComment(lines[k]) then "" else lines[k]];
      k := k + 1;
    }
    assert kept + [] == kept;
  }
}
