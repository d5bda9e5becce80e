/** `validators/behavior.py`: which lines are blanked, and what opens a heredoc, in terms of the text itself. */
module HeredocMeaning {
  import opened Text
  import opened Regions
  import opened Heredoc
  import opened Options

  // ---- Comments ----

  lemma {:induction false} CommentIff(line: string)
    ensures IsComment(line) <==>
      exists k :: 0 <= k < |line| && line[k] == '#' && forall j :: 0 <= j < k ==> IsSpace(line[j])
    decreases |line|
  {
    if line != "" {
      if IsSpace(line[0]) {
        var rest := line[1..];
        CommentIff(rest);
        assert forall j :: 0 < j < |line| ==> line[j] == rest[j - 1];
        if k :| 0 <= k < |rest| && rest[k] == '#' && forall j :: 0 <= j < k ==> IsSpace(rest[j]) {
          assert line[k + 1] == '#';
        }
      } else if line[0] == '#' {
        assert line[..1] == "#";
      }
    }
  }

  /** A comment line becomes blank, and every other line stays. */
  lemma {:induction false} UncommentedIs(lines: seq<string>)
    ensures |WithoutComments(lines)| == |lines|
    ensures forall i :: 0 <= i < |lines| ==> WithoutComments(lines)[i] == if IsComment(lines[i]) then "" else lines[i]
  {
    if lines != [] { UncommentedIs(lines[1..]); }
  }

  // ---- Heredoc bodies ----

  lemma {:induction false} LstrippedIs(line: string) returns (n: nat)
    ensures n <= |line| && Lstripped(line) == line[n..] && forall i :: 0 <= i < n ==> IsSpace(line[i])
    ensures n < |line| ==> !IsSpace(line[n])
    decreases |line|
  {
    n := 0;
    if line != "" && IsSpace(line[0]) {
      var m := LstrippedIs(line[1..]);
      n := m + 1;
    }
  }

  lemma {:induction false} RstrippedIs(line: string) returns (n: nat)
    ensures n <= |line| && Rstripped(line) == line[..n] && forall i :: n <= i < |line| ==> IsSpace(line[i])
    ensures n > 0 ==> !IsSpace(line[n - 1])
    decreases |line|
  {
    n := |line|;
    if line != "" && IsSpace(line[n - 1]) {
      n := RstrippedIs(line[..n - 1]);
    }
  }

  /** Stripping takes the white space off both ends and nothing else. */
  lemma StrippedIs(line: string) returns (a: nat, b: nat)
    ensures a <= b <= |line| && Stripped(line) == line[a..b]
    ensures forall i :: 0 <= i < a || b <= i < |line| ==> IsSpace(line[i])
    ensures a < b ==> !IsSpace(line[a]) && !IsSpace(line[b - 1])
  {
    a := LstrippedIs(line);
    var n := RstrippedIs(line[a..]);
    b := a + n;
    assert line[a..][..n] == line[a..b];
    forall i | b <= i < |line| ensures IsSpace(line[i]) { assert line[i] == line[a..][i - a]; }
  }

  /** The heredoc open before line `i`. */
  function OpenAt(lines: seq<string>, i: nat, opens: string -> seq<string>): Option<string>
    requires i <= |lines|
  {
    if i == 0 then None else After(OpenAt(lines, i - 1, opens), lines[i - 1], opens)
  }

  lemma {:induction false} BlankedAre(lines: seq<string>, n: nat, opens: string -> seq<string>)
    requires n <= |lines|
    ensures
      var out := BlankInside(OpenAt(lines, n, opens), lines[n..], opens);
      |out| == |lines| - n &&
      forall i :: n <= i < |lines| ==> out[i - n] == if OpenAt(lines, i, opens).Some? then "" else lines[i]
    decreases |lines| - n
  {
    hide After;
    if n < |lines| {
      BlankedAre(lines, n + 1, opens);
      assert lines[n..][0] == lines[n] && lines[n..][1..] == lines[n + 1..];
      assert OpenAt(lines, n + 1, opens) == After(OpenAt(lines, n, opens), lines[n], opens);
      var out, rest := BlankInside(OpenAt(lines, n, opens), lines[n..], opens), BlankInside(OpenAt(lines, n + 1, opens), lines[n + 1..], opens);
      assert out == [if OpenAt(lines, n, opens).Some? then "" else lines[n]] + rest;
      hide BlankInside, OpenAt;
      forall i | n < i < |lines| ensures out[i - n] == if OpenAt(lines, i, opens).Some? then "" else lines[i] {
        assert out[i - n] == rest[i - (n + 1)];
      }
    }
  }

  /** Line `j` is outside and opens `d` last, and no line between it and `i` is `d`. */
  ghost predicate OpenedBy(lines: seq<string>, j: nat, i: nat, d: string, opens: string -> seq<string>)
    requires j < i <= |lines|
  {
    var ds := opens(lines[j]);
    && OpenAt(lines, j, opens).None? && ds != [] && d == ds[|ds| - 1]
    && forall k :: j < k < i ==> Stripped(lines[k]) != d
  }

  lemma {:induction false} OpenIff(lines: seq<string>, i: nat, d: string, opens: string -> seq<string>)
    requires i <= |lines|
    ensures OpenAt(lines, i, opens) == Some(d) <==> exists j :: 0 <= j < i && OpenedBy(lines, j, i, d, opens)
  {
    hide Stripped;
    if i > 0 {
      OpenIff(lines, i - 1, d, opens);
      var before, line := OpenAt(lines, i - 1, opens), lines[i - 1];
      if OpenAt(lines, i, opens) == Some(d) {
        if before.Some? {
          var j :| 0 <= j < i - 1 && OpenedBy(lines, j, i - 1, d, opens);
          assert OpenedBy(lines, j, i, d, opens);
        } else {
          assert OpenedBy(lines, i - 1, i, d, opens);
        }
      }
      if j :| 0 <= j < i && OpenedBy(lines, j, i, d, opens) {
        if j < i - 1 { assert OpenedBy(lines, j, i - 1, d, opens); }
      }
    }
  }

  /** Line `j` is kept and opens a heredoc that no line between it and `i` ends; the last delimiter it opens is the one. */
  ghost predicate Covers(lines: seq<string>, out: seq<string>, j: nat, i: nat, opens: string -> seq<string>)
    requires j < i <= |lines| == |out|
  {
    var ds := opens(lines[j]);
    && out[j] == lines[j] && ds != []
    && forall k :: j < k < i ==> Stripped(lines[k]) != ds[|ds| - 1]
  }

  /** `out` keeps the lines outside heredocs and blanks the others. */
  ghost predicate KeepsOutside(lines: seq<string>, out: seq<string>, opens: string -> seq<string>) {
    && |out| == |lines|
    && forall i :: 0 <= i < |lines| ==> out[i] == if OpenAt(lines, i, opens).Some? then "" else lines[i]
  }

  lemma OpenedIsCovers(lines: seq<string>, out: seq<string>, j: nat, i: nat, d: string, opens: string -> seq<string>)
    requires KeepsOutside(lines, out, opens) && j < i <= |lines| && OpenedBy(lines, j, i, d, opens)
    ensures Covers(lines, out, j, i, opens)
  {
    hide Stripped, OpenAt;
  }

  lemma CoversIsOpened(lines: seq<string>, out: seq<string>, j: nat, i: nat, opens: string -> seq<string>)
    requires Sensible(opens) && KeepsOutside(lines, out, opens) && j < i <= |lines| && Covers(lines, out, j, i, opens)
    ensures OpenedBy(lines, j, i, opens(lines[j])[|opens(lines[j])| - 1], opens)
  {
    hide Stripped, OpenAt;
    assert lines[j] != "";
  }

  /** A line that is not blank is blanked exactly when a line before it, itself kept, opens a heredoc not ended in between. */
  lemma BlankedIff(lines: seq<string>, i: nat, opens: string -> seq<string>)
    requires Sensible(opens) && i < |lines| && lines[i] != ""
    ensures
      var out := WithoutHeredocs(lines, opens);
      |out| == |lines| && (out[i] == "" <==> exists j :: 0 <= j < i && Covers(lines, out, j, i, opens))
      && (out[i] != "" ==> out[i] == lines[i])
  {
    var out := WithoutHeredocs(lines, opens);
    assert KeepsOutside(lines, out, opens) by {
      assert lines[0..] == lines && OpenAt(lines, 0, opens) == None;
      hide After, BlankInside, OpenAt;
      BlankedAre(lines, 0, opens);
    }
    assert out[i] == (if OpenAt(lines, i, opens).Some? then "" else lines[i]) && |out| == |lines|;
    hide *;
    if OpenAt(lines, i, opens).Some? {
      var d := OpenAt(lines, i, opens).value;
      OpenIff(lines, i, d, opens);
      var j :| 0 <= j < i && OpenedBy(lines, j, i, d, opens);
      OpenedIsCovers(lines, out, j, i, d, opens);
    }
    if j :| 0 <= j < i && Covers(lines, out, j, i, opens) {
      CoversIsOpened(lines, out, j, i, opens);
      OpenIff(lines, i, opens(lines[j])[|opens(lines[j])| - 1], opens);
    }
  }

  // ---- What opens a heredoc ----

  /** Text with neither quotes nor `<` nor `#` opens nothing and changes nothing. */
  lemma {:induction false} PlainOpensNothing(line: string, i: nat, n: nat)
    requires i <= n <= |line| && forall k :: i <= k < n ==> !IsQuote(line[k]) && line[k] != '<' && line[k] != '#'
    ensures Opened(line, i, None) == Opened(line, n, None)
    decreases n - i
  {
    hide Delimiter, StartsAt;
    if i < n {
      PlainOpensNothing(line, i + 1, n);
      NoOpener(line, i);
    }
  }

  lemma NoOpener(line: string, i: nat)
    requires i < |line| && line[i] != '<'
    ensures !StartsAt(line, i, "<<") && !StartsAt(line, i, "<<<")
  {
    if i + 2 <= |line| { assert line[i..i + 2][0] == line[i]; }
    if i + 3 <= |line| { assert line[i..i + 3][0] == line[i]; }
  }

  lemma {:induction false} SkipsSpace(line: string, i: nat, n: nat)
    requires i <= n <= |line| && (forall k :: i <= k < n ==> IsSpace(line[k])) && (n < |line| ==> !IsSpace(line[n]))
    ensures SkipSpace(line, i) == n
    decreases n - i
  {
    if i < n { SkipsSpace(line, i + 1, n); }
  }

  lemma {:induction false} SkipsWord(line: string, i: nat, n: nat)
    requires i <= n <= |line| && (forall k :: i <= k < n ==> IsWord(line[k])) && (n < |line| ==> !IsWord(line[n]))
    ensures SkipWord(line, i) == n
    decreases n - i
  {
    if i < n { SkipsWord(line, i + 1, n); }
  }

  /** At `i` stands `<<`, perhaps a dash, white space up to `b`, and something that is none of these at `b`. */
  predicate Opener(line: string, i: nat, b: nat) {
    && i + 2 <= b < |line| && line[i] == '<' && line[i + 1] == '<'
    && (line[i + 2] == '-' || b == i + 2 || IsSpace(line[i + 2])) && (forall k :: i + 2 < k < b ==> IsSpace(line[k]))
    && !IsSpace(line[b]) && line[b] != '-' && line[b] != '<'
  }

  lemma OpenerStarts(line: string, i: nat, b: nat)
    requires Opener(line, i, b)
    ensures StartsAt(line, i, "<<") && !StartsAt(line, i, "<<<")
    ensures
      var a := if line[i + 2] == '-' then i + 3 else i + 2;
      a <= b && SkipSpace(line, a) == b
  {
    assert line[i..i + 2] == "<<";
    if i + 3 <= |line| { assert line[i..i + 3][2] == line[i + 2]; }
    SkipsSpace(line, if line[i + 2] == '-' then i + 3 else i + 2, b);
  }

  /** A bare word behind the opener is the delimiter, up to the end of the word, and the scan goes on behind it. */
  lemma WordOpens(line: string, i: nat, b: nat, e: nat)
    requires Opener(line, i, b) && b < e <= |line| && (forall k :: b <= k < e ==> IsWord(line[k])) && (e < |line| ==> !IsWord(line[e]))
    ensures Opened(line, i, None) == [line[b..e]] + Opened(line, e, None)
  {
    OpenerStarts(line, i, b);
    SkipsWord(line, b, e);
    assert Delimiter(line, i) == (line[b..e], e);
  }

  /** A quoted delimiter is everything up to the closing quote, and the scan goes on behind that. */
  lemma QuotedOpens(line: string, i: nat, b: nat, e: nat)
    requires Opener(line, i, b) && b + 1 < e < |line| && IsQuote(line[b]) && line[e] == line[b]
    requires forall k :: b < k < e ==> line[k] != line[b]
    ensures Opened(line, i, None) == [line[b + 1..e]] + Opened(line, e + 1, None)
  {
    OpenerStarts(line, i, b);
    assert FindQuote(line, b + 1, line[b]) == e;
    assert Delimiter(line, i) == (line[b + 1..e], e + 1);
  }

  /** A here-string opens nothing. */
  lemma HereStringOpensNothing(line: string, i: nat)
    requires i + 3 <= |line| && line[i] == '<' && line[i + 1] == '<' && line[i + 2] == '<'
    ensures Opened(line, i, None) == Opened(line, i + 3, None)
  {
    assert line[i..i + 3] == "<<<";
  }

  /** Nor does anything behind a comment sign that starts a word. */
  lemma CommentOpensNothing(line: string, i: nat)
    requires i < |line| && line[i] == '#' && (i == 0 || IsSpace(line[i - 1]))
    ensures Opened(line, i, None) == []
  {
  }

  /** A sign inside a word is no comment. */
  lemma SharpInWord(line: string, i: nat)
    requires 0 < i < |line| && line[i] == '#' && !IsSpace(line[i - 1])
    ensures Opened(line, i, None) == Opened(line, i + 1, None)
  {
    NoOpener(line, i);
  }

  /** A quote hides what follows, up to its closing one; in double quotes a backslash hides the character behind it. */
  lemma QuoteHides(line: string, i: nat, j: nat)
    requires i < j < |line| && IsQuote(line[i]) && line[j] == line[i]
    requires forall k :: i < k < j ==> line[k] != line[i] && (line[i] == '"' ==> line[k] != '\\')
    ensures Opened(line, i, None) == Opened(line, j + 1, None)
  {
    Hidden(line, i + 1, j, line[i]);
  }

  lemma {:induction false} Hidden(line: string, i: nat, j: nat, q: char)
    requires i <= j < |line| && line[j] == q && IsQuote(q)
    requires forall k :: i <= k < j ==> line[k] != q && (q == '"' ==> line[k] != '\\')
    ensures Opened(line, i, Some(q)) == Opened(line, j + 1, None)
    decreases j - i
  {
    if i < j { Hidden(line, i + 1, j, q); }
  }

  /** Two heredocs on one line: the first delimiter is listed first, and it is the second one that has to end the body. */
  lemma LastOpenerCounts(line: string, first: string, second: string)
    requires Delimiters(line) == [first, second] && first != second && Stripped(first) == first && Stripped(second) == second
    requires first != "" && second != ""
    ensures WithoutHeredocs([line, first, second, first], Delimiters) == [line, "", "", first]
  {
    var lines := [line, first, second, first];
    assert lines[1..] == [first, second, first] && [first, second, first][1..] == [second, first] && [second, first][1..] == [first];
    assert BlankInside(None, [first], Delimiters) == [first] + BlankInside(After(None, first, Delimiters), [], Delimiters);
    assert BlankInside(Some(second), [second, first], Delimiters) == [""] + BlankInside(None, [first], Delimiters);
    assert BlankInside(Some(second), [first, second, first], Delimiters) == [""] + BlankInside(Some(second), [second, first], Delimiters);
  }
}
