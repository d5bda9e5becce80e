/** `harness/fp_report.py` and `harness/minimize.py`: the tests on single lines, as the shapes of lines they accept. */
module LineTests {
  import opened Text
  import opened HunkGrammar
  import D = DiffLanguage
  import Minimize

  ghost predicate All(s: string, p: char -> bool) { forall c :: c in s ==> p(c) }

  lemma {:induction false} RunIs(a: string, b: string, p: char -> bool)
    requires All(a, p) && (b == "" || !p(b[0]))
    ensures Run(a + b, p) == |a|
  {
    if a == "" {
      assert a + b == b;
    } else {
      assert a[0] in a;
      assert (a + b)[1..] == a[1..] + b;
      RunIs(a[1..], b, p);
    }
  }

  lemma {:induction false} RunStops(s: string, p: char -> bool)
    ensures
      var n := Run(s, p);
      All(s[..n], p) && (n < |s| ==> !p(s[n]))
  {
    if s != "" && p(s[0]) {
      RunStops(s[1..], p);
      var n := Run(s[1..], p);
      assert s[..n + 1] == [s[0]] + s[1..][..n];
    }
  }

  /** A name without white space, then nothing or a tab and anything. */
  ghost predicate NameAndTail(s: string, name: string, tail: string) {
    s == name + tail && name != "" && All(name, c => !IsSpace(c)) && (tail == "" || tail[0] == '\t')
  }

  lemma NameTailIff(s: string)
    ensures IsNameTail(s) <==> exists name, tail :: NameAndTail(s, name, tail)
  {
    var p := (c: char) => !IsSpace(c);
    RunStops(s, p);
    var n := Run(s, p);
    if IsNameTail(s) {
      assert s == s[..n] + s[n..];
      assert NameAndTail(s, s[..n], s[n..]);
    }
    if name, tail :| NameAndTail(s, name, tail) {
      assert All(name, p);
      RunIs(name, tail, p);
      assert s[|name|..] == tail;
    }
  }

  /** The pair of lines above the hunks of a file. */
  lemma NameLinesIff(line: string)
    ensures IsOldName(line) <==> exists name, tail :: line == "--- " + (name + tail) && NameAndTail(name + tail, name, tail)
    ensures IsNewName(line) <==> exists name, tail :: line == "+++ " + (name + tail) && NameAndTail(name + tail, name, tail)
  {
    if |line| >= 4 {
      NameTailIff(line[4..]);
      assert line == line[..4] + line[4..];
    }
    if name, tail :| line == "--- " + (name + tail) && NameAndTail(name + tail, name, tail) {
      assert line[..4] == "--- " && line[4..] == name + tail;
    }
    if name, tail :| line == "+++ " + (name + tail) && NameAndTail(name + tail, name, tail) {
      assert line[..4] == "+++ " && line[4..] == name + tail;
    }
  }

  predicate Mode(s: string) { |s| == 6 && forall c :: c in s ==> '0' <= c <= '7' }

  lemma ModeIff(s: string)
    ensures IsMode(s) <==> Mode(s)
  {
    if IsMode(s) {
      forall c | c in s ensures '0' <= c <= '7' {
        var i :| 0 <= i < |s| && s[i] == c;
      }
    }
    assert Mode(s) ==> forall i :: 0 <= i < |s| ==> s[i] in s;
  }

  /** Two object names with two dots between them, and perhaps a file mode. */
  ghost predicate Blobs(s: string, a: string, b: string, m: string) {
    && s == a + (".." + (b + m)) && a != "" && b != "" && All(a, IsHex) && All(b, IsHex)
    && (m == "" || (m[0] == ' ' && Mode(m[1..])))
  }

  lemma IndexTailIff(s: string)
    ensures IsIndexTail(s) <==> exists a, b, m :: Blobs(s, a, b, m)
  {
    if IsIndexTail(s) { TailIsBlobs(s); }
    if a, b, m :| Blobs(s, a, b, m) { BlobsAreTail(s, a, b, m); }
  }

  lemma TailIsBlobs(s: string)
    requires IsIndexTail(s)
    ensures exists a, b, m :: Blobs(s, a, b, m)
  {
    var a, rest := CutRun(s, IsHex);
    assert rest[..2] == ".." && a != "";
    var b, m := CutRun(rest[2..], IsHex);
    assert b != "" && (m == "" || (m[..1] == " " && IsMode(m[1..])));
    hide Run, IsIndexTail, IsMode, Mode, IsHex;
    if m != "" {
      ModeIff(m[1..]);
      assert m[0] == m[..1][0];
    }
    assert rest == ".." + (b + m);
    assert Blobs(s, a, b, m);
  }

  lemma CutRun(s: string, p: char -> bool) returns (a: string, rest: string)
    ensures a == s[..Run(s, p)] && rest == s[Run(s, p)..] && s == a + rest && All(a, p)
  {
    RunStops(s, p);
    a, rest := s[..Run(s, p)], s[Run(s, p)..];
  }

  lemma BlobsAreTail(s: string, a: string, b: string, m: string)
    requires Blobs(s, a, b, m)
    ensures IsIndexTail(s)
  {
    RunIs(a, ".." + (b + m), IsHex);
    assert s[|a|..] == ".." + (b + m);
    assert s[|a|..][..2] == ".." && s[|a|..][2..] == b + m;
    RunIs(b, m, IsHex);
    assert (b + m)[|b|..] == m;
    if m != "" {
      ModeIff(m[1..]);
      assert m[..1] == " ";
    }
  }

  /** The change lines of a diff: inside a hunk, those on one side only, but for a marker that could be a file header's. */
  lemma ChangeIsOneSided(lines: seq<string>, i: nat)
    requires i < |lines| && D.InHunk(lines, i) && !D.Closes(lines[i]) && !D.Opens(lines[i])
    ensures Minimize.IsChange(lines[i]) <==>
      && D.OnSide(lines, i, '-') != D.OnSide(lines, i, '+')
      && !StartsWith(lines[i], "---") && !StartsWith(lines[i], "+++")
  {
  }
}
