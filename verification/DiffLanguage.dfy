/** `validators/syntax.py`, `parse_unified_diff`: which line lists it accepts and what it reads off them, line by line. */
module DiffLanguage {
  import opened Text
  import opened UnifiedDiff
  import HunkHeader

  predicate Opens(raw: string) { StartsWith(raw, "@@") }

  predicate Closes(raw: string) {
    StartsWith(raw, "--- ") || StartsWith(raw, "+++ ") || StartsWith(raw, "diff ") || StartsWith(raw, "index ")
  }

  /** Line `i` stands in a hunk: some line before it opens one, and no header has come since. */
  ghost predicate InHunk(lines: seq<string>, i: nat)
    requires i <= |lines|
  {
    exists j :: 0 <= j < i && OpensFor(lines, j, i)
  }

  ghost predicate OpensFor(lines: seq<string>, j: nat, i: nat)
    requires j < i <= |lines|
  {
    Opens(lines[j]) && forall k :: j < k < i ==> !Closes(lines[k])
  }

  /** A header, a hunk header with its numbers, a blank line outside any hunk, or a line of a hunk with one of the markers. */
  ghost predicate Admitted(lines: seq<string>, i: nat)
    requires i < |lines|
  {
    var l := lines[i];
    || Closes(l)
    || if Opens(l) then HunkHeader.Scan(l).Some?
       else if InHunk(lines, i) then l == "" || l[0] == ' ' || l[0] == '+' || l[0] == '-' || l[0] == '\\'
       else forall c :: c in l ==> IsSpace(c)
  }

  ghost predicate AllAdmitted(lines: seq<string>) { forall i :: 0 <= i < |lines| ==> Admitted(lines, i) }

  ghost predicate AnyOpens(lines: seq<string>) { exists j :: 0 <= j < |lines| && Opens(lines[j]) }

  /** Line `i` belongs to the side whose own lines carry `mark`. */
  ghost predicate OnSide(lines: seq<string>, i: nat, mark: char)
    requires i < |lines|
  {
    InHunk(lines, i) && !Closes(lines[i]) && !Opens(lines[i]) && (lines[i] == "" || lines[i][0] == ' ' || lines[i][0] == mark)
  }

  /** One side: the lines on it, in order, without their markers. */
  ghost function Side(lines: seq<string>, mark: char): seq<string> {
    if lines == [] then []
    else
      var n := |lines| - 1;
      Side(lines[..n], mark) +
      (if OnSide(lines, n, mark) then [if lines[n] == "" then "" else lines[n][1..]] else [])
  }

  lemma InHunkOfPrefix(lines: seq<string>, n: nat, i: nat)
    requires i <= n <= |lines|
    ensures InHunk(lines[..n], i) <==> InHunk(lines, i)
  {
    var front := lines[..n];
    if j :| 0 <= j < i && OpensFor(front, j, i) { assert OpensFor(lines, j, i); }
    if j :| 0 <= j < i && OpensFor(lines, j, i) { assert OpensFor(front, j, i); }
  }

  /** One more line: it opens a hunk, closes it, or leaves that as it was. */
  lemma InHunkNext(lines: seq<string>, n: nat)
    requires n < |lines|
    ensures InHunk(lines, n + 1) <==> Opens(lines[n]) || (InHunk(lines, n) && !Closes(lines[n]))
  {
    FirstCharacters(lines[n]);
    if Opens(lines[n]) { assert OpensFor(lines, n, n + 1); }
    if j :| 0 <= j < n && OpensFor(lines, j, n) && !Closes(lines[n]) { assert OpensFor(lines, j, n + 1); }
    var m := n + 1;
    if j :| 0 <= j < m && OpensFor(lines, j, m) {
      if j < n { assert OpensFor(lines, j, n); }
    }
  }

  /** All lines are admitted exactly when those before the last are and the last one is. */
  lemma AdmittedLast(lines: seq<string>)
    requires lines != []
    ensures
      var n := |lines| - 1;
      AllAdmitted(lines) <==> AllAdmitted(lines[..n]) && Admitted(lines, n)
  {
    var n := |lines| - 1;
    forall i | 0 <= i < n ensures Admitted(lines[..n], i) <==> Admitted(lines, i) {
      InHunkOfPrefix(lines, n, i);
    }
  }

  /** One line read after others that have been. */
  lemma ReadOne(r: Reader, raw: string)
    ensures
      var admitted :=
        || Closes(raw)
        || if Opens(raw) then HunkHeader.Scan(raw).Some?
           else if r.inHunk then raw == "" || raw[0] == ' ' || raw[0] == '+' || raw[0] == '-' || raw[0] == '\\'
           else forall c :: c in raw ==> IsSpace(c);
      ReadLine(r, raw).Ok? <==> admitted
    ensures ReadLine(r, raw).Ok? ==>
      var (now, body) := (ReadLine(r, raw).value, if raw == "" then "" else raw[1..]);
      var inside := r.inHunk && !Closes(raw) && !Opens(raw);
      && now.inHunk == (Opens(raw) || (r.inHunk && !Closes(raw))) && now.seenHunk == (r.seenHunk || Opens(raw))
      && now.before == r.before + (if inside && (raw == "" || raw[0] == ' ' || raw[0] == '-') then [body] else [])
      && now.after == r.after + (if inside && (raw == "" || raw[0] == ' ' || raw[0] == '+') then [body] else [])
  {
    FirstCharacters(raw);
    DropFirst1(raw);
    assert r.before + [] == r.before && r.after + [] == r.after;
  }

  lemma DropFirst1(raw: string)
    ensures StartsWith(raw, "\\") <==> raw != "" && raw[0] == '\\'
  {
    if raw != "" { assert raw[..1] == [raw[0]]; }
  }

  lemma AnyOpensLast(lines: seq<string>)
    requires lines != []
    ensures AnyOpens(lines) <==> AnyOpens(lines[..|lines| - 1]) || Opens(lines[|lines| - 1])
  {
    var n := |lines| - 1;
    assert forall j :: 0 <= j < n ==> lines[..n][j] == lines[j];
  }

  /** The reader after a list of lines, in terms of the lines alone. */
  lemma {:induction false} ReadIs(lines: seq<string>)
    ensures ReadLines(lines).Ok? <==> AllAdmitted(lines)
    ensures ReadLines(lines).Ok? ==>
      ReadLines(lines).value == Reader(InHunk(lines, |lines|), AnyOpens(lines), Side(lines, '-'), Side(lines, '+'))
  {
    if lines != [] {
      var n := |lines| - 1;
      var front := lines[..n];
      ReadIs(front);
      AdmittedLast(lines);
      InHunkOfPrefix(lines, n, n);
      InHunkNext(lines, n);
      AnyOpensLast(lines);
      if ReadLines(front).Ok? {
        ReadOne(ReadLines(front).value, lines[n]);
      }
    }
  }

  /**
   * A diff is accepted exactly when some line opens a hunk and every line is admitted where it stands: prose around a diff
   * is refused, not passed over. The two sides are then the lines on them.
   */
  lemma AcceptedIff(lines: seq<string>)
    ensures Sides(lines).Ok? <==> AnyOpens(lines) && AllAdmitted(lines)
    ensures Sides(lines).Ok? ==> Sides(lines).value == (Side(lines, '-'), Side(lines, '+'))
  {
    ReadIs(lines);
  }

  /** A line of prose in front of a diff makes it refused, whatever follows. */
  lemma ProseIsRefused(prose: string, rest: seq<string>)
    requires !Closes(prose) && !Opens(prose) && exists c :: c in prose && !IsSpace(c)
    ensures Sides([prose] + rest).Error?
  {
    var lines := [prose] + rest;
    ReadIs(lines);
    assert lines[0] == prose && !InHunk(lines, 0);
    assert !Admitted(lines, 0);
  }
}
