/** The one header both diff readers scan: `@@ -start[,count] +start[,count] @@rest`. */
module HunkHeader {
  import opened Text
  import opened Options

  /** The numbers of a hunk header; an omitted count means one line. `rest` is what follows the closing `@@`. */
  datatype Header = Header(oldStart: nat, oldCount: nat, newStart: nat, newCount: nat, rest: string)

  datatype Range = Range(start: nat, count: nat, rest: string)

  predicate IsDigit(c: char) { '0' <= c <= '9' }

  /** How many leading characters of `s` are digits: what a greedy `\d+` takes. */
  function DigitRun(s: string): (n: nat)
    ensures n <= |s|
    ensures forall i :: 0 <= i < n ==> IsDigit(s[i])
    ensures n < |s| ==> !IsDigit(s[n])
  {
    if s == "" || !IsDigit(s[0]) then 0 else 1 + DigitRun(s[1..])
  }

  /** `int(digits)`. */
  function Value(digits: string): nat
    requires forall i :: 0 <= i < |digits| ==> IsDigit(digits[i])
  {
    if digits == "" then 0
    else
      var n := |digits| - 1;
      assert IsDigit(digits[n]);
      10 * Value(digits[..n]) + (digits[n] as int - '0' as int)
  }

  /** `(\d+)(?:,(\d+))?` at the start of `s`. */
  function ScanRange(s: string): Option<Range> {
    var d := DigitRun(s);
    if d == 0 then None
    else
      var rest := s[d..];
      if rest != "" && rest[0] == ',' && DigitRun(rest[1..]) > 0 then
        var e := DigitRun(rest[1..]);
        Some(Range(Value(s[..d]), Value(rest[1..][..e]), rest[1..][e..]))
      else
        Some(Range(Value(s[..d]), 1, rest))
  }

  function Scan(line: string): Option<Header> {
    if !StartsWith(line, "@@ -") then None
    else
      match ScanRange(line[4..])
      case None => None
      case Some(a) =>
        if !StartsWith(a.rest, " +") then None
        else
          match ScanRange(a.rest[2..])
          case None => None
          case Some(b) =>
            if !StartsWith(b.rest, " @@") then None
            else Some(Header(a.start, a.count, b.start, b.count, b.rest[3..]))
  }

  /** `str(n)`. */
  function Digits(n: nat): (s: string)
    ensures s != "" && forall i :: 0 <= i < |s| ==> IsDigit(s[i])
  {
    var last := ['0' + (n % 10) as char];
    if n < 10 then last else Digits(n / 10) + last
  }

  lemma {:induction false} ValueOfDigits(n: nat)
    ensures Value(Digits(n)) == n
  {
    if n >= 10 {
      ValueOfDigits(n / 10);
      var s := Digits(n);
      assert s[..|s| - 1] == Digits(n / 10);
    }
  }

  function RenderRange(start: nat, count: nat): string {
    Digits(start) + "," + Digits(count)
  }

  function Render(h: Header): string {
    "@@ -" + RenderRange(h.oldStart, h.oldCount) + " +" + RenderRange(h.newStart, h.newCount) + " @@" + h.rest
  }

  lemma {:induction false} DigitRunStops(digits: string, tail: string)
    requires forall i :: 0 <= i < |digits| ==> IsDigit(digits[i])
    requires tail == "" || !IsDigit(tail[0])
    ensures DigitRun(digits + tail) == |digits|
  {
    if digits == "" {
      assert digits + tail == tail;
    } else {
      DigitRunStops(digits[1..], tail);
      assert (digits + tail)[1..] == digits[1..] + tail;
    }
  }

  ghost predicate AllDigits(s: string) { s != "" && forall i :: 0 <= i < |s| ==> IsDigit(s[i]) }

  lemma ScanOfParts(a: string, b: string, tail: string)
    requires AllDigits(a) && AllDigits(b)
    requires tail == "" || !IsDigit(tail[0])
    ensures ScanRange(a + ("," + (b + tail))) == Some(Range(Value(a), Value(b), tail))
  {
    var rest := "," + (b + tail);
    DigitRunStops(a, rest);
    assert (a + rest)[..|a|] == a && (a + rest)[|a|..] == rest;
    assert rest[1..] == b + tail;
    DigitRunStops(b, tail);
    assert (b + tail)[..|b|] == b && (b + tail)[|b|..] == tail;
  }

  lemma ScanOfRange(start: nat, count: nat, tail: string)
    requires tail == "" || !IsDigit(tail[0])
    ensures ScanRange(RenderRange(start, count) + tail) == Some(Range(start, count, tail))
  {
    var a, b := Digits(start), Digits(count);
    assert RenderRange(start, count) + tail == a + ("," + (b + tail));
    ScanOfParts(a, b, tail);
    ValueOfDigits(start);
    ValueOfDigits(count);
  }

  /** `@@ -A +B @@rest` scans to the two ranges, whatever the text of the ranges. */
  lemma ScanOfPieces(left: string, right: string, rest: string, a: Range, b: Range)
    requires a.rest == " +" + right && ScanRange(left) == Some(a)
    requires b.rest == " @@" + rest && ScanRange(right) == Some(b)
    ensures Scan("@@ -" + left) == Some(Header(a.start, a.count, b.start, b.count, rest))
  {
    assert ("@@ -" + left)[4..] == left;
    assert a.rest[2..] == right;
    assert b.rest[3..] == rest;
  }

  /** Scanning a rendered header gives back its four numbers and its tail. */
  lemma ScanOfRender(h: Header)
    ensures Scan(Render(h)) == Some(h)
  {
    var tail := " @@" + h.rest;
    var right := RenderRange(h.newStart, h.newCount) + tail;
    var left := RenderRange(h.oldStart, h.oldCount) + (" +" + right);
    assert Render(h) == "@@ -" + left;
    ScanOfRange(h.newStart, h.newCount, tail);
    ScanOfRange(h.oldStart, h.oldCount, " +" + right);
    ScanOfPieces(left, right, h.rest,
                 Range(h.oldStart, h.oldCount, " +" + right), Range(h.newStart, h.newCount, tail));
  }

  /** A scanned header starts with `@@`, so the two-character test the readers make first never hides one. */
  lemma ScannedStartsWithAt(line: string)
    requires Scan(line).Some?
    ensures StartsWith(line, "@@")
  {
    assert line[..2] == line[..4][..2];
  }

  // ---- Exactly which lines are headers ----

  /** `t` writes a range: a start, and a count behind a comma unless it is one and left out. */
  ghost predicate RangeText(t: string, start: nat, count: nat) {
    || (AllDigits(t) && Value(t) == start && count == 1)
    || exists d, e :: Written(t, d, e) && Value(d) == start && Value(e) == count
  }

  ghost predicate Written(t: string, d: string, e: string) { AllDigits(d) && AllDigits(e) && t == d + ("," + e) }

  ghost predicate IsHeader(line: string, h: Header) {
    exists a, b :: Parts(line, h, a, b)
  }

  ghost predicate Parts(line: string, h: Header, a: string, b: string) {
    && RangeText(a, h.oldStart, h.oldCount) && RangeText(b, h.newStart, h.newCount)
    && line == "@@ -" + (a + (" +" + (b + (" @@" + h.rest))))
  }

  lemma RangeRead(s: string)
    requires ScanRange(s).Some?
    ensures
      var r := ScanRange(s).value;
      exists t :: RangeText(t, r.start, r.count) && s == t + r.rest
  {
    hide Value, DigitRun;
    var d := DigitRun(s);
    var r, rest := ScanRange(s).value, s[d..];
    if rest != "" && rest[0] == ',' && DigitRun(rest[1..]) > 0 {
      var e := DigitRun(rest[1..]);
      var t := s[..d] + ("," + rest[1..][..e]);
      assert Written(t, s[..d], rest[1..][..e]);
      assert rest == "," + rest[1..] && s == t + r.rest;
    } else {
      assert AllDigits(s[..d]) && s == s[..d] + rest;
    }
  }

  lemma RangeWritten(t: string, start: nat, count: nat, tail: string)
    requires RangeText(t, start, count) && tail != "" && tail[0] == ' '
    ensures ScanRange(t + tail) == Some(Range(start, count, tail))
  {
    if d, e :| Written(t, d, e) && Value(d) == start && Value(e) == count {
      assert t + tail == d + ("," + (e + tail));
      ScanOfParts(d, e, tail);
    } else {
      DigitRunStops(t, tail);
      assert (t + tail)[..|t|] == t && (t + tail)[|t|..] == tail;
    }
  }

  lemma HeaderRead(line: string)
    requires Scan(line).Some?
    ensures IsHeader(line, Scan(line).value)
  {
    hide ScanRange, RangeText;
    var a, h := ScanRange(line[4..]).value, Scan(line).value;
    var b := ScanRange(a.rest[2..]).value;
    RangeRead(line[4..]);
    RangeRead(a.rest[2..]);
    var s :| RangeText(s, a.start, a.count) && line[4..] == s + a.rest;
    var t :| RangeText(t, b.start, b.count) && a.rest[2..] == t + b.rest;
    CutPrefix(line, "@@ -");
    CutPrefix(a.rest, " +");
    CutPrefix(b.rest, " @@");
    assert Parts(line, h, s, t);
  }

  lemma CutPrefix(s: string, prefix: string)
    requires StartsWith(s, prefix)
    ensures |prefix| <= |s| && s == prefix + s[|prefix|..]
  {
  }

  lemma HeaderWritten(line: string, h: Header)
    requires IsHeader(line, h)
    ensures Scan(line) == Some(h)
  {
    var a, b :| Parts(line, h, a, b);
    var tail := " @@" + h.rest;
    RangeWritten(b, h.newStart, h.newCount, tail);
    RangeWritten(a, h.oldStart, h.oldCount, " +" + (b + tail));
    ScanOfPieces(a + (" +" + (b + tail)), b + tail, h.rest,
                 Range(h.oldStart, h.oldCount, " +" + (b + tail)), Range(h.newStart, h.newCount, tail));
  }

  /** A line scans to `h` exactly when it is written with the numbers of `h`, a count of one given or left out. */
  lemma ScanIff(line: string, h: Header)
    ensures Scan(line) == Some(h) <==> IsHeader(line, h)
  {
    if Scan(line) == Some(h) { HeaderRead(line); }
    if IsHeader(line, h) { HeaderWritten(line, h); }
  }
}
