/** Text as the harness handles it: `s.split(sep)`, `sep.join(parts)`, and sublists picked out by position. */
module Text {

  /** `sep.join(parts)` for a one-character separator. */
  function Join(parts: seq<string>, sep: char): string {
    if parts == [] then ""
    else if |parts| == 1 then parts[0]
    else parts[0] + [sep] + Join(parts[1..], sep)
  }

  /** `s.split(sep)` for a one-character separator: never empty, and no part holds the separator. */
  function Split(s: string, sep: char): (parts: seq<string>)
    ensures parts != []
    ensures forall p :: p in parts ==> sep !in p
  {
    if s == "" then [""]
    else
      var rest := Split(s[1..], sep);
      if s[0] == sep then [""] + rest else [[s[0]] + rest[0]] + rest[1..]
  }

  ghost predicate Free(parts: seq<string>, sep: char) {
    forall p :: p in parts ==> sep !in p
  }

  lemma {:induction false} JoinOfSplit(s: string, sep: char)
    ensures Join(Split(s, sep), sep) == s
  {
    if s != "" {
      JoinOfSplit(s[1..], sep);
      var rest := Split(s[1..], sep);
      if s[0] == sep {
        assert ([""] + rest)[1..] == rest;
      } else {
        var parts := [[s[0]] + rest[0]] + rest[1..];
        assert parts[1..] == rest[1..];
        if |rest| > 1 {
          assert Join(rest, sep) == rest[0] + [sep] + Join(rest[1..], sep);
        }
      }
    }
  }

  lemma {:induction false} SplitOfPrefixed(p: string, s: string, sep: char)
    requires sep !in p
    ensures Split(p + [sep] + s, sep) == [p] + Split(s, sep)
    ensures Split(p, sep) == [p]
  {
    if p == "" {
      assert (p + [sep] + s)[1..] == s;
    } else {
      SplitOfPrefixed(p[1..], s, sep);
      assert p[0] == (p + [sep] + s)[0] && p[0] in p;
      assert (p + [sep] + s)[1..] == p[1..] + [sep] + s;
      var rest := Split(p[1..] + [sep] + s, sep);
      assert rest[0] == p[1..] && rest[1..] == Split(s, sep);
      assert [p[0]] + p[1..] == p;
    }
  }

  lemma {:induction false} SplitOfJoin(parts: seq<string>, sep: char)
    requires parts != [] && Free(parts, sep)
    ensures Split(Join(parts, sep), sep) == parts
  {
    assert parts[0] in parts;
    if |parts| == 1 {
      SplitOfPrefixed(parts[0], "", sep);
    } else {
      SplitOfJoin(parts[1..], sep);
      SplitOfPrefixed(parts[0], Join(parts[1..], sep), sep);
    }
  }

  /** Joining is injective on non-empty lists of separator-free parts. */
  lemma JoinInjective(a: seq<string>, b: seq<string>, sep: char)
    requires a != [] && b != [] && Free(a, sep) && Free(b, sep)
    requires Join(a, sep) == Join(b, sep)
    ensures a == b
  {
    SplitOfJoin(a, sep);
    SplitOfJoin(b, sep);
  }

  /** What `str.isspace`, `str.strip` and `\s` take for white space. */
  predicate IsSpace(c: char) {
    c == ' ' || '\t' <= c <= '\r' || '\U{1c}' <= c <= '\U{1f}' || c == '\U{85}' || c == '\U{a0}' || c == '\U{1680}' ||
    '\U{2000}' <= c <= '\U{200a}' || c == '\U{2028}' || c == '\U{2029}' || c == '\U{202f}' || c == '\U{205f}' ||
    c == '\U{3000}'
  }

  predicate StartsWith(s: string, prefix: string) {
    |prefix| <= |s| && s[..|prefix|] == prefix
  }

  lemma StartsWithPrefix(s: string, p: string, q: string)
    ensures StartsWith(s, p) && StartsWith(p, q) ==> StartsWith(s, q)
  {
    if StartsWith(s, p) && StartsWith(p, q) {
      assert s[..|q|] == s[..|p|][..|q|];
    }
  }

  /** Everything in `items` except the positions in `dropped`, order kept. */
  function Without<T>(items: seq<T>, dropped: set<int>): seq<T> {
    if items == [] then []
    else
      var n := |items| - 1;
      Without(items[..n], dropped) + (if n in dropped then [] else [items[n]])
  }

  /** `a` is `b` with some elements left out, order kept. */
  ghost predicate Sublist<T>(a: seq<T>, b: seq<T>) {
    exists dropped: set<int> :: a == Without(b, dropped)
  }

  lemma {:induction false} WithoutAgree<T>(items: seq<T>, a: set<int>, b: set<int>)
    requires forall i :: 0 <= i < |items| ==> (i in a <==> i in b)
    ensures Without(items, a) == Without(items, b)
  {
    if items != [] { WithoutAgree(items[..|items| - 1], a, b); }
  }

  lemma SublistStep<T>(a: seq<T>, b: seq<T>, x: T)
    requires Sublist(a, b)
    ensures Sublist(a, b + [x])
    ensures Sublist(a + [x], b + [x])
  {
    var d: set<int> :| a == Without(b, d);
    var n := |b|;
    assert (b + [x])[..n] == b;
    WithoutAgree(b, d, d + {n});
    WithoutAgree(b, d, d - {n});
    assert Without(b + [x], d + {n}) == a + [];
    assert Without(b + [x], d - {n}) == a + [x];
  }

  lemma {:induction false} WithoutNothing<T>(items: seq<T>)
    ensures Without(items, {}) == items
  {
    if items != [] {
      WithoutNothing(items[..|items| - 1]);
    }
  }

  lemma {:induction false} WithoutMembers(parts: seq<string>, dropped: set<int>, sep: char)
    requires Free(parts, sep)
    ensures Free(Without(parts, dropped), sep)
  {
    if parts != [] {
      WithoutMembers(parts[..|parts| - 1], dropped, sep);
      assert parts[|parts| - 1] in parts;
    }
  }
}
