/** `validators/behavior.py`: helper bodies inlined at their call sites, with the origin of every character kept. */
module Inlining {
  import opened Text
  import opened Regions
  import opened Options

  /** A character of an inlined text: number `pos` of the body of `owner`, or a newline the inliner put in. */
  datatype Ch = Own(owner: string, pos: nat) | Break

  type Table = map<string, string>

  function CharOf(ch: Ch, bodies: Table): char {
    match ch
    case Break => '\n'
    case Own(f, k) => if f in bodies && k < |bodies[f]| then bodies[f][k] else '\n'
  }

  /** The plain text of an inlined text. */
  function Erase(t: seq<Ch>, bodies: Table): (s: string)
    ensures |s| == |t| && forall i :: 0 <= i < |t| ==> s[i] == CharOf(t[i], bodies)
  {
    seq(|t|, i requires 0 <= i < |t| => CharOf(t[i], bodies))
  }

  function BodyNamed(name: string, bodies: Table): string { if name in bodies then bodies[name] else "" }

  function Tagged(name: string, bodies: Table): seq<Ch> {
    seq(|BodyNamed(name, bodies)|, i requires 0 <= i < |BodyNamed(name, bodies)| => Own(name, i))
  }

  // ---- The call pattern ----

  function SpaceRun(s: string, i: nat): (w: nat)
    requires i <= |s|
    ensures i <= w <= |s| && (forall j :: i <= j < w ==> IsSpace(s[j])) && (w < |s| ==> !IsSpace(s[w]))
    decreases |s| - i
  {
    if i < |s| && IsSpace(s[i]) then SpaceRun(s, i + 1) else i
  }

  /** Just before a command: the start of the text, or one of `;`, `&`, `|`, `(` and newline. */
  predicate AtCommand(s: string, i: nat)
    requires i <= |s|
  {
    i == 0 || s[i - 1] == ';' || s[i - 1] == '&' || s[i - 1] == '|' || s[i - 1] == '(' || s[i - 1] == '\n'
  }

  /** `name` stands at `w` and a word ends with it. */
  predicate NameAt(s: string, w: nat, name: string) {
    w + |name| <= |s| && s[w..w + |name|] == name && (w + |name| == |s| || !IsWord(s[w + |name|]))
  }

  /** The pattern at `i`: white space, then `name`. The answer is where the name starts. */
  function CallAt(s: string, i: nat, name: string): (r: Option<nat>)
    requires i <= |s|
    ensures r.Some? ==> i <= r.value && NameAt(s, r.value, name)
  {
    var w := SpaceRun(s, i);
    if AtCommand(s, i) && NameAt(s, w, name) then Some(w) else None
  }

  /** Where the name stands in each match of the pattern, left to right from position `i`. */
  function Matches(s: string, i: nat, name: string): seq<nat>
    requires i <= |s| && name != ""
    decreases |s| - i
  {
    if i == |s| then []
    else
      match CallAt(s, i, name)
      case Some(w) => [w] + Matches(s, w + |name|, name)
      case None => Matches(s, i + 1, name)
  }

  /** From position `p`: the text with `len` elements at each of `cuts` replaced by `mid`. */
  function Splice<T>(t: seq<T>, p: nat, cuts: seq<nat>, len: nat, mid: seq<T>): seq<T>
    requires p <= |t|
    decreases |cuts|
  {
    if cuts == [] || !(p <= cuts[0] && cuts[0] + len <= |t|) then t[p..]
    else t[p..cuts[0]] + mid + Splice(t, cuts[0] + len, cuts[1..], len, mid)
  }

  /** `call.sub` on text: each match keeps its white space, and its name becomes the expansion on lines of its own. */
  function Sub(s: string, name: string, e: string): string
    requires name != ""
  {
    Splice(s, 0, Matches(s, 0, name), |name|, "\n" + e + "\n")
  }

  /** The same substitution with origins. */
  function SubTagged(t: seq<Ch>, bodies: Table, name: string, e: seq<Ch>): seq<Ch>
    requires name != ""
  {
    Splice(t, 0, Matches(Erase(t, bodies), 0, name), |name|, [Break] + e + [Break])
  }

  lemma EraseConcat(a: seq<Ch>, b: seq<Ch>, bodies: Table)
    ensures Erase(a + b, bodies) == Erase(a, bodies) + Erase(b, bodies)
  {
  }

  lemma {:induction false} SpliceErases(t: seq<Ch>, bodies: Table, p: nat, cuts: seq<nat>, len: nat, mid: seq<Ch>)
    requires p <= |t|
    ensures Erase(Splice(t, p, cuts, len, mid), bodies) == Splice(Erase(t, bodies), p, cuts, len, Erase(mid, bodies))
    decreases |cuts|
  {
    if cuts == [] || !(p <= cuts[0] && cuts[0] + len <= |t|) {
      assert Erase(t[p..], bodies) == Erase(t, bodies)[p..];
    } else {
      SpliceErases(t, bodies, cuts[0] + len, cuts[1..], len, mid);
      EraseConcat(t[p..cuts[0]] + mid, Splice(t, cuts[0] + len, cuts[1..], len, mid), bodies);
      EraseConcat(t[p..cuts[0]], mid, bodies);
      assert Erase(t[p..cuts[0]], bodies) == Erase(t, bodies)[p..cuts[0]];
    }
  }

  lemma SubErases(t: seq<Ch>, bodies: Table, name: string, e: seq<Ch>)
    requires name != ""
    ensures Erase(SubTagged(t, bodies, name, e), bodies) == Sub(Erase(t, bodies), name, Erase(e, bodies))
  {
    SpliceErases(t, bodies, 0, Matches(Erase(t, bodies), 0, name), |name|, [Break] + e + [Break]);
    assert Erase([Break] + e + [Break], bodies) == "\n" + Erase(e, bodies) + "\n";
  }

  // ---- The inliner ----

  /** `_inline` with origins: the helpers in `order` one after the other, each expanded to a bounded depth. */
  function Inline(name: string, bodies: Table, order: seq<string>, seen: set<string>, depth: nat): seq<Ch>
    requires forall n :: n in order ==> IsName(n)
    decreases MAX_INLINE_DEPTH - depth, |order| + 1
  {
    if depth >= MAX_INLINE_DEPTH then Tagged(name, bodies)
    else InlineFrom(name, Tagged(name, bodies), bodies, order, 0, seen, depth)
  }

  function InlineFrom(name: string, body: seq<Ch>, bodies: Table, order: seq<string>, k: nat, seen: set<string>, depth: nat): seq<Ch>
    requires (forall n :: n in order ==> IsName(n)) && k <= |order| && depth < MAX_INLINE_DEPTH
    decreases MAX_INLINE_DEPTH - depth, |order| - k
  {
    if k == |order| then body
    else
      var other := order[k];
      assert IsName(other) by { assert other in order; }
      if other == name || other in seen || Matches(Erase(body, bodies), 0, other) == [] then
        InlineFrom(name, body, bodies, order, k + 1, seen, depth)
      else
        var e := Inline(other, bodies, order, seen + {name, other}, depth + 1);
        InlineFrom(name, SubTagged(body, bodies, other, e), bodies, order, k + 1, seen, depth)
  }

  /** `_inline` on text: recursive, with `body` reassigned in the loop over the helpers. */
  method InlineText(name: string, bodies: Table, order: seq<string>, seen: set<string>, depth: nat) returns (body: string)
    requires forall n :: n in order ==> IsName(n)
    ensures body == Erase(Inline(name, bodies, order, seen, depth), bodies)
    decreases MAX_INLINE_DEPTH - depth
  {
    body := BodyNamed(name, bodies);
    ghost var tagged := Tagged(name, bodies);
    assert body == Erase(tagged, bodies);
    if depth >= MAX_INLINE_DEPTH {
      return;
    }
    for k := 0 to |order|
      invariant body == Erase(tagged, bodies)
      invariant InlineFrom(name, tagged, bodies, order, k, seen, depth) == Inline(name, bodies, order, seen, depth)
    {
      var other := order[k];
      if other == name || other in seen {
        continue;
      }
      assert other in order;
      if Matches(body, 0, other) == [] {
        continue;
      }
      var expanded := InlineText(other, bodies, order, seen + {name, other}, depth + 1);
      ghost var e := Inline(other, bodies, order, seen + {name, other}, depth + 1);
      SubErases(tagged, bodies, other, e);
      body := Sub(body, other, expanded);
      tagged := SubTagged(tagged, bodies, other, e);
    }
  }

  // ---- The word-mention graph ----

  /** `g` occurs as a word in `s` at `i`. */
  ghost predicate WordAt(s: string, i: int, g: string) {
    && IsName(g) && 0 <= i && i + |g| <= |s| && s[i..i + |g|] == g
    && (i == 0 || !IsWord(s[i - 1])) && (i + |g| == |s| || !IsWord(s[i + |g|]))
  }

  /** A call edge: the body of `f` mentions `g`. */
  ghost predicate Mentions(bodies: Table, f: string, g: string) {
    f in bodies && exists i :: WordAt(bodies[f], i, g)
  }

  ghost predicate Path(bodies: Table, p: seq<string>) {
    p != [] && forall i :: 0 < i < |p| ==> Mentions(bodies, p[i - 1], p[i])
  }

  ghost predicate Reachable(bodies: Table, f: string, g: string) {
    exists p :: Path(bodies, p) && p[0] == f && p[|p| - 1] == g
  }

  lemma ReachableSelf(bodies: Table, f: string)
    ensures Reachable(bodies, f, f)
  {
    assert Path(bodies, [f]);
  }

  lemma ReachableStep(bodies: Table, f: string, g: string, h: string)
    requires Reachable(bodies, f, g) && Mentions(bodies, g, h)
    ensures Reachable(bodies, f, h)
  {
    var p :| Path(bodies, p) && p[0] == f && p[|p| - 1] == g;
    assert Path(bodies, p + [h]);
  }

  lemma ReachableTransitive(bodies: Table, f: string, g: string, h: string)
    requires Reachable(bodies, f, g) && Reachable(bodies, g, h)
    ensures Reachable(bodies, f, h)
  {
    var p :| Path(bodies, p) && p[0] == f && p[|p| - 1] == g;
    var q :| Path(bodies, q) && q[0] == g && q[|q| - 1] == h;
    var r := p + q[1..];
    forall i | 0 < i < |r| ensures Mentions(bodies, r[i - 1], r[i]) {
      if i < |p| { assert Mentions(bodies, p[i - 1], p[i]); } else { assert Mentions(bodies, q[i - |p|], q[i - |p| + 1]); }
    }
    assert r[|r| - 1] == h;
  }

  // ---- Where the inlined text comes from ----

  /** Every word of the text lies in one function's characters and is a word of that function's body. */
  ghost predicate WordsOwned(t: seq<Ch>, bodies: Table) {
    forall i, g :: WordAt(Erase(t, bodies), i, g) ==> t[i].Own? && Mentions(bodies, t[i].owner, g)
  }

  /**
    The text is inserted newlines and, between them, verbatim pieces of the bodies of functions reachable from `root`:
    every character of a body is followed by the next character of the same body or by an inserted newline.
   */
  ghost predicate From(t: seq<Ch>, bodies: Table, root: string) {
    && (forall i :: 0 <= i < |t| && t[i].Own? ==>
          Reachable(bodies, root, t[i].owner) && t[i].owner in bodies && t[i].pos < |bodies[t[i].owner]|)
    && (forall i, j :: 0 <= i < j < |t| && j == i + 1 && t[i].Own? && t[j].Own? ==>
          t[j] == Own(t[i].owner, t[i].pos + 1))
  }

  /** Cutting at `p` does not split a word. */
  ghost predicate CleanCut(s: string, p: nat) {
    p == 0 || p >= |s| || !IsWord(s[p - 1]) || !IsWord(s[p])
  }

  lemma SliceWord(s: string, a: nat, b: nat, i: int, g: string)
    requires a <= b <= |s| && CleanCut(s, a) && CleanCut(s, b) && WordAt(s[a..b], i, g)
    ensures WordAt(s, a + i, g)
  {
    var p := s[a..b];
    assert forall j :: 0 <= j < |p| ==> p[j] == s[a + j];
    assert p[i..i + |g|] == s[a + i..a + i + |g|];
    assert IsWord(g[0]) && p[i] == g[0];
    assert IsWord(g[|g| - 1]) && p[i + |g| - 1] == g[|g| - 1];
  }

  lemma WordsOfSlice(t: seq<Ch>, bodies: Table, a: nat, b: nat)
    requires WordsOwned(t, bodies) && a <= b <= |t|
    requires CleanCut(Erase(t, bodies), a) && CleanCut(Erase(t, bodies), b)
    ensures WordsOwned(t[a..b], bodies)
  {
    var s := Erase(t, bodies);
    assert Erase(t[a..b], bodies) == s[a..b];
    forall i, g | WordAt(s[a..b], i, g) ensures t[a..b][i].Own? && Mentions(bodies, t[a..b][i].owner, g) {
      SliceWord(s, a, b, i, g);
    }
  }

  lemma InsideWord(s: string, i: int, g: string, k: int)
    requires WordAt(s, i, g)
    ensures i <= k < i + |g| ==> IsWord(s[k])
  {
    if i <= k < i + |g| { assert s[k] == s[i..i + |g|][k - i]; }
  }

  /** No word crosses an inserted newline. */
  lemma WordAcrossBreak(a: string, b: string, i: int, g: string)
    requires WordAt(a + "\n" + b, i, g)
    ensures if i < |a| then WordAt(a, i, g) else i > |a| && WordAt(b, i - |a| - 1, g)
  {
    var s, n := a + "\n" + b, |a|;
    assert s[n] == '\n' && !IsWord('\n');
    assert g[0] == s[i];
    if i < n {
      InsideWord(s, i, g, n);
      assert a[i..i + |g|] == s[i..i + |g|];
    } else {
      var j := i - n - 1;
      assert b[j..j + |g|] == s[i..i + |g|];
      assert j > 0 ==> b[j - 1] == s[i - 1];
    }
  }

  lemma WordsAcrossBreak(a: seq<Ch>, b: seq<Ch>, bodies: Table)
    requires WordsOwned(a, bodies) && WordsOwned(b, bodies)
    ensures WordsOwned(a + [Break] + b, bodies)
  {
    var t := a + [Break] + b;
    assert Erase(t, bodies) == Erase(a, bodies) + "\n" + Erase(b, bodies);
    forall i, g | WordAt(Erase(t, bodies), i, g) ensures t[i].Own? && Mentions(bodies, t[i].owner, g) {
      WordAcrossBreak(Erase(a, bodies), Erase(b, bodies), i, g);
    }
  }

  /** A match cuts cleanly: before the name stands white space, a separator or nothing, and after it a word ends. */
  lemma MatchCutsCleanly(s: string, i: nat, name: string)
    requires i <= |s| && IsName(name) && CallAt(s, i, name).Some?
    ensures
      var w := CallAt(s, i, name).value;
      CleanCut(s, w) && CleanCut(s, w + |name|) && WordAt(s, w, name)
  {
    var w := CallAt(s, i, name).value;
    assert w > 0 ==> !IsWord(s[w - 1]) by {
      if w > i { assert IsSpace(s[w - 1]); }
    }
  }

  /** The cuts of a splice come in order, and each is a word `name` with clean ends. */
  ghost predicate CleanCuts(s: string, p: nat, cuts: seq<nat>, name: string)
    decreases |cuts|
  {
    cuts == [] ||
    (p <= cuts[0] && CleanCut(s, cuts[0]) && CleanCut(s, cuts[0] + |name|) && WordAt(s, cuts[0], name) &&
     CleanCuts(s, cuts[0] + |name|, cuts[1..], name))
  }

  lemma {:induction false} MatchesCutCleanly(s: string, p: nat, i: nat, name: string)
    requires p <= i <= |s| && IsName(name)
    ensures CleanCuts(s, p, Matches(s, i, name), name)
    decreases |s| - i
  {
    if i < |s| {
      match CallAt(s, i, name)
      case Some(w) =>
        MatchCutsCleanly(s, i, name);
        MatchesCutCleanly(s, w + |name|, w + |name|, name);
        var cuts := [w] + Matches(s, w + |name|, name);
        assert cuts[1..] == Matches(s, w + |name|, name);
      case None =>
        MatchesCutCleanly(s, p, i + 1, name);
    }
  }

  lemma SpliceOneWords(t: seq<Ch>, bodies: Table, p: nat, w: nat, e: seq<Ch>, rest: seq<Ch>)
    requires p <= w <= |t| && CleanCut(Erase(t, bodies), p) && CleanCut(Erase(t, bodies), w)
    requires WordsOwned(t, bodies) && WordsOwned(e, bodies) && WordsOwned(rest, bodies)
    ensures WordsOwned(t[p..w] + ([Break] + e + [Break]) + rest, bodies)
  {
    WordsOfSlice(t, bodies, p, w);
    WordsAcrossBreak(e, rest, bodies);
    WordsAcrossBreak(t[p..w], e + [Break] + rest, bodies);
    assert t[p..w] + ([Break] + e + [Break]) + rest == t[p..w] + [Break] + (e + [Break] + rest);
  }

  /** Splicing well-owned text into well-owned text at clean cuts keeps every word owned. */
  lemma {:induction false} SpliceWords(t: seq<Ch>, bodies: Table, p: nat, cuts: seq<nat>, name: string, e: seq<Ch>)
    requires p <= |t| && CleanCut(Erase(t, bodies), p) && CleanCuts(Erase(t, bodies), p, cuts, name)
    requires WordsOwned(t, bodies) && WordsOwned(e, bodies)
    ensures WordsOwned(Splice(t, p, cuts, |name|, [Break] + e + [Break]), bodies)
    decreases |cuts|
  {
    if cuts == [] {
      WordsOfSlice(t, bodies, p, |t|);
      assert t[p..|t|] == t[p..];
    } else {
      SpliceWords(t, bodies, cuts[0] + |name|, cuts[1..], name, e);
      SpliceOneWords(t, bodies, p, cuts[0], e, Splice(t, cuts[0] + |name|, cuts[1..], |name|, [Break] + e + [Break]));
    }
  }

  lemma FromSlice(t: seq<Ch>, a: nat, b: nat, bodies: Table, root: string)
    requires a <= b <= |t| && From(t, bodies, root)
    ensures From(t[a..b], bodies, root)
  {
    assert forall i :: 0 <= i < b - a ==> t[a..b][i] == t[a + i];
  }

  lemma FromAcrossBreak(a: seq<Ch>, b: seq<Ch>, bodies: Table, root: string)
    requires From(a, bodies, root) && From(b, bodies, root)
    ensures From(a + [Break] + b, bodies, root)
  {
    var u, n := a + [Break] + b, |a|;
    assert forall i :: 0 <= i < n ==> u[i] == a[i];
    assert forall i :: n < i < |u| ==> u[i] == b[i - n - 1];
    assert u[n] == Break;
  }

  lemma FromPieces(t: seq<Ch>, a: nat, b: nat, e: seq<Ch>, rest: seq<Ch>, bodies: Table, root: string)
    requires a <= b <= |t| && From(t, bodies, root) && From(e, bodies, root) && From(rest, bodies, root)
    ensures From(t[a..b] + ([Break] + e + [Break]) + rest, bodies, root)
  {
    FromSlice(t, a, b, bodies, root);
    FromAcrossBreak(e, rest, bodies, root);
    FromAcrossBreak(t[a..b], e + [Break] + rest, bodies, root);
    assert t[a..b] + ([Break] + e + [Break]) + rest == t[a..b] + [Break] + (e + [Break] + rest);
  }

  lemma {:induction false} SpliceFrom(t: seq<Ch>, bodies: Table, p: nat, cuts: seq<nat>, len: nat, e: seq<Ch>, root: string)
    requires p <= |t| && From(t, bodies, root) && From(e, bodies, root)
    ensures From(Splice(t, p, cuts, len, [Break] + e + [Break]), bodies, root)
    decreases |cuts|
  {
    if cuts != [] && p <= cuts[0] && cuts[0] + len <= |t| {
      SpliceFrom(t, bodies, cuts[0] + len, cuts[1..], len, e, root);
      FromPieces(t, p, cuts[0], e, Splice(t, cuts[0] + len, cuts[1..], len, [Break] + e + [Break]), bodies, root);
    } else {
      FromSlice(t, p, |t|, bodies, root);
      assert t[p..|t|] == t[p..];
    }
  }

  /** A call found in well-owned text is a mention by a function the text comes from. */
  lemma CallIsMention(t: seq<Ch>, bodies: Table, name: string, root: string)
    requires IsName(name) && Matches(Erase(t, bodies), 0, name) != []
    requires WordsOwned(t, bodies) && From(t, bodies, root)
    ensures Reachable(bodies, root, name)
  {
    var s := Erase(t, bodies);
    MatchesCutCleanly(s, 0, 0, name);
    var w := Matches(s, 0, name)[0];
    assert WordAt(s, w, name);
    ReachableStep(bodies, root, t[w].owner, name);
  }

  lemma TaggedOwned(name: string, bodies: Table)
    ensures WordsOwned(Tagged(name, bodies), bodies) && From(Tagged(name, bodies), bodies, name)
  {
    assert Erase(Tagged(name, bodies), bodies) == BodyNamed(name, bodies);
    ReachableSelf(bodies, name);
  }

  lemma FromWider(t: seq<Ch>, bodies: Table, root: string, name: string)
    requires From(t, bodies, name) && Reachable(bodies, root, name)
    ensures From(t, bodies, root)
  {
    forall i | 0 <= i < |t| && t[i].Own? ensures Reachable(bodies, root, t[i].owner) {
      ReachableTransitive(bodies, root, name, t[i].owner);
    }
  }

  /** What an inlined function is made of: characters of the bodies of functions it reaches by mentions, and newlines. */
  lemma {:induction false} InlineReachesOnly(name: string, bodies: Table, order: seq<string>, seen: set<string>, depth: nat)
    requires forall n :: n in order ==> IsName(n)
    ensures Sound(Inline(name, bodies, order, seen, depth), bodies, name)
    decreases MAX_INLINE_DEPTH - depth, |order| + 1
  {
    TaggedOwned(name, bodies);
    if depth < MAX_INLINE_DEPTH {
      InlineFromReachesOnly(name, Tagged(name, bodies), bodies, order, 0, seen, depth);
    }
  }

  ghost predicate Sound(t: seq<Ch>, bodies: Table, root: string) {
    From(t, bodies, root) && WordsOwned(t, bodies)
  }

  /** Expanding one helper: what it brings in is reachable because the text called it. */
  lemma ExpandOne(name: string, body: seq<Ch>, bodies: Table, other: string, e: seq<Ch>)
    requires IsName(other) && Matches(Erase(body, bodies), 0, other) != []
    requires Sound(body, bodies, name) && Sound(e, bodies, other)
    ensures Sound(SubTagged(body, bodies, other, e), bodies, name)
  {
    var s := Erase(body, bodies);
    CallIsMention(body, bodies, other, name);
    FromWider(e, bodies, name, other);
    MatchesCutCleanly(s, 0, 0, other);
    SpliceFrom(body, bodies, 0, Matches(s, 0, other), |other|, e, name);
    SpliceWords(body, bodies, 0, Matches(s, 0, other), other, e);
  }

  lemma {:induction false} InlineFromReachesOnly(
    name: string, body: seq<Ch>, bodies: Table, order: seq<string>, k: nat, seen: set<string>, depth: nat)
    requires (forall n :: n in order ==> IsName(n)) && k <= |order| && depth < MAX_INLINE_DEPTH
    requires Sound(body, bodies, name)
    ensures Sound(InlineFrom(name, body, bodies, order, k, seen, depth), bodies, name)
    decreases MAX_INLINE_DEPTH - depth, |order| - k
  {
    if k < |order| {
      var other := order[k];
      assert other in order;
      if other == name || other in seen || Matches(Erase(body, bodies), 0, other) == [] {
        InlineFromReachesOnly(name, body, bodies, order, k + 1, seen, depth);
      } else {
        var e := Inline(other, bodies, order, seen + {name, other}, depth + 1);
        InlineReachesOnly(other, bodies, order, seen + {name, other}, depth + 1);
        ExpandOne(name, body, bodies, other, e);
        InlineFromReachesOnly(name, SubTagged(body, bodies, other, e), bodies, order, k + 1, seen, depth);
      }
    }
  }

  // ---- The regions ----

  /** A region is text of functions reachable from its entry point and inserted newlines, nothing else. */
  ghost predicate ReachedFrom(region: string, bodies: Table, entry: string) {
    exists t: seq<Ch> :: From(t, bodies, entry) && region == Erase(t, bodies)
  }

  // ---- Where in the text the characters come from ----

  /** Where a character of an inlined text stands in the text the functions were found in. */
  function Origin(ch: Ch, spans: map<string, Span>): int
    requires ch.Own? && ch.owner in spans
  {
    spans[ch.owner].brace + 1 + ch.pos
  }

  /** Every character that is no inserted newline is the character at its origin, inside the braces of its owner. */
  lemma OriginsInside(t: seq<Ch>, text: string, found: seq<Found>, root: string, i: nat)
    requires Scanned(text, found) && From(t, Bodies(text, found), root) && i < |t| && t[i].Own?
    ensures
      var (g, spans) := (t[i].owner, Spans(text, found));
      && g in spans && spans[g].brace < Origin(t[i], spans) < spans[g].close < |text|
      && Erase(t, Bodies(text, found))[i] == text[Origin(t[i], spans)]
  {
    hide Reachable, Bodies, Spans;
    var g, bodies, spans := t[i].owner, Bodies(text, found), Spans(text, found);
    assert g in bodies && t[i].pos < |bodies[g]|;
    assert g in spans by { TableKeys(text, found); }
    TableFacts(text, found, g);
    BodyAt(text, spans[g], bodies[g], t[i].pos);
  }

  lemma BodyAt(text: string, s: Span, body: string, pos: nat)
    requires s.start <= s.brace < s.close < |text| && body == text[s.brace + 1..s.close] && pos < |body|
    ensures s.brace < s.brace + 1 + pos < s.close && body[pos] == text[s.brace + 1 + pos]
  {
  }

  /**
   * A character of an inlined text that stands inside the span of a function `f` the text does not reach belongs to a
   * reached function that lies within `f` or that `f` lies within.
   */
  lemma UnreachedOnlyNested(t: seq<Ch>, text: string, found: seq<Found>, root: string, f: string, i: nat)
    requires Scanned(text, found) && OpenHeaders(text, found) && From(t, Bodies(text, found), root) && i < |t| && t[i].Own?
    requires f in Spans(text, found) && !Reachable(Bodies(text, found), root, f)
    requires t[i].owner in Spans(text, found) && InSpan(Spans(text, found)[f], Origin(t[i], Spans(text, found)))
    ensures
      var (g, spans) := (t[i].owner, Spans(text, found));
      Reachable(Bodies(text, found), root, g) && (Within(spans[f], spans[g]) || Within(spans[g], spans[f]))
  {
    var g, spans := t[i].owner, Spans(text, found);
    OriginsInside(t, text, found, root, i);
    SpansAreLastDefinitions(text, found, f);
    SpansAreLastDefinitions(text, found, g);
    var j :| LastDefinition(text, found, j) && found[j].name == f && spans[f] == SpanOf(text, found[j]);
    var k :| LastDefinition(text, found, k) && found[k].name == g && spans[g] == SpanOf(text, found[k]);
    SpansNest(text, found, j, k, Origin(t[i], spans));
  }

  /** No character of `t` stands inside the span of `f`, but for those of functions `t` reaches that nest with `f`. */
  ghost predicate Absent(t: seq<Ch>, text: string, found: seq<Found>, root: string, f: string)
    requires f in Spans(text, found)
  {
    var spans := Spans(text, found);
    forall i :: 0 <= i < |t| && t[i].Own? && t[i].owner in spans && InSpan(spans[f], Origin(t[i], spans)) ==>
      Reachable(Bodies(text, found), root, t[i].owner)
      && (Within(spans[f], spans[t[i].owner]) || Within(spans[t[i].owner], spans[f]))
  }

  /**
   * A function no entry point reaches has text in no region: none of its characters is in an entry point's, unless it
   * nests with a reached function, and its whole span is blank at top level.
   */
  lemma UnreachedIsAbsent(text: string, found: seq<Found>, order: seq<string>, f: string)
    requires Scanned(text, found) && OpenHeaders(text, found) && f in Spans(text, found)
    requires forall n :: n in order <==> n in Bodies(text, found)
    requires forall n :: n in order ==> IsName(n)
    requires forall e :: e in EntriesIn(order) ==> !Reachable(Bodies(text, found), e, f)
    ensures forall e :: e in EntriesIn(order) ==>
      Absent(Inline(e, Bodies(text, found), order, {}, 0), text, found, e, f)
    ensures forall top, i :: Blanked(top, text, Spans(text, found)) && InSpan(Spans(text, found)[f], i) ==>
      0 <= i < |top| && top[i] == ' '
  {
    var bodies, spans := Bodies(text, found), Spans(text, found);
    TableFacts(text, found, f);
    hide Inline, Bodies, Spans, EntriesIn;
    forall e | e in EntriesIn(order) ensures Absent(Inline(e, bodies, order, {}, 0), text, found, e, f) {
      var t := Inline(e, bodies, order, {}, 0);
      InlineReachesOnly(e, bodies, order, {}, 0);
      forall i | 0 <= i < |t| && t[i].Own? && t[i].owner in spans && InSpan(spans[f], Origin(t[i], spans))
        ensures Reachable(bodies, e, t[i].owner) && (Within(spans[f], spans[t[i].owner]) || Within(spans[t[i].owner], spans[f]))
      {
        UnreachedOnlyNested(t, text, found, e, f, i);
      }
    }
  }

  function EntriesIn(order: seq<string>): seq<string> {
    if order == [] then []
    else EntriesIn(order[..|order| - 1]) + (if order[|order| - 1] in ENTRY_POINTS then [order[|order| - 1]] else [])
  }

  /** `_reachable_regions`: every defined entry point inlined, then the top level with the function spans blanked.
      `order` is any listing of the defined names; the program lists them sorted. */
  method ReachableRegions(text: string, found: seq<Found>, order: seq<string>) returns (regions: seq<(string, string)>)
    requires Scanned(text, found) && forall n :: n in order <==> n in Bodies(text, found)
    ensures |regions| == |EntriesIn(order)| + 1 && forall n :: n in order ==> IsName(n)
    ensures forall i :: 0 <= i < |EntriesIn(order)| ==>
      && regions[i].0 == EntriesIn(order)[i] && ReachedFrom(regions[i].1, Bodies(text, found), regions[i].0)
      && regions[i].1 == Erase(Inline(regions[i].0, Bodies(text, found), order, {}, 0), Bodies(text, found))
    ensures regions[|regions| - 1].0 == "top-level" && Blanked(regions[|regions| - 1].1, text, Spans(text, found))
  {
    var bodies, spans := FunctionTable(text, found);
    TableKeys(text, found);
    forall n | n in spans ensures IsName(n) && spans[n].start <= spans[n].close < |text| {
      TableFacts(text, found, n);
    }
    regions := [];
    for k := 0 to |order|
      invariant |regions| == |EntriesIn(order[..k])|
      invariant forall i :: 0 <= i < |regions| ==>
        && regions[i].0 == EntriesIn(order[..k])[i] && ReachedFrom(regions[i].1, bodies, regions[i].0)
        && regions[i].1 == Erase(Inline(regions[i].0, bodies, order, {}, 0), bodies)
    {
      assert order[..k + 1][..k] == order[..k];
      if order[k] in ENTRY_POINTS {
        var region := InlineText(order[k], bodies, order, {}, 0);
        InlineReachesOnly(order[k], bodies, order, {}, 0);
        assert ReachedFrom(region, bodies, order[k]);
        regions := regions + [(order[k], region)];
      }
    }
    assert order[..|order|] == order;
    var top := BlankSpans(text, spans);
    regions := regions + [("top-level", top)];
  }
}
