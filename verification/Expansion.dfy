/** `validators/behavior.py`, `_inline`: what is called does appear, whole, at every call site. */
module Expansion {
  import opened Text
  import opened Regions
  import opened Inlining
  import opened Options

  // ---- Where the call pattern matches ----

  /** The word `name` at `w`, a word ending with it. */
  predicate EndsWordAt(s: string, w: int, name: string) {
    0 <= w && w + |name| <= |s| && s[w..w + |name|] == name && (w + |name| == |s| || !IsWord(s[w + |name|]))
  }

  /** White space from `i` to `w`, and at `i` a command may begin. */
  predicate CommandFrom(s: string, i: int, w: int) {
    && 0 <= i <= w <= |s| && (forall j :: i <= j < w ==> IsSpace(s[j]))
    && (i == 0 || s[i - 1] in {';', '&', '|', '(', '\n'})
  }

  /** `name` is called at `w`: it is the first word of a command. */
  ghost predicate CalledAt(s: string, w: int, name: string) { EndsWordAt(s, w, name) && exists i :: CommandFrom(s, i, w) }

  ghost predicate CalledBehind(s: string, p: int, w: int, name: string) {
    EndsWordAt(s, w, name) && exists i :: p <= i && CommandFrom(s, i, w)
  }

  lemma LettersAt(s: string, w: int, name: string, k: int)
    requires IsName(name) && EndsWordAt(s, w, name) && w <= k < w + |name|
    ensures IsWord(s[k])
  {
    assert s[k] == s[w..w + |name|][k - w];
  }

  /** Behind a match at `w0` begins no command before the name has ended. */
  lemma BehindMatch(s: string, p: nat, w0: nat, w: int, name: string, i: int)
    requires IsName(name) && EndsWordAt(s, w0, name) && EndsWordAt(s, w, name)
    requires p <= w0 && (forall j :: p <= j < w0 ==> IsSpace(s[j])) && p <= i && CommandFrom(s, i, w)
    ensures w == w0 || w0 + |name| <= i
  {
    LettersAt(s, w, name, w);
    LettersAt(s, w0, name, w0);
    LettersAt(s, w0, name, w0 + |name| - 1);
    if w0 < i <= w0 + |name| - 1 { LettersAt(s, w0, name, i - 1); }
  }

  lemma SpaceRunIs(s: string, p: nat, w: nat)
    requires p <= w < |s| && !IsSpace(s[w]) && forall j :: p <= j < w ==> IsSpace(s[j])
    ensures SpaceRun(s, p) == w
  {
  }

  lemma CallHere(s: string, p: nat, name: string, w: int)
    requires p < |s| && IsName(name) && CommandFrom(s, p, w) && EndsWordAt(s, w, name)
    ensures CallAt(s, p, name) == Some(w)
  {
    LettersAt(s, w, name, w);
    SpaceRunIs(s, p, w);
  }

  lemma BehindCall(s: string, p: nat, name: string, w0: nat, w: int)
    requires p < |s| && IsName(name) && CallAt(s, p, name) == Some(w0)
    ensures CalledBehind(s, p, w, name) <==> w == w0 || CalledBehind(s, w0 + |name|, w, name)
  {
    assert CommandFrom(s, p, w0) && EndsWordAt(s, w0, name);
    if CalledBehind(s, p, w, name) {
      var i :| p <= i && CommandFrom(s, i, w);
      BehindMatch(s, p, w0, w, name, i);
    }
    if CalledBehind(s, w0 + |name|, w, name) {
      var i :| w0 + |name| <= i && CommandFrom(s, i, w);
      assert p <= i;
    }
  }

  lemma BehindNone(s: string, p: nat, name: string, w: int)
    requires p < |s| && IsName(name) && CallAt(s, p, name) == None
    ensures CalledBehind(s, p, w, name) <==> CalledBehind(s, p + 1, w, name)
  {
    if CalledBehind(s, p, w, name) {
      var i :| p <= i && CommandFrom(s, i, w);
      if i == p { CallHere(s, p, name, w); }
    }
    if CalledBehind(s, p + 1, w, name) {
      var i :| p + 1 <= i && CommandFrom(s, i, w);
      assert p <= i;
    }
  }

  lemma {:induction false} MatchesBehind(s: string, p: nat, name: string, w: int)
    requires p <= |s| && IsName(name)
    ensures w in Matches(s, p, name) <==> CalledBehind(s, p, w, name)
    decreases |s| - p
  {
    hide CalledBehind, CallAt;
    if p < |s| {
      match CallAt(s, p, name)
      case Some(w0) =>
        BehindCall(s, p, name, w0, w);
        MatchesBehind(s, w0 + |name|, name, w);
      case None =>
        BehindNone(s, p, name, w);
        MatchesBehind(s, p + 1, name, w);
    } else {
      NoneAtEnd(s, name, w);
    }
  }

  lemma NoneAtEnd(s: string, name: string, w: int)
    requires IsName(name)
    ensures !CalledBehind(s, |s|, w, name)
  {
  }

  /** The pattern matches exactly where the name is the first word of a command. */
  lemma MatchesIff(s: string, name: string, w: int)
    requires IsName(name)
    ensures w in Matches(s, 0, name) <==> CalledAt(s, w, name)
  {
    MatchesBehind(s, 0, name, w);
  }

  // ---- A text with some of its words replaced ----

  /** A character as it was, or a word with what stands in its place on lines of its own. */
  datatype Piece = Same(ch: Ch) | Swap(word: seq<Ch>, text: seq<Ch>)

  function In(p: Piece): seq<Ch> { if p.Same? then [p.ch] else p.word }
  function Out(p: Piece): seq<Ch> { if p.Same? then [p.ch] else [Break] + p.text + [Break] }

  function Ins(d: seq<Piece>): seq<Ch> { if d == [] then [] else Ins(d[..|d| - 1]) + In(d[|d| - 1]) }
  function Outs(d: seq<Piece>): seq<Ch> { if d == [] then [] else Outs(d[..|d| - 1]) + Out(d[|d| - 1]) }

  ghost predicate Letters(t: seq<Ch>, bodies: Table) {
    t != [] && forall i :: 0 <= i < |t| ==> t[i] != Break && IsWord(CharOf(t[i], bodies))
  }

  /** Only words are replaced. */
  ghost predicate Fine(d: seq<Piece>, bodies: Table) { forall i :: 0 <= i < |d| && d[i].Swap? ==> Letters(d[i].word, bodies) }

  /** `t` is `s` with some of its words replaced, each on lines of its own; all other characters stay, in their order. */
  ghost predicate Grown(s: seq<Ch>, t: seq<Ch>, bodies: Table) {
    exists d :: Fine(d, bodies) && Ins(d) == s && Outs(d) == t
  }

  lemma Assoc<T>(a: seq<T>, b: seq<T>, c: seq<T>)
    ensures a + (b + c) == (a + b) + c
  {
  }

  lemma {:induction false} PiecesConcat(a: seq<Piece>, b: seq<Piece>)
    ensures Ins(a + b) == Ins(a) + Ins(b) && Outs(a + b) == Outs(a) + Outs(b)
  {
    if b == [] {
      assert a + b == a;
    } else {
      var n := |b| - 1;
      assert (a + b)[..|a + b| - 1] == a + b[..n];
      PiecesConcat(a, b[..n]);
      Assoc(Ins(a), Ins(b[..n]), In(b[n]));
      Assoc(Outs(a), Outs(b[..n]), Out(b[n]));
    }
  }

  lemma PiecesStep(d: seq<Piece>, k: nat)
    requires k < |d|
    ensures Ins(d[..k + 1]) == Ins(d[..k]) + In(d[k]) && Outs(d[..k + 1]) == Outs(d[..k]) + Out(d[k])
  {
    assert d[..k + 1][..k] == d[..k];
  }

  lemma PiecesSplit(d: seq<Piece>, k: nat)
    requires k <= |d|
    ensures Ins(d) == Ins(d[..k]) + Ins(d[k..]) && Outs(d) == Outs(d[..k]) + Outs(d[k..])
  {
    hide Ins, Outs;
    PiecesConcat(d[..k], d[k..]);
    assert d[..k] + d[k..] == d;
  }

  /** The piece that a position of the new text belongs to. */
  lemma {:induction false} FindOut(d: seq<Piece>, c: nat) returns (k: nat)
    requires c < |Outs(d)|
    ensures k < |d| && |Outs(d[..k])| <= c < |Outs(d[..k])| + |Out(d[k])|
    ensures Outs(d)[c] == Out(d[k])[c - |Outs(d[..k])|]
  {
    var n := |d| - 1;
    if c < |Outs(d[..n])| {
      k := FindOut(d[..n], c);
      assert d[..n][..k] == d[..k];
    } else {
      k := n;
    }
  }

  lemma {:induction false} FindIn(d: seq<Piece>, w: nat) returns (k: nat)
    requires w < |Ins(d)|
    ensures k < |d| && |Ins(d[..k])| <= w < |Ins(d[..k])| + |In(d[k])|
  {
    var n := |d| - 1;
    if w < |Ins(d[..n])| {
      k := FindIn(d[..n], w);
      assert d[..n][..k] == d[..k];
    } else {
      k := n;
    }
  }

  lemma GrownSelf(s: seq<Ch>, bodies: Table)
    ensures Grown(s, s, bodies)
  {
    var d := Plain(s);
    PlainIs(s);
    assert Fine(d, bodies);
  }

  function Plain(s: seq<Ch>): seq<Piece> { seq(|s|, i requires 0 <= i < |s| => Same(s[i])) }

  lemma {:induction false} PlainIs(s: seq<Ch>)
    ensures Ins(Plain(s)) == s && Outs(Plain(s)) == s
  {
    if s != [] {
      var n := |s| - 1;
      PlainIs(s[..n]);
      assert Plain(s)[..n] == Plain(s[..n]);
      assert s == s[..n] + [s[n]];
    }
  }

  // ---- One replacement ----

  /** `len` characters at `c` replaced by `e` on lines of its own. */
  function Put(t: seq<Ch>, c: nat, len: nat, e: seq<Ch>): seq<Ch>
    requires c + len <= |t|
  {
    t[..c] + ([Break] + e + [Break]) + t[c + len..]
  }

  /** Piece `k` replaced. */
  function With(d: seq<Piece>, k: nat, n: nat, p: Piece): seq<Piece>
    requires k + n <= |d|
  {
    d[..k] + [p] + d[k + n..]
  }

  lemma WithPieces(d: seq<Piece>, k: nat, n: nat, p: Piece)
    requires k + n <= |d|
    ensures Ins(d) == Ins(d[..k]) + Ins(d[k..k + n]) + Ins(d[k + n..])
    ensures Outs(d) == Outs(d[..k]) + Outs(d[k..k + n]) + Outs(d[k + n..])
    ensures Ins(With(d, k, n, p)) == Ins(d[..k]) + In(p) + Ins(d[k + n..])
    ensures Outs(With(d, k, n, p)) == Outs(d[..k]) + Out(p) + Outs(d[k + n..])
  {
    hide Ins, Outs, In, Out;
    var a, b, c := d[..k], d[k..k + n], d[k + n..];
    ThreeParts(d, k, n);
    PiecesConcat(a + b, c);
    PiecesConcat(a, b);
    PiecesConcat(a + [p], c);
    PiecesConcat(a, [p]);
    OnePiece(p);
  }

  lemma ThreeParts<T>(d: seq<T>, k: nat, n: nat)
    requires k + n <= |d|
    ensures d == (d[..k] + d[k..k + n]) + d[k + n..]
  {
  }

  lemma OnePiece(p: Piece)
    ensures Ins([p]) == In(p) && Outs([p]) == Out(p)
  {
    assert [p][..0] == [];
  }

  /** A run of pieces that are characters as they were. */
  lemma {:induction false} SameRun(d: seq<Piece>)
    requires forall i :: 0 <= i < |d| ==> d[i].Same?
    ensures Ins(d) == Outs(d) && |Ins(d)| == |d|
  {
    if d != [] { SameRun(d[..|d| - 1]); }
  }

  /** The letters at `c`, when they begin with a character as it was, are all such characters. */
  lemma {:induction false} LettersAreSame(d: seq<Piece>, bodies: Table, k: nat, n: nat)
    requires k <= |d| && |Outs(d[..k])| + n <= |Outs(d)|
    requires forall i :: |Outs(d[..k])| <= i < |Outs(d[..k])| + n ==> Outs(d)[i] != Break
    ensures k + n <= |d| && forall i :: k <= i < k + n ==> d[i].Same?
    decreases n
  {
    hide Ins, Outs;
    if n > 0 {
      PiecesSplit(d, k);
      assert d[..|d|] == d;
      var c := |Outs(d[..k])|;
      PiecesStep(d, k);
      PiecesSplit(d, k + 1);
      assert Outs(d)[c] == Out(d[k])[0];
      LettersAreSame(d, bodies, k + 1, n - 1);
    }
  }

  /** Replacing a word of the new text: inside what already stands for another word, or a word that was still there. */
  lemma PutPieces(d: seq<Piece>, bodies: Table, c: nat, len: nat, e: seq<Ch>) returns (k: nat, now: seq<Piece>)
    requires Fine(d, bodies) && c + len <= |Outs(d)| && Letters(Outs(d)[c..c + len], bodies)
    ensures Fine(now, bodies) && Ins(now) == Ins(d) && Outs(now) == Put(Outs(d), c, len, e) && k < |d|
    ensures
      if d[k].Swap? then
        && |Outs(d[..k])| < c && c - |Outs(d[..k])| - 1 + len <= |d[k].text|
        && Letters(d[k].text[c - |Outs(d[..k])| - 1..][..len], bodies)
        && now == With(d, k, 1, Swap(d[k].word, Put(d[k].text, c - |Outs(d[..k])| - 1, len, e)))
      else
        && |Outs(d[..k])| == c && k + len <= |d| && (forall i :: k <= i < k + len ==> d[i].Same?)
        && now == With(d, k, len, Swap(Outs(d)[c..c + len], e))
  {
    hide Ins, Outs, With, Put;
    var t := Outs(d);
    k := FindOut(d, c);
    forall i | c <= i < c + len ensures t[i] != Break { assert t[i] == t[c..c + len][i - c]; }
    if d[k].Swap? {
      now := PutInside(d, bodies, k, c, len, e);
    } else {
      LettersAreSame(d, bodies, k, len);
      now := PutOutside(d, bodies, k, len, e);
    }
  }

  lemma PutInside(d: seq<Piece>, bodies: Table, k: nat, c: nat, len: nat, e: seq<Ch>) returns (now: seq<Piece>)
    requires Fine(d, bodies) && c + len <= |Outs(d)| && Letters(Outs(d)[c..c + len], bodies)
    requires k < |d| && d[k].Swap? && |Outs(d[..k])| <= c < |Outs(d[..k])| + |Out(d[k])|
    ensures Fine(now, bodies) && Ins(now) == Ins(d) && Outs(now) == Put(Outs(d), c, len, e)
    ensures |Outs(d[..k])| < c && c - |Outs(d[..k])| - 1 + len <= |d[k].text|
    ensures Letters(d[k].text[c - |Outs(d[..k])| - 1..][..len], bodies)
    ensures now == With(d, k, 1, Swap(d[k].word, Put(d[k].text, c - |Outs(d[..k])| - 1, len, e)))
  {
    hide Ins, Outs;
    var a, z, text := Outs(d[..k]), Outs(d[k + 1..]), d[k].text;
    WithPieces(d, k, 1, d[k]);
    assert d[k..k + 1] == [d[k]];
    OnePiece(d[k]);
    InsideText(a, text, z, bodies, c, len, e);
    var o := c - |a| - 1;
    now := With(d, k, 1, Swap(d[k].word, Put(text, o, len, e)));
    WithPieces(d, k, 1, Swap(d[k].word, Put(text, o, len, e)));
  }

  lemma InsideText(a: seq<Ch>, text: seq<Ch>, z: seq<Ch>, bodies: Table, c: nat, len: nat, e: seq<Ch>)
    requires |a| <= c < |a| + |text| + 2
    requires c + len <= |a + ([Break] + text + [Break]) + z|
    requires Letters((a + ([Break] + text + [Break]) + z)[c..c + len], bodies)
    ensures |a| < c && c - |a| - 1 + len <= |text| && Letters(text[c - |a| - 1..][..len], bodies)
    ensures Put(a + ([Break] + text + [Break]) + z, c, len, e) == a + ([Break] + Put(text, c - |a| - 1, len, e) + [Break]) + z
  {
    var t := a + ([Break] + text + [Break]) + z;
    var last := |a| + |text| + 1;
    assert t[|a|] == Break && t[last] == Break;
    assert t[c] == t[c..c + len][0];
    forall i | c <= i < c + len ensures t[i] != Break { assert t[i] == t[c..c + len][i - c]; }
    var o := c - |a| - 1;
    assert text[o..][..len] == t[c..c + len];
    assert t[..c] == a + [Break] + text[..o];
    assert t[c + len..] == text[o + len..] + [Break] + z;
  }

  lemma PutOutside(d: seq<Piece>, bodies: Table, k: nat, len: nat, e: seq<Ch>) returns (now: seq<Piece>)
    requires Fine(d, bodies) && k + len <= |d| && (forall i :: k <= i < k + len ==> d[i].Same?)
    requires |Outs(d[..k])| + len <= |Outs(d)|
    requires Letters(Outs(d)[|Outs(d[..k])|..|Outs(d[..k])| + len], bodies)
    ensures
      var c := |Outs(d[..k])|;
      && Fine(now, bodies) && Ins(now) == Ins(d) && Outs(now) == Put(Outs(d), c, len, e)
      && now == With(d, k, len, Swap(Outs(d)[c..c + len], e))
  {
    hide Ins, Outs;
    var c := |Outs(d[..k])|;
    var p := Swap(Outs(d)[c..c + len], e);
    WithPieces(d, k, len, p);
    SameRun(d[k..k + len]);
    assert Outs(d)[c..c + len] == Outs(d[k..k + len]);
    assert Outs(d)[..c] == Outs(d[..k]) && Outs(d)[c + len..] == Outs(d[k + len..]);
    now := With(d, k, len, p);
  }

  /** Replacing one more word of a grown text leaves a grown text. */
  lemma GrownPut(s: seq<Ch>, t: seq<Ch>, bodies: Table, c: nat, len: nat, e: seq<Ch>)
    requires Grown(s, t, bodies) && c + len <= |t| && Letters(t[c..c + len], bodies)
    ensures Grown(s, Put(t, c, len, e), bodies)
  {
    var d :| Fine(d, bodies) && Ins(d) == s && Outs(d) == t;
    var _, _ := PutPieces(d, bodies, c, len, e);
  }

  // ---- The inliner at work on one function ----

  /** What `name` is inlined with: everything `Inline` is given. */
  datatype Job = Job(name: string, bodies: Table, order: seq<string>, seen: set<string>, depth: nat)

  ghost predicate Runs(j: Job) { (forall n :: n in j.order ==> IsName(n)) && j.depth < MAX_INLINE_DEPTH }

  /** The helpers that may be expanded here. */
  predicate Expandable(j: Job, g: string) { g in j.order && g != j.name && g !in j.seen }

  /** What a call of `g` is replaced by. */
  ghost function Expanded(j: Job, g: string): seq<Ch>
    requires Runs(j)
  {
    Inline(g, j.bodies, j.order, j.seen + {j.name, g}, j.depth + 1)
  }

  ghost function Source(j: Job): string { BodyNamed(j.name, j.bodies) }

  /** Piece `i` is a whole word of the body, the name of a helper, and what stands for it has grown from its expansion. */
  ghost predicate Replaced(j: Job, d: seq<Piece>, i: nat)
    requires Runs(j) && i < |d| && d[i].Swap?
  {
    var g := Erase(d[i].word, j.bodies);
    && WordAt(Source(j), |Ins(d[..i])|, g) && Expandable(j, g)
    && Grown(Expanded(j, g), d[i].text, j.bodies)
  }

  ghost predicate Progress(j: Job, d: seq<Piece>)
    requires Runs(j)
  {
    && Fine(d, j.bodies) && Ins(d) == Tagged(j.name, j.bodies)
    && forall i :: 0 <= i < |d| && d[i].Swap? ==> Replaced(j, d, i)
  }

  /** The word of the body at `w` has been replaced. */
  ghost predicate SwappedAt(d: seq<Piece>, w: int) { exists i: nat :: SwapsAt(d, i, w) }
  ghost predicate SwapsAt(d: seq<Piece>, i: nat, w: int) { i < |d| && d[i].Swap? && |Ins(d[..i])| == w }

  /** The character of the body at `w` still stands, at `c`. */
  ghost predicate StandsAt(d: seq<Piece>, w: int, c: int) { exists i: nat :: StandsFor(d, i, w, c) }
  ghost predicate StandsFor(d: seq<Piece>, i: nat, w: int, c: int) {
    i < |d| && d[i].Same? && |Ins(d[..i])| == w && |Outs(d[..i])| == c
  }

  lemma SourceIs(j: Job)
    ensures Erase(Tagged(j.name, j.bodies), j.bodies) == Source(j)
  {
  }

  lemma BodyIs(j: Job, d: seq<Piece>)
    requires Runs(j) && Progress(j, d)
    ensures Erase(Ins(d), j.bodies) == Source(j) && |Ins(d)| == |Source(j)|
  {
    hide Ins, Outs, Replaced;
    SourceIs(j);
  }

  lemma WordLetters(t: seq<Ch>, bodies: Table, c: nat, g: string)
    requires WordAt(Erase(t, bodies), c, g)
    ensures Letters(t[c..c + |g|], bodies) && Erase(t[c..c + |g|], bodies) == g
  {
    var s := Erase(t, bodies);
    assert s[c..c + |g|] == g;
    forall k | 0 <= k < |g| ensures t[c + k] != Break && IsWord(CharOf(t[c + k], bodies)) && CharOf(t[c + k], bodies) == g[k] {
      assert s[c + k] == s[c..c + |g|][k] && !IsWord('\n');
    }
    var u := t[c..c + |g|];
    assert forall k :: 0 <= k < |g| ==> u[k] == t[c + k];
  }

  /** A piece where it stands in both texts. */
  lemma PieceAt(d: seq<Piece>, k: nat)
    requires k < |d|
    ensures |Ins(d[..k])| + |In(d[k])| <= |Ins(d)| && |Outs(d[..k])| + |Out(d[k])| <= |Outs(d)|
    ensures Ins(d)[|Ins(d[..k])|..][..|In(d[k])|] == In(d[k])
    ensures Outs(d)[|Outs(d[..k])|..][..|Out(d[k])|] == Out(d[k])
    ensures |Ins(d[..k + 1])| == |Ins(d[..k])| + |In(d[k])| && |Outs(d[..k + 1])| == |Outs(d[..k])| + |Out(d[k])|
  {
    hide Ins, Outs, In, Out;
    PiecesStep(d, k);
    PiecesSplit(d, k + 1);
    Middle(Ins(d[..k]), In(d[k]), Ins(d[k + 1..]));
    Middle(Outs(d[..k]), Out(d[k]), Outs(d[k + 1..]));
  }

  lemma Middle<T>(a: seq<T>, b: seq<T>, c: seq<T>)
    ensures ((a + b) + c)[|a|..][..|b|] == b
  {
  }

  /** The character of one piece in both texts. */
  lemma SameAt(d: seq<Piece>, bodies: Table, k: nat)
    requires k < |d| && d[k].Same?
    ensures |Ins(d[..k])| < |Ins(d)| && |Outs(d[..k])| < |Outs(d)|
    ensures Erase(Ins(d), bodies)[|Ins(d[..k])|] == CharOf(d[k].ch, bodies) == Erase(Outs(d), bodies)[|Outs(d[..k])|]
    ensures |Ins(d[..k + 1])| == |Ins(d[..k])| + 1 && |Outs(d[..k + 1])| == |Outs(d[..k])| + 1
  {
    hide Ins, Outs;
    PieceAt(d, k);
    var w, c := |Ins(d[..k])|, |Outs(d[..k])|;
    assert Ins(d)[w] == Ins(d)[w..][..1][0] && Outs(d)[c] == Outs(d)[c..][..1][0];
  }

  /** Whatever stands for a word begins and ends with a line break, and the word is letters. */
  lemma SwapAt(d: seq<Piece>, bodies: Table, k: nat)
    requires Fine(d, bodies) && k < |d| && d[k].Swap?
    ensures |Ins(d[..k])| < |Ins(d[..k + 1])| == |Ins(d[..k])| + |d[k].word| <= |Ins(d)|
    ensures forall i :: |Ins(d[..k])| <= i < |Ins(d[..k + 1])| ==> IsWord(Erase(Ins(d), bodies)[i])
  {
    hide Ins, Outs;
    PieceAt(d, k);
    var w := |Ins(d[..k])|;
    forall i | w <= i < w + |d[k].word| ensures IsWord(Erase(Ins(d), bodies)[i]) {
      assert Ins(d)[i] == Ins(d)[w..][..|d[k].word|][i - w] == d[k].word[i - w];
    }
  }

  // ---- A call that still stands ----

  /** Characters that are no letters were never replaced: the pieces in front of `i` that hold them are as they were. */
  lemma {:induction false} BackRun(d: seq<Piece>, bodies: Table, i: nat, n: nat)
    requires Fine(d, bodies) && i <= |d| && n <= |Ins(d[..i])| <= |Ins(d)|
    requires forall x :: |Ins(d[..i])| - n <= x < |Ins(d[..i])| ==> !IsWord(Erase(Ins(d), bodies)[x])
    ensures n <= i && |Ins(d[..i - n])| == |Ins(d[..i])| - n && |Outs(d[..i - n])| == |Outs(d[..i])| - n
    ensures n <= |Outs(d[..i])| <= |Outs(d)| && |Ins(d[..i])| <= |Ins(d)|
    ensures forall x :: |Ins(d[..i])| - n <= x < |Ins(d[..i])| ==>
      Erase(Ins(d), bodies)[x] == Erase(Outs(d), bodies)[x - |Ins(d[..i])| + |Outs(d[..i])|]
    decreases n
  {
    hide Ins, Outs;
    PiecesSplit(d, i);
    if n > 0 {
      NoPieces(d);
      var w := |Ins(d[..i])|;
      assert !IsWord(Erase(Ins(d), bodies)[w - 1]);
      if d[i - 1].Swap? {
        SwapAt(d, bodies, i - 1);
        assert false;
      }
      SameAt(d, bodies, i - 1);
      BackRun(d, bodies, i - 1, n - 1);
    }
  }

  lemma NoPieces(d: seq<Piece>)
    ensures d[..0] == [] && Ins(d[..0]) == [] && Outs(d[..0]) == []
  {
  }

  /** A text that begins where nothing has been read begins with the first piece. */
  lemma AtStart(d: seq<Piece>, bodies: Table, i: nat)
    requires Fine(d, bodies) && i <= |d| && |Ins(d[..i])| == 0
    ensures i == 0 && |Outs(d[..i])| == 0
  {
    hide Ins, Outs;
    NoPieces(d);
    if i > 0 {
      if d[i - 1].Swap? { SwapAt(d, bodies, i - 1); } else { SameAt(d, bodies, i - 1); }
    }
  }

  /** A replaced word begins where the letters in front of it, if any, are not its own. */
  lemma SwapStarts(j: Job, d: seq<Piece>, k: nat)
    requires Runs(j) && Progress(j, d) && k <= |d|
    ensures k < |d| && d[k].Swap? && 0 < |Ins(d[..k])| <= |Source(j)| ==> !IsWord(Source(j)[|Ins(d[..k])| - 1])
  {
    hide Ins, Outs, Grown, Expanded;
    if k < |d| && d[k].Swap? { assert Replaced(j, d, k); }
  }

  /** A replaced word ends where the letters behind it, if any, are not its own. */
  lemma SwapEnds(j: Job, d: seq<Piece>, k: nat)
    requires Runs(j) && Progress(j, d) && 0 < k <= |d|
    ensures d[k - 1].Swap? && |Ins(d[..k])| < |Source(j)| ==> !IsWord(Source(j)[|Ins(d[..k])|])
  {
    hide Ins, Outs, Grown, Expanded;
    PieceAt(d, k - 1);
    if d[k - 1].Swap? { assert Replaced(j, d, k - 1); }
  }

  /** Inside a word of the body no other word begins, so none of its letters but the first can begin a replaced one. */
  lemma {:induction false} WordRun(j: Job, d: seq<Piece>, i: nat, g: string, n: nat)
    requires Runs(j) && Progress(j, d) && i < |d| && d[i].Same? && n <= |g|
    requires IsName(g) && EndsWordAt(Source(j), |Ins(d[..i])|, g)
    ensures i + n <= |d| && |Ins(d[..i + n])| == |Ins(d[..i])| + n && |Outs(d[..i + n])| == |Outs(d[..i])| + n
    ensures |Outs(d[..i])| + n <= |Outs(d)|
    ensures forall x :: 0 <= x < n ==> Erase(Outs(d), j.bodies)[|Outs(d[..i])| + x] == g[x]
    decreases n
  {
    hide Ins, Outs, Progress, Erase;
    BodyIs(j, d);
    PiecesSplit(d, i);
    if n > 0 {
      WordRun(j, d, i, g, n - 1);
      var k, w := i + n - 1, |Ins(d[..i])|;
      LettersAt(Source(j), w, g, w + n - 1);
      assert Source(j)[w + n - 1] == Source(j)[w..w + |g|][n - 1];
      assert d[..|d|] == d;
      SwapStarts(j, d, k);
      if n > 1 { LettersAt(Source(j), w, g, w + n - 2); }
      SameAt(d, j.bodies, k);
    }
  }

  /** Behind a word of the body comes no replaced one, and what comes is no letter. */
  lemma AfterWord(j: Job, d: seq<Piece>, k: nat)
    requires Runs(j) && Progress(j, d) && k <= |d|
    requires |Ins(d[..k])| == |Source(j)| || (|Ins(d[..k])| < |Source(j)| && !IsWord(Source(j)[|Ins(d[..k])|]))
    ensures |Outs(d[..k])| == |Outs(d)| || (|Outs(d[..k])| < |Outs(d)| && !IsWord(Erase(Outs(d), j.bodies)[|Outs(d[..k])|]))
  {
    hide Ins, Outs;
    SourceIs(j);
    if k == |d| {
      assert d[..k] == d;
    } else if d[k].Swap? {
      SwapAt(d, j.bodies, k);
      assert false;
    } else {
      SameAt(d, j.bodies, k);
    }
  }

  lemma WordStands(j: Job, d: seq<Piece>, i: nat, g: string)
    requires Runs(j) && Progress(j, d) && i < |d| && d[i].Same? && IsName(g)
    requires EndsWordAt(Source(j), |Ins(d[..i])|, g)
    ensures EndsWordAt(Erase(Outs(d), j.bodies), |Outs(d[..i])|, g)
  {
    hide Ins, Outs;
    WordRun(j, d, i, g, |g|);
    AfterWord(j, d, i + |g|);
    assert Erase(Outs(d), j.bodies)[|Outs(d[..i])|..|Outs(d[..i])| + |g|] == g;
  }

  lemma CommandStands(j: Job, d: seq<Piece>, i: nat, from: int)
    requires Runs(j) && Progress(j, d) && i < |d| && CommandFrom(Source(j), from, |Ins(d[..i])|)
    ensures
      var c := |Outs(d[..i])|;
      CommandFrom(Erase(Outs(d), j.bodies), c - |Ins(d[..i])| + from, c)
  {
    hide Ins, Outs, Replaced;
    var s, t, w, c := Source(j), Erase(Outs(d), j.bodies), |Ins(d[..i])|, |Outs(d[..i])|;
    SourceIs(j);
    PiecesSplit(d, i);
    SpaceIsNoWord();
    var n := w - from;
    BackRun(d, j.bodies, i, n);
    forall y | c - n <= y < c ensures IsSpace(t[y]) { assert s[y - c + w] == t[y]; }
    if from == 0 {
      AtStart(d, j.bodies, i - n);
    } else {
      BackRun(d, j.bodies, i - n, 1);
      assert s[from - 1] == t[c - n - 1];
    }
  }

  /** A call in the body that still stands is a call in the text as it now is. */
  lemma StandingIsCalled(j: Job, d: seq<Piece>, i: nat, g: string)
    requires Runs(j) && Progress(j, d) && i < |d| && d[i].Same? && IsName(g)
    requires CalledAt(Source(j), |Ins(d[..i])|, g)
    ensures CalledAt(Erase(Outs(d), j.bodies), |Outs(d[..i])|, g)
  {
    hide Ins, Outs, Progress, EndsWordAt, CommandFrom;
    WordStands(j, d, i, g);
    var from :| CommandFrom(Source(j), from, |Ins(d[..i])|);
    CommandStands(j, d, i, from);
  }

  lemma SpaceIsNoWord()
    ensures forall ch: char :: IsSpace(ch) ==> !IsWord(ch)
    ensures forall ch :: ch in {';', '&', '|', '(', '\n'} ==> !IsWord(ch)
  {
  }

  /** A call in the body has been replaced, or still stands where it can be found. */
  lemma CallStandsOrGone(j: Job, d: seq<Piece>, w: int, g: string) returns (c: int)
    requires Runs(j) && Progress(j, d) && IsName(g) && CalledAt(Source(j), w, g)
    ensures SwappedAt(d, w) || (StandsAt(d, w, c) && CalledAt(Erase(Outs(d), j.bodies), c, g))
  {
    hide Ins, Outs, Replaced;
    SourceIs(j);
    LettersAt(Source(j), w, g, w);
    var i := FindIn(d, w);
    c := |Outs(d[..i])|;
    if d[i].Swap? {
      SwapAt(d, j.bodies, i);
      var from :| CommandFrom(Source(j), from, w);
      SpaceIsNoWord();
      assert w > 0 ==> !IsWord(Source(j)[w - 1]);
      assert SwapsAt(d, i, w);
    } else {
      StandingIsCalled(j, d, i, g);
      assert StandsFor(d, i, w, c);
    }
  }

  // ---- One replacement in the run ----

  /** What is asked of a replaced word of the body at `w`. */
  ghost predicate GoodSwap(j: Job, p: Piece, w: int)
    requires Runs(j)
  {
    p.Swap? && Letters(p.word, j.bodies) &&
    var g := Erase(p.word, j.bodies);
    WordAt(Source(j), w, g) && Expandable(j, g) && Grown(Expanded(j, g), p.text, j.bodies)
  }

  /** Where the pieces stand after some have been replaced by one that holds the same characters of the body. */
  lemma WithAt(d: seq<Piece>, k: nat, n: nat, p: Piece, i: nat)
    requires k + n <= |d| && In(p) == Ins(d[k..k + n]) && i <= |With(d, k, n, p)|
    ensures i <= k ==> With(d, k, n, p)[..i] == d[..i]
    ensures i > k ==> |Ins(With(d, k, n, p)[..i])| == |Ins(d[..i + n - 1])|
  {
    hide Ins, Outs, In, Out;
    var e := With(d, k, n, p);
    if i > k {
      var m := i + n - 1;
      assert e[..i] == With(d[..m], k, n, p);
      assert d[..m][k..k + n] == d[k..k + n] && d[..m][..k] == d[..k];
      WithPieces(d[..m], k, n, p);
    }
  }

  lemma WithProgress(j: Job, d: seq<Piece>, k: nat, n: nat, p: Piece)
    requires Runs(j) && Progress(j, d) && n >= 1 && k + n <= |d|
    requires In(p) == Ins(d[k..k + n]) && GoodSwap(j, p, |Ins(d[..k])|)
    ensures Progress(j, With(d, k, n, p))
  {
    hide Ins, Outs, Grown;
    var e := With(d, k, n, p);
    WithPieces(d, k, n, p);
    forall i | 0 <= i < |e| && e[i].Swap? ensures Replaced(j, e, i) && Letters(e[i].word, j.bodies) {
      WithAt(d, k, n, p, i);
      if i < k {
        assert Replaced(j, d, i);
      } else if i > k {
        assert Replaced(j, d, i + n - 1);
      }
    }
  }

  lemma WithSwapped(d: seq<Piece>, k: nat, n: nat, p: Piece, w: int)
    requires n >= 1 && k + n <= |d| && p.Swap? && In(p) == Ins(d[k..k + n])
    requires (n == 1 && d[k].Swap?) || forall i :: k <= i < k + n ==> d[i].Same?
    requires SwappedAt(d, w) || w == |Ins(d[..k])|
    ensures SwappedAt(With(d, k, n, p), w)
  {
    hide Ins, Outs;
    var e := With(d, k, n, p);
    if w == |Ins(d[..k])| {
      WithAt(d, k, n, p, k);
      assert SwapsAt(e, k, w);
    } else {
      var i: nat :| SwapsAt(d, i, w);
      var i' := if i < k then i else i - n + 1;
      WithAt(d, k, n, p, i');
      assert SwapsAt(e, i', w);
    }
  }

  lemma WithStands(d: seq<Piece>, k: nat, n: nat, p: Piece, w: int, c: int)
    requires k + n <= |d| && In(p) == Ins(d[k..k + n]) && StandsAt(d, w, c)
    requires c < |Outs(d[..k])|
    ensures StandsAt(With(d, k, n, p), w, c)
  {
    hide Ins, Outs;
    var i: nat :| StandsFor(d, i, w, c);
    if i >= k { OutsGrow(d, k, i); }
    WithAt(d, k, n, p, i);
    assert StandsFor(With(d, k, n, p), i, w, c);
  }

  lemma OutsGrow(d: seq<Piece>, k: nat, i: nat)
    requires k <= i <= |d|
    ensures |Outs(d[..k])| <= |Outs(d[..i])|
  {
    hide Ins, Outs;
    PiecesSplit(d[..i], k);
    assert d[..i][..k] == d[..k];
  }

  /** No two pieces that stand do so at the same place. */
  lemma StandsOnce(d: seq<Piece>, i: nat, k: nat)
    requires i < |d| && k < |d| && |Outs(d[..i])| == |Outs(d[..k])|
    ensures i == k
  {
    hide Ins, Outs;
    if i < k {
      PieceAt(d, i);
      OutsGrow(d, i + 1, k);
    } else if k < i {
      PieceAt(d, k);
      OutsGrow(d, k + 1, i);
    }
  }

  /** The run so far, with one more call of `g` replaced: what was swapped stays so, and what stood there is swapped. */
  ghost predicate OneMore(d: seq<Piece>, now: seq<Piece>, c: nat) {
    && (forall w :: SwappedAt(d, w) ==> SwappedAt(now, w))
    && (forall w :: StandsAt(d, w, c) ==> SwappedAt(now, w))
    && (forall w, c' :: c' < c && StandsAt(d, w, c') ==> StandsAt(now, w, c'))
  }

  lemma PutStep(j: Job, d: seq<Piece>, c: nat, g: string) returns (now: seq<Piece>)
    requires Runs(j) && Progress(j, d) && Expandable(j, g) && WordAt(Erase(Outs(d), j.bodies), c, g)
    ensures Progress(j, now) && Outs(now) == Put(Outs(d), c, |g|, Expanded(j, g)) && OneMore(d, now, c)
  {
    hide Ins, Outs, Grown, With, Put, Replaced, Letters;
    var e := Expanded(j, g);
    WordLetters(Outs(d), j.bodies, c, g);
    var k;
    k, now := PutPieces(d, j.bodies, c, |g|, e);
    if d[k].Swap? {
      PutInsideStep(j, d, k, c, g, e);
    } else {
      PutOutsideStep(j, d, k, c, g, e);
    }
  }

  lemma PutInsideStep(j: Job, d: seq<Piece>, k: nat, c: nat, g: string, e: seq<Ch>)
    requires Runs(j) && Progress(j, d) && k < |d| && d[k].Swap? && |Outs(d[..k])| < c
    requires c - |Outs(d[..k])| - 1 + |g| <= |d[k].text|
    requires Letters(d[k].text[c - |Outs(d[..k])| - 1..][..|g|], j.bodies)
    ensures
      var now := With(d, k, 1, Swap(d[k].word, Put(d[k].text, c - |Outs(d[..k])| - 1, |g|, e)));
      Progress(j, now) && OneMore(d, now, c)
  {
    hide Ins, Outs, With, Put;
    var o := c - |Outs(d[..k])| - 1;
    var p := Swap(d[k].word, Put(d[k].text, o, |g|, e));
    assert d[k..k + 1] == [d[k]];
    OnePiece(d[k]);
    assert Replaced(j, d, k);
    assert d[k].text[o..o + |g|] == d[k].text[o..][..|g|];
    GrownPut(Expanded(j, Erase(d[k].word, j.bodies)), d[k].text, j.bodies, o, |g|, e);
    WithProgress(j, d, k, 1, p);
    var now := With(d, k, 1, p);
    forall w | SwappedAt(d, w) ensures SwappedAt(now, w) { WithSwapped(d, k, 1, p, w); }
    forall w ensures !StandsAt(d, w, c) {
      if i: nat :| StandsFor(d, i, w, c) { OutOrder(d, k, i); }
    }
    forall w, c' | c' < c && StandsAt(d, w, c') ensures StandsAt(now, w, c') {
      var i: nat :| StandsFor(d, i, w, c');
      OutOrder(d, k, i);
      WithStands(d, k, 1, p, w, c');
    }
  }

  lemma OutOrder(d: seq<Piece>, k: nat, i: nat)
    requires k < |d| && i <= |d|
    ensures i < k ==> |Outs(d[..i])| < |Outs(d[..k])|
    ensures i > k ==> |Outs(d[..i])| >= |Outs(d[..k])| + |Out(d[k])|
  {
    hide Ins, Outs;
    if i < k {
      PieceAt(d, i);
      OutsGrow(d, i + 1, k);
    } else if i > k {
      PieceAt(d, k);
      OutsGrow(d, k + 1, i);
    }
  }

  lemma PutOutsideStep(j: Job, d: seq<Piece>, k: nat, c: nat, g: string, e: seq<Ch>)
    requires Runs(j) && Progress(j, d) && Expandable(j, g) && WordAt(Erase(Outs(d), j.bodies), c, g)
    requires k < |d| && |Outs(d[..k])| == c && k + |g| <= |d| && forall i :: k <= i < k + |g| ==> d[i].Same?
    requires e == Expanded(j, g)
    ensures
      var now := With(d, k, |g|, Swap(Outs(d)[c..c + |g|], e));
      Progress(j, now) && OneMore(d, now, c)
  {
    hide Ins, Outs, With, Grown;
    var n := |g|;
    var p := Swap(Outs(d)[c..c + n], e);
    WordLetters(Outs(d), j.bodies, c, g);
    SameStretch(d, k, n);
    WordStood(j, d, k, g);
    GrownSelf(e, j.bodies);
    WithProgress(j, d, k, n, p);
    var now := With(d, k, n, p);
    forall w | SwappedAt(d, w) ensures SwappedAt(now, w) { WithSwapped(d, k, n, p, w); }
    forall w | StandsAt(d, w, c) ensures SwappedAt(now, w) {
      var i: nat :| StandsFor(d, i, w, c);
      OutOrder(d, k, i);
      WithSwapped(d, k, n, p, w);
    }
    forall w, c' | c' < c && StandsAt(d, w, c') ensures StandsAt(now, w, c') { WithStands(d, k, n, p, w, c'); }
  }

  lemma SameStretch(d: seq<Piece>, k: nat, n: nat)
    requires k + n <= |d| && forall i :: k <= i < k + n ==> d[i].Same?
    ensures
      var (w, c) := (|Ins(d[..k])|, |Outs(d[..k])|);
      && w + n <= |Ins(d)| && c + n <= |Outs(d)|
      && Ins(d)[w..w + n] == Ins(d[k..k + n]) == Outs(d)[c..c + n]
      && |Ins(d[..k + n])| == w + n && |Outs(d[..k + n])| == c + n
  {
    hide Ins, Outs;
    var p := Same(Break);
    WithPieces(d, k, n, p);
    SameRun(d[k..k + n]);
    PiecesSplit(d[..k + n], k);
    assert d[..k + n][..k] == d[..k] && d[..k + n][k..] == d[k..k + n];
  }

  /** A whole word of the text, where it is still that of the body, is a whole word of the body. */
  lemma WordStood(j: Job, d: seq<Piece>, k: nat, g: string)
    requires Runs(j) && Progress(j, d) && k + |g| <= |d| && forall i :: k <= i < k + |g| ==> d[i].Same?
    requires WordAt(Erase(Outs(d), j.bodies), |Outs(d[..k])|, g)
    ensures WordAt(Source(j), |Ins(d[..k])|, g)
  {
    hide Ins, Outs, Progress, Erase;
    var s, t, w, c, n := Source(j), Erase(Outs(d), j.bodies), |Ins(d[..k])|, |Outs(d[..k])|, |g|;
    BodyIs(j, d);
    SameStretch(d, k, n);
    EraseSlice(Ins(d), j.bodies, w, w + n);
    EraseSlice(Outs(d), j.bodies, c, c + n);
    assert s[w..w + n] == g;
    assert IsWord(s[w]) && IsWord(s[w + n - 1]) by { assert s[w] == s[w..w + n][0] && s[w + n - 1] == s[w..w + n][n - 1]; }
    NoLetterBefore(j, d, k);
    NoLetterAfter(j, d, k + n);
  }

  lemma EraseSlice(t: seq<Ch>, bodies: Table, a: nat, b: nat)
    requires a <= b <= |t|
    ensures Erase(t, bodies)[a..b] == Erase(t[a..b], bodies)
  {
  }

  /** In front of a letter that still stands the body has no letter where the text has none. */
  lemma NoLetterBefore(j: Job, d: seq<Piece>, k: nat)
    requires Runs(j) && Progress(j, d) && k < |d| && d[k].Same?
    requires |Ins(d[..k])| < |Source(j)| && IsWord(Source(j)[|Ins(d[..k])|])
    requires |Outs(d[..k])| <= |Outs(d)| && (|Outs(d[..k])| == 0 || !IsWord(Erase(Outs(d), j.bodies)[|Outs(d[..k])| - 1]))
    ensures |Ins(d[..k])| == 0 || !IsWord(Source(j)[|Ins(d[..k])| - 1])
  {
    hide Ins, Outs, Replaced;
    SourceIs(j);
    if k == 0 {
      NoPieces(d);
    } else {
      SwapEnds(j, d, k);
      if d[k - 1].Same? { SameAt(d, j.bodies, k - 1); }
    }
  }

  lemma NoLetterAfter(j: Job, d: seq<Piece>, k: nat)
    requires Runs(j) && Progress(j, d) && 0 < k <= |d|
    requires 0 < |Ins(d[..k])| <= |Source(j)| && IsWord(Source(j)[|Ins(d[..k])| - 1])
    requires |Outs(d[..k])| == |Outs(d)| || (|Outs(d[..k])| < |Outs(d)| && !IsWord(Erase(Outs(d), j.bodies)[|Outs(d[..k])|]))
    ensures |Ins(d[..k])| == |Source(j)| || !IsWord(Source(j)[|Ins(d[..k])|])
  {
    hide Ins, Outs, Replaced;
    SourceIs(j);
    SwapStarts(j, d, k);
    if k == |d| {
      assert d[..k] == d;
    } else if d[k].Same? {
      SameAt(d, j.bodies, k);
    }
  }

  // ---- All calls of one helper ----

  ghost predicate AllMore(d: seq<Piece>, now: seq<Piece>, p: nat, cuts: seq<nat>) {
    && (forall w :: SwappedAt(d, w) ==> SwappedAt(now, w))
    && (forall w, c :: c in cuts && StandsAt(d, w, c) ==> SwappedAt(now, w))
    && (forall w, c :: c < p && StandsAt(d, w, c) ==> StandsAt(now, w, c))
  }

  lemma {:induction false} PutAll(j: Job, d: seq<Piece>, p: nat, cuts: seq<nat>, g: string) returns (now: seq<Piece>)
    requires Runs(j) && Progress(j, d) && Expandable(j, g) && p <= |Outs(d)|
    requires CleanCuts(Erase(Outs(d), j.bodies), p, cuts, g)
    ensures Progress(j, now) && AllMore(d, now, p, cuts)
    ensures Outs(now) == Outs(d)[..p] + Splice(Outs(d), p, cuts, |g|, [Break] + Expanded(j, g) + [Break])
    decreases |cuts|
  {
    hide Ins, Outs, Progress, SwappedAt, StandsAt, OneMore, AllMore, Put, WordAt, CleanCuts, Splice, Expanded;
    var t, e := Outs(d), Expanded(j, g);
    NothingMore(d, p);
    SpliceStep(t, p, cuts, |g|, [Break] + e + [Break]);
    if cuts == [] {
      now := d;
    } else {
      var c := cuts[0];
      FirstCut(Erase(t, j.bodies), p, cuts, g);
      var one := PutAll(j, d, c + |g|, cuts[1..], g);
      var rest := Splice(t, c + |g|, cuts[1..], |g|, [Break] + e + [Break]);
      WordInFront(t, j.bodies, c, g, cuts[1..], e);
      now := PutStep(j, one, c, g);
      PutFront(t, p, c, |g|, e, rest);
      MoreThen(d, one, now, p, |g|, cuts);
    }
  }

  lemma SpliceStep(t: seq<Ch>, p: nat, cuts: seq<nat>, len: nat, mid: seq<Ch>)
    requires p <= |t|
    ensures cuts == [] ==> t[..p] + Splice(t, p, cuts, len, mid) == t
    ensures cuts != [] && p <= cuts[0] && cuts[0] + len <= |t| ==>
      Splice(t, p, cuts, len, mid) == t[p..cuts[0]] + mid + Splice(t, cuts[0] + len, cuts[1..], len, mid)
  {
  }

  lemma FirstCut(s: string, p: nat, cuts: seq<nat>, g: string)
    requires cuts != [] && CleanCuts(s, p, cuts, g)
    ensures p <= cuts[0] && cuts[0] + |g| <= |s| && 0 < |g| && WordAt(s, cuts[0], g) && CleanCuts(s, cuts[0] + |g|, cuts[1..], g)
  {
  }

  lemma NothingMore(d: seq<Piece>, p: nat)
    ensures AllMore(d, d, p, [])
  {
  }

  lemma MoreThen(d: seq<Piece>, one: seq<Piece>, now: seq<Piece>, p: nat, len: nat, cuts: seq<nat>)
    requires cuts != [] && p <= cuts[0] && len > 0
    requires AllMore(d, one, cuts[0] + len, cuts[1..]) && OneMore(one, now, cuts[0])
    ensures AllMore(d, now, p, cuts)
  {
    hide SwappedAt, StandsAt;
    assert forall c :: c in cuts <==> c == cuts[0] || c in cuts[1..];
  }

  lemma PutFront(t: seq<Ch>, p: nat, c: nat, len: nat, e: seq<Ch>, rest: seq<Ch>)
    requires p <= c && c + len <= |t|
    ensures Put(t[..c + len] + rest, c, len, e) == t[..p] + (t[p..c] + ([Break] + e + [Break]) + rest)
  {
    var u := t[..c + len] + rest;
    assert u[..c] == t[..p] + t[p..c] && u[c + len..] == rest;
  }

  /** With later calls replaced, the word in front of them is still a word. */
  lemma WordInFront(t: seq<Ch>, bodies: Table, c: nat, g: string, cuts: seq<nat>, e: seq<Ch>)
    requires WordAt(Erase(t, bodies), c, g) && CleanCuts(Erase(t, bodies), c + |g|, cuts, g)
    ensures
      var u := t[..c + |g|] + Splice(t, c + |g|, cuts, |g|, [Break] + e + [Break]);
      WordAt(Erase(u, bodies), c, g)
  {
    var s, n := Erase(t, bodies), c + |g|;
    var rest := Splice(t, n, cuts, |g|, [Break] + e + [Break]);
    var u := t[..n] + rest;
    assert rest != [] ==> !IsWord(CharOf(rest[0], bodies)) by {
      if cuts != [] && cuts[0] == n {
        assert rest[0] == Break;
      } else if rest != [] {
        assert rest[0] == t[n] && s[n] == CharOf(t[n], bodies);
      }
    }
    assert Erase(u, bodies)[..n] == s[..n];
    assert Erase(u, bodies)[c..n] == Erase(u, bodies)[..n][c..] == s[..n][c..] == s[c..n];
  }

  // ---- All helpers ----

  /** The calls of the first `k` helpers have been replaced. */
  ghost predicate AllDone(j: Job, d: seq<Piece>, k: nat)
    requires k <= |j.order|
  {
    forall w, g :: g in j.order[..k] && Expandable(j, g) && CalledAt(Source(j), w, g) ==> SwappedAt(d, w)
  }

  lemma OneHelper(j: Job, d: seq<Piece>, k: nat) returns (now: seq<Piece>)
    requires Runs(j) && Progress(j, d) && k < |j.order| && AllDone(j, d, k) && Expandable(j, j.order[k])
    ensures Progress(j, now) && AllDone(j, now, k + 1)
    ensures
      var t, g := Outs(d), j.order[k];
      Outs(now) == if Matches(Erase(t, j.bodies), 0, g) == [] then t else SubTagged(t, j.bodies, g, Expanded(j, g))
  {
    hide Ins, Outs, Progress, Expanded, SwappedAt, StandsAt, CalledAt;
    var t, g := Outs(d), j.order[k];
    var s := Erase(t, j.bodies);
    var cuts := Matches(s, 0, g);
    MatchesCutCleanly(s, 0, 0, g);
    now := PutAll(j, d, 0, cuts, g);
    SpliceStep(t, 0, cuts, |g|, [Break] + Expanded(j, g) + [Break]);
    assert t[..0] == [];
    forall w, h | h in j.order[..k + 1] && Expandable(j, h) && CalledAt(Source(j), w, h) ensures SwappedAt(now, w) {
      if h == g {
        var c := CallStandsOrGone(j, d, w, g);
        MatchesIff(s, g, c);
      } else {
        assert h in j.order[..k];
      }
    }
  }

  lemma {:induction false} InlineProgress(j: Job, d: seq<Piece>, k: nat) returns (now: seq<Piece>)
    requires Runs(j) && Progress(j, d) && k <= |j.order| && AllDone(j, d, k)
    ensures Progress(j, now) && AllDone(j, now, |j.order|)
    ensures Outs(now) == InlineFrom(j.name, Outs(d), j.bodies, j.order, k, j.seen, j.depth)
    decreases |j.order| - k
  {
    hide Ins, Outs, Progress;
    if k == |j.order| {
      now := d;
    } else {
      var one := d;
      if Expandable(j, j.order[k]) {
        one := OneHelper(j, d, k);
      } else {
        assert forall g :: g in j.order[..k + 1] && Expandable(j, g) ==> g in j.order[..k];
      }
      now := InlineProgress(j, one, k + 1);
    }
  }

  lemma WordsAgree(s: string, w: nat, g: string, h: string)
    requires WordAt(s, w, g) && IsName(h) && EndsWordAt(s, w, h)
    ensures g == h
  {
    if |g| < |h| { LettersAt(s, w, h, w + |g|); }
    if |h| < |g| { InsideWord(s, w, g, w + |h|); }
    assert s[w..w + |g|] == g && s[w..w + |h|] == h;
  }

  /** The call of `g` at `w` in the body has been replaced, by a text grown from the expansion of `g`. */
  ghost predicate Filled(j: Job, d: seq<Piece>, w: int, g: string)
    requires Runs(j)
  {
    exists i: nat :: SwapsAt(d, i, w) && Erase(d[i].word, j.bodies) == g && Grown(Expanded(j, g), d[i].text, j.bodies)
  }

  /**
   * Below the depth cap an inlined function is its body with words replaced, and every call of a helper not yet on the way
   * is among them: there stands, on lines of its own, what the helper expands to.
   */
  lemma EveryCallExpanded(j: Job) returns (d: seq<Piece>)
    requires Runs(j)
    ensures Fine(d, j.bodies) && Ins(d) == Tagged(j.name, j.bodies)
    ensures Outs(d) == Inline(j.name, j.bodies, j.order, j.seen, j.depth)
    ensures forall w, g :: Expandable(j, g) && CalledAt(Source(j), w, g) ==> Filled(j, d, w, g)
  {
    hide Ins, Outs, Expanded, Grown, WordAt, EndsWordAt;
    var t := Tagged(j.name, j.bodies);
    PlainIs(t);
    assert Progress(j, Plain(t)) && AllDone(j, Plain(t), 0);
    d := InlineProgress(j, Plain(t), 0);
    forall w, g | Expandable(j, g) && CalledAt(Source(j), w, g) ensures Filled(j, d, w, g) {
      assert g in j.order[..|j.order|];
      var i: nat :| SwapsAt(d, i, w);
      assert Replaced(j, d, i);
      WordsAgree(Source(j), w, Erase(d[i].word, j.bodies), g);
    }
  }

  // ---- Along a path of calls ----

  /** What has grown from a grown text has grown from the first. */
  lemma {:induction false} GrownFrom(s: seq<Ch>, d: seq<Piece>, bodies: Table, k: nat)
    requires Fine(d, bodies) && k <= |d| && Grown(s, Ins(d), bodies)
    ensures Grown(s, Ins(d[..k]) + Outs(d[k..]), bodies)
    decreases |d| - k
  {
    hide Ins, Outs, Grown;
    if k == |d| {
      NoPieces(d);
      assert d[..k] == d && d[k..] == d[..0];
      assert Ins(d) + [] == Ins(d);
    } else {
      GrownFrom(s, d, bodies, k + 1);
      PiecesStep(d, k);
      var a, z, p := Ins(d[..k]), Outs(d[k + 1..]), d[k];
      assert d[k..] == [p] + d[k + 1..];
      PiecesConcat([p], d[k + 1..]);
      OnePiece(p);
      if p.Swap? {
        PutWord(a, p, z);
        GrownPut(s, (a + p.word) + z, bodies, |a|, |p.word|, p.text);
      } else {
        Assoc(a, [p.ch], z);
      }
    }
  }

  lemma PutWord(a: seq<Ch>, p: Piece, z: seq<Ch>)
    requires p.Swap?
    ensures Put((a + p.word) + z, |a|, |p.word|, p.text) == a + (Out(p) + z)
    ensures ((a + p.word) + z)[|a|..|a| + |p.word|] == p.word
  {
  }

  lemma GrownThen(s: seq<Ch>, t: seq<Ch>, u: seq<Ch>, bodies: Table)
    requires Grown(s, t, bodies) && Grown(t, u, bodies)
    ensures Grown(s, u, bodies)
  {
    var d :| Fine(d, bodies) && Ins(d) == t && Outs(d) == u;
    GrownFrom(s, d, bodies, 0);
    NoPieces(d);
    assert d[0..] == d && [] + Outs(d) == Outs(d);
  }

  /** A stretch of whole lines. */
  predicate Lines(t: seq<Ch>, a: int, b: int) {
    0 <= a <= b <= |t| && (a == 0 || t[a - 1] == Break) && (b == |t| || t[b] == Break)
  }

  /** The body of `g` stands on lines of its own in `t`, but for words of it that have been replaced. */
  ghost predicate Shows(t: seq<Ch>, bodies: Table, g: string) {
    exists a, b :: Lines(t, a, b) && Grown(Tagged(g, bodies), t[a..b], bodies)
  }

  /** Where a line break is, a piece ends. */
  lemma BreakPiece(d: seq<Piece>, bodies: Table, x: nat) returns (k: nat)
    requires Fine(d, bodies) && x < |Ins(d)| && Ins(d)[x] == Break
    ensures k < |d| && d[k] == Same(Break) && |Ins(d[..k])| == x && |Ins(d[..k + 1])| == x + 1
    ensures |Outs(d[..k])| < |Outs(d)| && Outs(d)[|Outs(d[..k])|] == Break && |Outs(d[..k + 1])| == |Outs(d[..k])| + 1
  {
    hide Ins, Outs;
    k := FindIn(d, x);
    PieceAt(d, k);
    var w, c := |Ins(d[..k])|, |Outs(d[..k])|;
    assert Ins(d)[x] == Ins(d)[w..][..|In(d[k])|][x - w];
    assert d[k].Same? ==> Outs(d)[c] == Outs(d)[c..][..1][0];
  }

  lemma InsGrow(d: seq<Piece>, bodies: Table, k: nat, i: nat)
    requires Fine(d, bodies) && k < i <= |d|
    ensures |Ins(d[..k])| < |Ins(d[..i])|
  {
    hide Ins, Outs;
    PiecesSplit(d[..i], k + 1);
    assert d[..i][..k + 1] == d[..k + 1];
    if d[k].Swap? { SwapAt(d, bodies, k); } else { SameAt(d, bodies, k); }
  }

  /** Whole lines of a text are whole lines of what grows from it. */
  lemma LinesGrow(t: seq<Ch>, u: seq<Ch>, bodies: Table, a: int, b: int) returns (x: int, y: int)
    requires Grown(t, u, bodies) && Lines(t, a, b)
    ensures Lines(u, x, y) && Grown(t[a..b], u[x..y], bodies)
  {
    hide Ins, Outs;
    var d :| Fine(d, bodies) && Ins(d) == t && Outs(d) == u;
    NoPieces(d);
    assert d[..|d|] == d;
    var ka, kb: nat := 0, |d|;
    if a > 0 {
      var k := BreakPiece(d, bodies, a - 1);
      ka := k + 1;
    }
    if b < |t| { kb := BreakPiece(d, bodies, b); }
    if kb < ka { InsGrow(d, bodies, kb, ka); }
    x, y := |Outs(d[..ka])|, |Outs(d[..kb])|;
    Stretch(d, ka, kb);
    assert Fine(d[ka..kb], bodies);
  }

  lemma Stretch(d: seq<Piece>, i: nat, k: nat)
    requires i <= k <= |d|
    ensures |Ins(d[..i])| <= |Ins(d[..k])| <= |Ins(d)| && |Outs(d[..i])| <= |Outs(d[..k])| <= |Outs(d)|
    ensures Ins(d[i..k]) == Ins(d)[|Ins(d[..i])|..|Ins(d[..k])|] && Outs(d[i..k]) == Outs(d)[|Outs(d[..i])|..|Outs(d[..k])|]
  {
    hide Ins, Outs;
    PiecesSplit(d, k);
    PiecesSplit(d[..k], i);
    assert d[..k][..i] == d[..i] && d[..k][i..] == d[i..k];
    Slices(Ins(d[..i]), Ins(d[i..k]), Ins(d[k..]));
    Slices(Outs(d[..i]), Outs(d[i..k]), Outs(d[k..]));
  }

  lemma Slices<T>(a: seq<T>, b: seq<T>, c: seq<T>)
    ensures ((a + b) + c)[|a|..|a + b|] == b
  {
  }

  lemma ShowsGrows(t: seq<Ch>, u: seq<Ch>, bodies: Table, g: string)
    requires Shows(t, bodies, g) && Grown(t, u, bodies)
    ensures Shows(u, bodies, g)
  {
    hide Grown;
    var a, b :| Lines(t, a, b) && Grown(Tagged(g, bodies), t[a..b], bodies);
    var x, y := LinesGrow(t, u, bodies, a, b);
    GrownThen(Tagged(g, bodies), t[a..b], u[x..y], bodies);
  }

  /** What a replaced word's text shows, the whole text shows. */
  lemma ShowsInside(d: seq<Piece>, bodies: Table, i: nat, g: string)
    requires i < |d| && d[i].Swap? && Shows(d[i].text, bodies, g)
    ensures Shows(Outs(d), bodies, g)
  {
    hide Ins, Outs, Grown;
    var a, b :| Lines(d[i].text, a, b) && Grown(Tagged(g, bodies), d[i].text[a..b], bodies);
    PieceAt(d, i);
    LinesInside(Outs(d), |Outs(d[..i])|, d[i].text, a, b);
  }

  lemma SliceOfSlice<T>(u: seq<T>, c: nat, n: nat, x: nat, y: nat)
    requires c + n <= |u| && x <= y <= n
    ensures u[c..][..n][x..y] == u[c + x..c + y]
  {
  }

  lemma LinesInside(u: seq<Ch>, c: nat, text: seq<Ch>, a: int, b: int)
    requires Lines(text, a, b) && c + |text| + 2 <= |u| && u[c..][..|text| + 2] == [Break] + text + [Break]
    ensures Lines(u, c + 1 + a, c + 1 + b) && u[c + 1 + a..c + 1 + b] == text[a..b]
  {
    var n := |text| + 2;
    var whole := u[c..][..n];
    assert whole[0] == Break == whole[n - 1];
    assert whole[1 + a..1 + b] == text[a..b];
    SliceOfSlice(u, c, n, 1 + a, 1 + b);
    assert a > 0 ==> whole[a] == text[a - 1];
    assert b < |text| ==> whole[1 + b] == text[b];
    assert u[c + a] == whole[a] && u[c + 1 + b] == whole[1 + b];
  }

  /** Functions calling one another in turn, each for the first time. */
  ghost predicate CallPath(path: seq<string>, bodies: Table, order: seq<string>, seen: set<string>) {
    && path != [] && (forall i, k :: 0 <= i < k < |path| ==> path[i] != path[k])
    && (forall i :: 0 < i < |path| ==> path[i] in order && path[i] !in seen && Calls(bodies, path[i - 1], path[i]))
  }

  ghost predicate Calls(bodies: Table, f: string, g: string) { exists w :: CalledAt(BodyNamed(f, bodies), w, g) }

  /** Along a path of calls no longer than the depth cap, the text of the first function shows the body of the last. */
  lemma {:induction false} CalledTextAppears(path: seq<string>, bodies: Table, order: seq<string>, seen: set<string>, depth: nat)
    requires (forall n :: n in order ==> IsName(n)) && CallPath(path, bodies, order, seen)
    requires depth + |path| - 1 <= MAX_INLINE_DEPTH
    ensures Shows(Inline(path[0], bodies, order, seen, depth), bodies, path[|path| - 1])
    decreases |path|
  {
    hide Ins, Outs, Grown, CalledAt;
    var t := Inline(path[0], bodies, order, seen, depth);
    if |path| == 1 {
      assert Grown(Tagged(path[0], bodies), t, bodies) by {
        if depth < MAX_INLINE_DEPTH {
          var d := EveryCallExpanded(Job(path[0], bodies, order, seen, depth));
          GrownBy(d, bodies);
        } else {
          GrownSelf(t, bodies);
        }
      }
      assert t[0..|t|] == t && Lines(t, 0, |t|);
    } else {
      var j := Job(path[0], bodies, order, seen, depth);
      var g := path[1];
      var d := EveryCallExpanded(j);
      assert Calls(bodies, path[0], g);
      var w :| CalledAt(Source(j), w, g);
      assert Filled(j, d, w, g);
      var i: nat :| SwapsAt(d, i, w) && Erase(d[i].word, bodies) == g && Grown(Expanded(j, g), d[i].text, bodies);
      PathGoesOn(path, bodies, order, seen);
      CalledTextAppears(path[1..], bodies, order, seen + {path[0], g}, depth + 1);
      ShowsGrows(Expanded(j, g), d[i].text, bodies, path[|path| - 1]);
      ShowsInside(d, bodies, i, path[|path| - 1]);
    }
  }

  lemma GrownBy(d: seq<Piece>, bodies: Table)
    requires Fine(d, bodies)
    ensures Grown(Ins(d), Outs(d), bodies)
  {
  }

  lemma PathGoesOn(path: seq<string>, bodies: Table, order: seq<string>, seen: set<string>)
    requires CallPath(path, bodies, order, seen) && |path| > 1
    ensures CallPath(path[1..], bodies, order, seen + {path[0], path[1]})
  {
    var rest := path[1..];
    forall i | 0 < i < |rest| ensures rest[i] in order && rest[i] !in seen + {path[0], path[1]} && Calls(bodies, rest[i - 1], rest[i]) {
      assert rest[i] == path[i + 1] && rest[i - 1] == path[i];
      assert Calls(bodies, path[i + 1 - 1], path[i + 1]);
    }
  }

  // ---- Two functions ----

  const RECIPE := "build(){s}\ns(){a|sh}"
  const RECIPE_FOUND := [Found(0, 7, "build"), Found(11, 14, "s")]

  lemma RecipeBodies()
    ensures Bodies(RECIPE, RECIPE_FOUND) == map["build" := "s", "s" := "a|sh"]
  {
    assert |RECIPE| == 20;
    assert Close(RECIPE, 7, 0) == Close(RECIPE, 8, 1) == Close(RECIPE, 9, 1) == Some(9);
    assert Close(RECIPE, 14, 0) == Close(RECIPE, 15, 1) == Close(RECIPE, 16, 1) == Close(RECIPE, 17, 1);
    assert Close(RECIPE, 17, 1) == Close(RECIPE, 18, 1) == Close(RECIPE, 19, 1) == Some(19);
    assert RECIPE[8..9] == "s" && RECIPE[15..19] == "a|sh";
    assert RECIPE_FOUND[..1][..0] == [] && Bodies(RECIPE, RECIPE_FOUND[..1][..0]) == map[];
    assert Bodies(RECIPE, RECIPE_FOUND[..1]) == map["build" := "s"];
  }

  lemma CallOfS(e: string)
    ensures Matches("s", 0, "s") == [0] && Sub("s", "s", e) == "\n" + e + "\n"
  {
    assert CallAt("s", 0, "s") == Some(0) && Matches("s", 1, "s") == [];
    assert Splice("s", 0, [0], 1, "\n" + e + "\n") == "" + ("\n" + e + "\n") + "";
  }

  /** A recipe whose `build` calls a helper: the region of `build` is the helper's text, on lines of its own. */
  lemma HelperTextIsInRegion()
    ensures
      var bodies := Bodies(RECIPE, RECIPE_FOUND);
      Erase(Inline("build", bodies, ["build", "s"], {}, 0), bodies) == "\na|sh\n"
  {
    hide Bodies, Splice, Matches;
    RecipeBodies();
    var bodies, order := Bodies(RECIPE, RECIPE_FOUND), ["build", "s"];
    var t, e := Tagged("build", bodies), Tagged("s", bodies);
    assert Erase(t, bodies) == "s" && Erase(e, bodies) == "a|sh";
    CallOfS("a|sh");
    var seen := {} + {"build", "s"};
    assert InlineFrom("s", e, bodies, order, 2, seen, 1) == e;
    assert InlineFrom("s", e, bodies, order, 1, seen, 1) == e;
    assert Inline("s", bodies, order, seen, 1) == e;
    var u := SubTagged(t, bodies, "s", e);
    SubErases(t, bodies, "s", e);
    assert InlineFrom("build", u, bodies, order, 2, {}, 0) == u;
    assert InlineFrom("build", t, bodies, order, 1, {}, 0) == u;
  }
}
