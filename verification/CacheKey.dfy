/** `harness/regression_cache.py`, `cache_key`: equal keys mean equal inputs to the verdict. */
module CacheKey {
  import opened Text

  const SEP := '\U{1F}'

  /** What a verdict is reached on; the text is the recorded PKGBUILD, empty when there is none. */
  datatype Question = Question(diffHash: string, text: string, rules: seq<string>)
  datatype Environment = Environment(version: string, config: string, dbState: string, seed: string, snapshot: string,
                                     ioc: string, aur: string, python: string, threshold: string, modeGaps: seq<string>)
  datatype Sources = Sources(validator: string, judge: string, trustsight: string)
  datatype Inputs = Inputs(question: Question, env: Environment, sources: Sources)

  /** Fifteen fields, and the rules as a sixteenth when there are any. */
  function Fields(i: Inputs, hash: string -> string): seq<string> {
    var e := i.env;
    [i.question.diffHash, hash(i.question.text), e.version, e.config, e.dbState, e.seed, e.snapshot, e.ioc, e.aur, e.python,
     e.threshold, Join(e.modeGaps, ','), i.sources.validator, i.sources.judge, i.sources.trustsight]
    + (var rules := Join(i.question.rules, ','); if rules == "" then [] else [rules])
  }

  function Key(i: Inputs, hash: string -> string): string { hash(Join(Fields(i, hash), SEP)) }

  ghost predicate Injective(hash: string -> string) { forall s, t :: hash(s) == hash(t) ==> s == t }

  /** Names that a comma-separated list keeps apart. */
  predicate Names(list: seq<string>) { forall n :: n in list ==> n != "" && ',' !in n }

  /** No field holds the separator. */
  predicate Separable(i: Inputs, hash: string -> string) { forall f :: f in Fields(i, hash) ==> SEP !in f }

  /** Inputs whose fields hold no separator and whose lists hold names. */
  predicate Plain(i: Inputs, hash: string -> string) {
    Separable(i, hash) && Names(i.env.modeGaps) && Names(i.question.rules)
  }

  lemma {:induction false} JoinNotEmpty(list: seq<string>)
    requires Names(list) && list != []
    ensures Join(list, ',') != ""
  {
    assert list[0] in list;
  }

  lemma NamesJoin(a: seq<string>, b: seq<string>)
    requires Names(a) && Names(b) && Join(a, ',') == Join(b, ',')
    ensures a == b
  {
    if a == [] && b != [] { JoinNotEmpty(b); }
    if b == [] && a != [] { JoinNotEmpty(a); }
    if a != [] && b != [] { JoinInjective(a, b, ','); }
  }

  /** Equal but for how the two lists are cut: written with commas they are the same. */
  predicate SameSpelling(a: Inputs, b: Inputs) {
    && a.sources == b.sources && a.env == b.env.(modeGaps := a.env.modeGaps)
    && a.question == b.question.(rules := a.question.rules)
    && Join(a.env.modeGaps, ',') == Join(b.env.modeGaps, ',') && Join(a.question.rules, ',') == Join(b.question.rules, ',')
  }

  lemma SameFieldsIff(a: Inputs, b: Inputs, hash: string -> string)
    requires Injective(hash)
    ensures Fields(a, hash) == Fields(b, hash) <==> SameSpelling(a, b)
  {
    var f, g := Fields(a, hash), Fields(b, hash);
    if f == g {
      assert f[0] == g[0] && f[1] == g[1] && f[2] == g[2] && f[3] == g[3] && f[4] == g[4] && f[5] == g[5] && f[6] == g[6];
      assert f[7] == g[7] && f[8] == g[8] && f[9] == g[9] && f[10] == g[10] && f[11] == g[11] && f[12] == g[12];
      assert f[13] == g[13] && f[14] == g[14];
      assert f[15..] == g[15..];
    }
  }

  /** Two keys are equal exactly when the inputs are spelled alike. */
  lemma KeysEqualIff(a: Inputs, b: Inputs, hash: string -> string)
    requires Injective(hash) && Separable(a, hash) && Separable(b, hash)
    ensures Key(a, hash) == Key(b, hash) <==> SameSpelling(a, b)
  {
    SameFieldsIff(a, b, hash);
    if Key(a, hash) == Key(b, hash) {
      JoinInjective(Fields(a, hash), Fields(b, hash), SEP);
    }
  }

  /** Where no listed name holds a comma or is empty, a key answers for one set of inputs only. */
  lemma KeyTellsApart(a: Inputs, b: Inputs, hash: string -> string)
    requires Injective(hash) && Plain(a, hash) && Plain(b, hash)
    ensures Key(a, hash) == Key(b, hash) <==> a == b
  {
    KeysEqualIff(a, b, hash);
    if Key(a, hash) == Key(b, hash) {
      NamesJoin(a.env.modeGaps, b.env.modeGaps);
      NamesJoin(a.question.rules, b.question.rules);
    }
  }

  /** A name with a comma is keyed like two names: the rules `A,B` share the key of the rules `A` and `B`. */
  lemma CommaCollides(i: Inputs, hash: string -> string)
    ensures
      var one := i.(question := i.question.(rules := ["A,B"]));
      var two := i.(question := i.question.(rules := ["A", "B"]));
      one != two && Key(one, hash) == Key(two, hash)
  {
    assert Join(["A", "B"], ',') == "A" + [','] + Join(["B"], ',') by { assert ["A", "B"][1..] == ["B"]; }
    assert Join(["A", "B"], ',') == "A,B" == Join(["A,B"], ',');
    assert |["A,B"]| != |["A", "B"]|;
  }
}
