/** `harness/regression.py`, `run_regression`: cached, sharded replays that answer like one serial replay of every item. */
module Regression {
  import opened Arithmetic
  import opened CacheKey
  import opened RegressionCache
  import opened Options
  import opened Sets

  /** A committed bypass: what its replay depends on, and where it comes from. */
  datatype Item = Item(question: Question, campaign: string, version: string)
  datatype Outcome = Outcome(state: State, body: string)

  /** The instrument a run is made with; the replay is deterministic in the keyed inputs. */
  datatype Bench = Bench(env: Environment, sources: Sources, hash: string -> string, replay: Inputs -> Outcome)

  function RefOf(item: Item): Ref { Ref(item.question.diffHash, item.campaign, item.version, item.question.rules) }

  function InputsOf(item: Item, b: Bench): Inputs { Inputs(item.question, b.env, b.sources) }

  function KeyOf(item: Item, b: Bench): string { Key(InputsOf(item, b), b.hash) }

  function ResultOf(item: Item, o: Outcome): Result { Result(RefOf(item), o.state, o.body) }

  /** What a run must report for an item. */
  function Expected(item: Item, b: Bench): Result { ResultOf(item, b.replay(InputsOf(item, b))) }

  /** A result bears its item's digest, campaign, version and rules, and what the replay of the item's inputs comes to. */
  lemma ExpectedIs(item: Item, b: Bench)
    ensures
      var r, o := Expected(item, b), b.replay(Inputs(item.question, b.env, b.sources));
      && r.ref.diffHash == item.question.diffHash && r.ref.campaign == item.campaign && r.ref.version == item.version
      && r.ref.rules == item.question.rules && r.state == o.state && r.body == o.body
  {
  }

  /** A stored verdict with the current reference laid over it; rules are left out of an empty reference. */
  function Relabel(stored: Result, item: Item): Result {
    stored.(ref := if item.question.rules != [] then RefOf(item) else RefOf(item).(rules := stored.ref.rules))
  }

  /** The cache answers right: whatever it holds for some inputs is the replay of those inputs. */
  ghost predicate Answers(d: Dict, hash: string -> string, replay: Inputs -> Outcome) {
    forall i: Inputs :: Plain(i, hash) && Lookup(d, Key(i, hash)).Some? ==> Right(Lookup(d, Key(i, hash)).value, i, replay)
  }

  ghost predicate Right(r: Result, i: Inputs, replay: Inputs -> Outcome) {
    Outcome(r.state, r.body) == replay(i) && r.ref.rules == i.question.rules
  }

  lemma RelabelRight(r: Result, item: Item, b: Bench)
    requires Right(r, InputsOf(item, b), b.replay)
    ensures Relabel(r, item) == Expected(item, b)
  {
  }

  /** Storing a replay under its key keeps the cache right: no other inputs share the key. */
  lemma AnswersSet(d: Dict, i: Inputs, r: Result, hash: string -> string, replay: Inputs -> Outcome)
    requires Injective(hash) && Answers(d, hash, replay) && Plain(i, hash) && Right(r, i, replay)
    ensures Answers(Set(d, Key(i, hash), r), hash, replay)
  {
    var now := Set(d, Key(i, hash), r);
    forall j: Inputs | Plain(j, hash) && Lookup(now, Key(j, hash)).Some?
      ensures Right(Lookup(now, Key(j, hash)).value, j, replay)
    {
      SetLookup(d, Key(i, hash), r, Key(j, hash));
      KeyTellsApart(i, j, hash);
    }
  }

  // ---- Sharing out ----

  datatype Jobs = Auto | Number(n: int) | NotANumber

  const MAX_AUTO_JOBS := 8

  /** The number of workers; `None` where the program raises. */
  function ResolveJobs(jobs: Jobs, cpus: nat, count: nat): (r: Option<nat>)
    ensures r.None? <==> jobs.NotANumber? || (jobs.Number? && jobs.n < 1)
    ensures r.Some? ==> 1 <= r.value <= (if count < 1 then 1 else count)
    ensures r.Some? && jobs.Auto? ==> r.value <= 8
    ensures r.Some? && jobs.Auto? ==>
      r.value <= (if cpus == 0 then 1 else cpus) && (r.value == 8 || r.value == cpus || r.value == 1 || r.value == count)
    ensures r.Some? && jobs.Number? ==> r.value <= jobs.n && (r.value == jobs.n || r.value == 1 || r.value == count)
  {
    match jobs
    case NotANumber => None
    case Number(n) => if n < 1 then None else Some(Least(n, if count < 1 then 1 else count))
    case Auto => Some(Least(Least(if cpus == 0 then 1 else cpus, MAX_AUTO_JOBS), if count < 1 then 1 else count))
  }

  function Least(a: nat, b: nat): nat { if a < b then a else b }

  /** `items[offset::jobs]`. */
  function Every<T>(items: seq<T>, offset: nat, jobs: nat): seq<T>
    requires jobs > 0
    decreases |items| - offset
  {
    if offset >= |items| then [] else [items[offset]] + Every(items, offset + jobs, jobs)
  }

  lemma {:induction false} EveryAt<T>(items: seq<T>, offset: nat, jobs: nat, k: nat)
    requires jobs > 0
    ensures k < |Every(items, offset, jobs)| <==> offset + k * jobs < |items|
    ensures k < |Every(items, offset, jobs)| ==> Every(items, offset, jobs)[k] == items[offset + k * jobs]
    decreases k
  {
    if offset < |items| && k > 0 {
      assert offset + jobs + (k - 1) * jobs == offset + k * jobs;
      EveryAt(items, offset + jobs, jobs, k - 1);
    } else if offset >= |items| {
      assert k * jobs >= 0;
    }
  }

  /** Round-robin sharding loses nothing: position `p` is the `p / jobs`-th of shard `p % jobs`. */
  lemma ShardsPartition<T>(items: seq<T>, jobs: nat, p: nat)
    requires jobs > 0 && p < |items|
    ensures p % jobs < jobs && p / jobs < |Every(items, p % jobs, jobs)|
    ensures Every(items, p % jobs, jobs)[p / jobs] == items[p]
  {
    EveryAt(items, p % jobs, jobs, p / jobs);
    assert p % jobs + (p / jobs) * jobs == p;
  }

  /** And shares nothing twice: the `k`-th of shard `o` is that position and no other's. */
  lemma ShardsDisjoint<T>(items: seq<T>, jobs: nat, o: nat, k: nat)
    requires o < jobs && k < |Every(items, o, jobs)|
    ensures exists p: nat :: p < |items| && p % jobs == o && p / jobs == k && items[p] == Every(items, o, jobs)[k]
  {
    EveryAt(items, o, jobs, k);
    DivMod(o + k * jobs, k, o, jobs);
    assert items[o + k * jobs] == Every(items, o, jobs)[k];
  }

  // ---- The run ----

  type Slots = array<Option<Result>>

  /** Every slot that is filled holds what it must. */
  ghost predicate Filled(results: Slots, items: seq<Item>, b: Bench)
    reads results
  {
    results.Length == |items| && forall i :: 0 <= i < |items| ==> results[i] == Some(Expected(items[i], b))
  }

  ghost predicate Hit(results: Slots, items: seq<Item>, b: Bench, pending: seq<nat>)
    reads results
  {
    && results.Length == |items|
    && (forall l :: 0 <= l < |pending| ==> pending[l] < |items|)
    && (forall i :: 0 <= i < |items| && i !in pending ==> results[i] == Some(Expected(items[i], b)))
  }

  lemma HitIsExpected(d: Dict, item: Item, b: Bench)
    requires Answers(d, b.hash, b.replay) && Plain(InputsOf(item, b), b.hash) && Lookup(d, KeyOf(item, b)).Some?
    ensures Relabel(Lookup(d, KeyOf(item, b)).value, item) == Expected(item, b)
  {
    RelabelRight(Lookup(d, KeyOf(item, b)).value, item, b);
  }

  /** No line of the cache's file is for the item, or there is no cache. */
  predicate Missed(cache: ResultCache, item: Item, b: Bench)
    reads cache
  {
    !cache.enabled || Lookup(cache.entries, KeyOf(item, b)).None?
  }

  /** Look every key up; what is not found is pending. */
  method LookupAll(cache: ResultCache, items: seq<Item>, b: Bench) returns (results: Slots, pending: seq<nat>)
    requires cache.Valid() && Answers(cache.entries, b.hash, b.replay)
    requires forall i :: 0 <= i < |items| ==> Plain(InputsOf(items[i], b), b.hash)
    ensures fresh(results) && Hit(results, items, b, pending)
    ensures |pending| <= |items| && (!cache.enabled ==> |pending| == |items|)
    ensures forall i :: 0 <= i < |items| ==> (i in pending <==> Missed(cache, items[i], b))
  {
    hide Key, Plain, Answers, Relabel, Expected, Lookup;
    results := new Option<Result>[|items|](_ => None);
    pending := [];
    var i := 0;
    while i < |items|
      invariant 0 <= i <= |items|
      invariant forall l :: 0 <= l < |pending| ==> pending[l] < i
      invariant forall k :: 0 <= k < i && k !in pending ==> results[k] == Some(Expected(items[k], b))
      invariant |pending| <= i && (!cache.enabled ==> |pending| == i)
      invariant forall k :: 0 <= k < i ==> (k in pending <==> Missed(cache, items[k], b))
    {
      var found := cache.Get(KeyOf(items[i], b));
      if found.Some? {
        HitIsExpected(cache.entries, items[i], b);
        results[i] := Some(Relabel(found.value, items[i]));
      } else {
        ghost var was := pending;
        pending := pending + [i];
        assert forall k: nat :: k in was ==> k in pending;
        assert pending[|pending| - 1] == i && i in pending;
      }
      i := i + 1;
    }
  }

  /** What a worker may report: the replay, or a degraded analysis of it. */
  ghost predicate Fair(r: Option<Result>, item: Item, b: Bench) {
    r == Some(Expected(item, b)) || (r.Some? && r.value.ref == RefOf(item) && r.value.state == Degraded)
  }

  ghost predicate FairPool(pool: nat -> Outcome, items: seq<Item>, b: Bench) {
    forall i: nat :: i < |items| ==> Fair(Some(ResultOf(items[i], pool(i))), items[i], b)
  }

  /** One worker's shard comes back: each result goes to its own index. */
  method StoreShard(results: Slots, items: seq<Item>, b: Bench, shard: seq<nat>, pool: nat -> Outcome)
    requires results.Length == |items| && FairPool(pool, items, b)
    requires forall l :: 0 <= l < |shard| ==> shard[l] < |items|
    modifies results
    ensures forall i :: 0 <= i < |items| && i !in shard ==> results[i] == old(results[i])
    ensures forall i :: 0 <= i < |items| && i in shard ==> Fair(results[i], items[i], b)
  {
    var l := 0;
    while l < |shard|
      invariant 0 <= l <= |shard|
      invariant forall i :: 0 <= i < |items| && i !in shard ==> results[i] == old(results[i])
      invariant forall k :: 0 <= k < l ==> Fair(results[shard[k]], items[shard[k]], b)
    {
      var index := shard[l];
      assert index in shard;
      assert Fair(Some(ResultOf(items[index], pool(index))), items[index], b);
      results[index] := Some(ResultOf(items[index], pool(index)));
      l := l + 1;
    }
    forall i | 0 <= i < |items| && i in shard ensures Fair(results[i], items[i], b) {
      var k :| 0 <= k < |shard| && shard[k] == i;
    }
  }

  lemma EveryWithin(pending: seq<nat>, offset: nat, jobs: nat, i: nat)
    requires jobs > 0 && i in Every(pending, offset, jobs)
    ensures i in pending
  {
    var k :| 0 <= k < |Every(pending, offset, jobs)| && Every(pending, offset, jobs)[k] == i;
    EveryAt(pending, offset, jobs, k);
  }

  lemma EveryReaches(pending: seq<nat>, jobs: nat, i: nat)
    requires jobs > 0 && i in pending
    ensures exists o: nat :: o < jobs && i in Every(pending, o, jobs)
  {
    var p: nat :| p < |pending| && pending[p] == i;
    ShardsPartition(pending, jobs, p);
    assert Every(pending, p % jobs, jobs)[p / jobs] in Every(pending, p % jobs, jobs);
  }

  /** Shard the pending indices, and take the shards back in whatever order they complete. */
  method Pool(results: Slots, items: seq<Item>, b: Bench, pending: seq<nat>, jobs: nat, pool: nat -> Outcome)
    requires jobs > 0 && Hit(results, items, b, pending) && FairPool(pool, items, b)
    modifies results
    ensures forall i :: 0 <= i < |items| && i !in pending ==> results[i] == old(results[i])
    ensures forall i :: 0 <= i < |items| && i in pending ==> Fair(results[i], items[i], b)
  {
    var running := Below(jobs);
    while running != {}
      invariant forall o :: o in running ==> 0 <= o < jobs
      invariant forall i :: 0 <= i < |items| && i !in pending ==> results[i] == old(results[i])
      invariant forall o: nat, i :: o < jobs && o !in running && 0 <= i < |items| && i in Every(pending, o, jobs) ==>
        Fair(results[i], items[i], b)
      decreases |running|
    {
      var o :| o in running;
      var shard := Every(pending, o, jobs);
      forall k | 0 <= k < |shard| ensures shard[k] < |items| && shard[k] in pending {
        assert shard[k] in shard;
        EveryWithin(pending, o, jobs, shard[k]);
      }
      forall i: nat | i in shard ensures i in pending { EveryWithin(pending, o, jobs, i); }
      StoreShard(results, items, b, shard, pool);
      running := running - {o};
    }
    forall i | 0 <= i < |items| && i in pending ensures Fair(results[i], items[i], b) {
      EveryReaches(pending, jobs, i);
      var o: nat :| o < jobs && i in Every(pending, o, jobs);
      assert o !in running;
    }
  }

  /** The parent replays the pending items one by one. */
  method Serial(results: Slots, items: seq<Item>, b: Bench, pending: seq<nat>)
    requires Hit(results, items, b, pending)
    modifies results
    ensures Filled(results, items, b)
  {
    var l := 0;
    while l < |pending|
      invariant 0 <= l <= |pending|
      invariant forall i :: 0 <= i < |items| && i !in pending[l..] ==> results[i] == Some(Expected(items[i], b))
    {
      results[pending[l]] := Some(Expected(items[pending[l]], b));
      assert pending[l..] == [pending[l]] + pending[l + 1..];
      l := l + 1;
    }
  }

  /** A degraded result is replayed once more in the parent. */
  method Retry(results: Slots, items: seq<Item>, b: Bench, pending: seq<nat>)
    requires Hit(results, items, b, pending)
    requires forall i :: 0 <= i < |items| && i in pending ==> Fair(results[i], items[i], b)
    modifies results
    ensures Filled(results, items, b)
  {
    var l := 0;
    while l < |pending|
      invariant 0 <= l <= |pending|
      invariant forall i :: 0 <= i < |items| && i !in pending[l..] ==> results[i] == Some(Expected(items[i], b))
      invariant forall i :: 0 <= i < |items| ==> Fair(results[i], items[i], b)
    {
      var i := pending[l];
      assert Fair(results[i], items[i], b);
      if results[i].value.state == Degraded {
        results[i] := Some(Expected(items[i], b));
      }
      assert pending[l..] == [i] + pending[l + 1..];
      l := l + 1;
    }
  }

  /** Store what was replayed; the cache stays right for every later run. */
  method PutAll(cache: ResultCache, results: Slots, items: seq<Item>, b: Bench, pending: seq<nat>)
    requires cache.Valid() && Answers(cache.entries, b.hash, b.replay) && Injective(b.hash)
    requires Filled(results, items, b)
    requires forall l :: 0 <= l < |pending| ==> pending[l] < |items|
    requires forall i :: 0 <= i < |items| ==> Plain(InputsOf(items[i], b), b.hash)
    modifies cache
    ensures cache.Valid() && Answers(cache.entries, b.hash, b.replay)
  {
    var l := 0;
    while l < |pending|
      invariant 0 <= l <= |pending|
      invariant cache.Valid() && Answers(cache.entries, b.hash, b.replay)
    {
      var i := pending[l];
      var result := results[i].value;
      AnswersSet(cache.entries, InputsOf(items[i], b), result, b.hash, b.replay);
      cache.Put(KeyOf(items[i], b), result);
      l := l + 1;
    }
  }

  function Count(results: seq<Result>, s: State): nat {
    if results == [] then 0 else (if results[0].state == s then 1 else 0) + Count(results[1..], s)
  }

  /** The five state counts of a report add up to its total. */
  lemma {:induction false} CountsSum(results: seq<Result>)
    ensures Count(results, Closed) + Count(results, Open) + Count(results, Degraded) + Count(results, Inconclusive)
      + Count(results, Unreplayable) == |results|
  {
    if results != [] {
      CountsSum(results[1..]);
    }
  }

  function ExpectedAll(items: seq<Item>, b: Bench): seq<Result> {
    if items == [] then [] else [Expected(items[0], b)] + ExpectedAll(items[1..], b)
  }

  lemma {:induction false} ExpectedAt(items: seq<Item>, b: Bench)
    ensures |ExpectedAll(items, b)| == |items|
    ensures forall i :: 0 <= i < |items| ==> ExpectedAll(items, b)[i] == Expected(items[i], b)
  {
    if items != [] {
      ExpectedAt(items[1..], b);
    }
  }

  method Collect(results: Slots, items: seq<Item>, b: Bench) returns (report: seq<Result>)
    requires Filled(results, items, b)
    ensures report == ExpectedAll(items, b)
  {
    report := [];
    var i := 0;
    while i < |items|
      invariant 0 <= i <= |items| && |report| == i
      invariant forall k :: 0 <= k < i ==> report[k] == Expected(items[k], b)
    {
      report := report + [results[i].value];
      i := i + 1;
    }
    ExpectedAt(items, b);
  }

  /**
   * The whole run. Whatever the job count, the order shards complete in, the degradation of workers, and whatever a right
   * cache holds, the report is the serial replay of every item; and the cache is right afterwards, so the same holds of
   * every later run. `None` is the error for a bad job count, raised only when something is pending.
   */
  method RunRegression(cache: ResultCache, items: seq<Item>, b: Bench, jobs: Jobs, cpus: nat, pool: nat -> Outcome)
    returns (report: Option<seq<Result>>, hits: nat)
    requires cache.Valid() && Answers(cache.entries, b.hash, b.replay) && Injective(b.hash)
    requires forall i :: 0 <= i < |items| ==> Plain(InputsOf(items[i], b), b.hash)
    requires FairPool(pool, items, b)
    modifies cache
    ensures cache.Valid() && Answers(cache.entries, b.hash, b.replay)
    ensures report.Some? ==> report.value == ExpectedAll(items, b)
    ensures ResolveJobs(jobs, cpus, |items|).Some? ==> report.Some?
    ensures hits <= |items| && (!cache.enabled ==> hits == 0)
    ensures report.None? ==> cache.Now() == old(cache.Now())
    ensures report.None? <==>
      (jobs.NotANumber? || (jobs.Number? && jobs.n < 1)) && exists i :: 0 <= i < |items| && old(Missed(cache, items[i], b))
  {
    var results, pending := LookupAll(cache, items, b);
    hits := |items| - |pending|;
    if |pending| > 0 {
      assert pending[0] in pending;
      var workers := ResolveJobs(jobs, cpus, |pending|);
      if workers.None? { return None, hits; }
      if workers.value == 1 {
        Serial(results, items, b, pending);
      } else {
        Pool(results, items, b, pending, workers.value, pool);
      }
      Retry(results, items, b, pending);
      PutAll(cache, results, items, b, pending);
    }
    var all := Collect(results, items, b);
    report := Some(all);
  }
}
