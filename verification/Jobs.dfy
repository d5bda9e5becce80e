/** `harness/mcp/server.py`: the bounded queue of long-running jobs. */
module Jobs {
  import opened Options

  datatype Status = Running | Completed | Failed
  datatype Job = Job(kind: string, status: Status, at: real, result: Option<string>, error: Option<string>)

  /** What a job ends with: a result, an error, or neither - a function that returned nothing. */
  datatype Outcome = Outcome(result: Option<string>, error: Option<string>)

  type Table = map<string, Job>

  const MAX_JOBS: nat := 256
  const MAX_RUNNING_JOBS: nat := 2

  function RunningIn(t: Table): set<string> { set id | id in t && t[id].status == Running }

  function Started(kind: string, now: real): Job { Job(kind, Running, now, None, None) }

  /** `_finish_job` on a running job: only a result completes it. */
  function Ended(j: Job, o: Outcome, now: real): Job {
    Job(j.kind, if o.result.Some? then Completed else Failed, now, o.result, o.error)
  }

  /**
   * Under the lock: a client creates a job under a new id, or a worker or a deadline finishes one. `evicted` is what a
   * creation drops.
   */
  datatype Event = Create(id: string, kind: string, now: real, evicted: set<string>) | Finish(id: string, outcome: Outcome, now: real)

  predicate Refused(t: Table) { |RunningIn(t)| >= MAX_RUNNING_JOBS }

  /** A full table loses as many jobs as it has too many, all finished, and none later than one it keeps. */
  predicate Evicts(t: Table, gone: set<string>) {
    && |gone| == (if |t| >= MAX_JOBS then |t| - MAX_JOBS + 1 else 0)
    && (forall id :: id in gone ==> id in t && t[id].status != Running)
    && (forall id, kept :: id in gone && kept in t && kept !in gone && t[kept].status != Running ==> t[id].at <= t[kept].at)
  }

  predicate Possible(t: Table, e: Event) {
    e.Create? ==> e.id !in t && (!Refused(t) ==> Evicts(t, e.evicted))
  }

  function Step(t: Table, e: Event): Table {
    match e
    case Create(id, kind, now, evicted) => if Refused(t) then t else (t - evicted)[id := Started(kind, now)]
    case Finish(id, outcome, now) =>
      if id !in t || t[id].status != Running then t else t[id := Ended(t[id], outcome, now)]
  }

  function Run(t: Table, events: seq<Event>): Table {
    if events == [] then t else Step(Run(t, events[..|events| - 1]), events[|events| - 1])
  }

  predicate PossibleRun(t: Table, events: seq<Event>) {
    forall i :: 0 <= i < |events| ==> Possible(Run(t, events[..i]), events[i])
  }

  predicate Bounded(t: Table) { |t| <= MAX_JOBS && |RunningIn(t)| <= MAX_RUNNING_JOBS }

  lemma Replaced(keys: set<string>, gone: set<string>, id: string)
    requires gone <= keys && id !in keys
    ensures |keys - gone + {id}| == |keys| - |gone| + 1
  {
  }

  lemma CreateKeys(t: Table, id: string, j: Job, gone: set<string>)
    requires gone <= t.Keys && id !in t
    ensures |(t - gone)[id := j]| == |t| - |gone| + 1
  {
    var next := (t - gone)[id := j];
    assert next.Keys == t.Keys - gone + {id};
    Replaced(t.Keys, gone, id);
    assert |next| == |next.Keys| && |t| == |t.Keys|;
  }

  lemma CreateRunning(t: Table, id: string, kind: string, now: real, gone: set<string>)
    requires id !in t && forall g :: g in gone ==> g in t && t[g].status != Running
    ensures RunningIn((t - gone)[id := Started(kind, now)]) == RunningIn(t) + {id}
  {
  }

  lemma CreateBounded(t: Table, id: string, kind: string, now: real, gone: set<string>)
    requires Bounded(t) && id !in t && !Refused(t) && Evicts(t, gone)
    ensures Bounded((t - gone)[id := Started(kind, now)])
  {
    CreateKeys(t, id, Started(kind, now), gone);
    CreateRunning(t, id, kind, now, gone);
    assert |RunningIn(t) + {id}| <= |RunningIn(t)| + 1;
  }

  lemma FinishBounded(t: Table, id: string, o: Outcome, now: real)
    requires Bounded(t) && id in t && t[id].status == Running
    ensures Bounded(t[id := Ended(t[id], o, now)])
  {
    var next := t[id := Ended(t[id], o, now)];
    assert next.Keys == t.Keys;
    assert RunningIn(next) == RunningIn(t) - {id};
  }

  /** In every reachable table at most two jobs run and at most 256 are kept. */
  lemma {:induction false} RunBounded(t: Table, events: seq<Event>)
    requires Bounded(t) && PossibleRun(t, events)
    ensures Bounded(Run(t, events))
  {
    if events != [] {
      var n := |events| - 1;
      PrefixPossible(t, events, n);
      RunBounded(t, events[..n]);
      var p, e := Run(t, events[..n]), events[n];
      assert Possible(p, e);
      match e
      case Create(id, kind, now, gone) => if !Refused(p) { CreateBounded(p, id, kind, now, gone); }
      case Finish(id, o, now) => if id in p && p[id].status == Running { FinishBounded(p, id, o, now); }
    }
  }

  lemma PrefixPossible(t: Table, events: seq<Event>, n: nat)
    requires n <= |events| && PossibleRun(t, events)
    ensures PossibleRun(t, events[..n])
  {
    forall i | 0 <= i < n ensures Possible(Run(t, events[..n][..i]), events[..n][i]) {
      assert events[..n][..i] == events[..i];
    }
  }

  /** No event evicts a running job; only a finish ends it, and a finished job never changes while it is kept. */
  lemma StepFacts(t: Table, e: Event, id: string)
    requires Possible(t, e) && id in t
    ensures t[id].status == Running && !(e.Finish? && e.id == id) ==> id in Step(t, e) && Step(t, e)[id] == t[id]
    ensures t[id].status != Running && id in Step(t, e) ==> Step(t, e)[id] == t[id]
  {
  }

  /** A running job stays as it is until its first finish event. */
  lemma {:induction false} RunningUntilFinished(t: Table, events: seq<Event>, id: string)
    requires PossibleRun(t, events) && id in t && t[id].status == Running
    requires forall i :: 0 <= i < |events| ==> !(events[i].Finish? && events[i].id == id)
    ensures id in Run(t, events) && Run(t, events)[id] == t[id]
  {
    if events != [] {
      var n := |events| - 1;
      PrefixPossible(t, events, n);
      RunningUntilFinished(t, events[..n], id);
      assert Possible(Run(t, events[..n]), events[n]);
      StepFacts(Run(t, events[..n]), events[n], id);
    }
  }

  lemma {:induction false} RunSplit(t: Table, a: seq<Event>, b: seq<Event>)
    ensures Run(t, a + b) == Run(Run(t, a), b)
    decreases |b|
  {
    if b == [] {
      assert a + b == a;
    } else {
      var n := |b| - 1;
      RunSplit(t, a, b[..n]);
      assert (a + b)[..|a + b| - 1] == a + b[..n];
    }
  }

  /** Once finished, a job keeps its outcome in every later table up to its eviction. */
  lemma {:induction false} FinishedStays(t: Table, events: seq<Event>, id: string)
    requires PossibleRun(t, events) && id in t && t[id].status != Running
    requires forall i :: 0 <= i <= |events| ==> id in Run(t, events[..i])
    ensures id in Run(t, events) && Run(t, events)[id] == t[id]
  {
    assert events[..|events|] == events;
    if events != [] {
      var n := |events| - 1;
      PrefixPossible(t, events, n);
      forall i | 0 <= i <= n ensures id in Run(t, events[..n][..i]) {
        assert events[..n][..i] == events[..i];
      }
      FinishedStays(t, events[..n], id);
      assert Possible(Run(t, events[..n]), events[n]);
      StepFacts(Run(t, events[..n]), events[n], id);
    }
  }

  lemma FirstFinish(t: Table, before: seq<Event>, first: Event, id: string)
    requires PossibleRun(t, before) && id in t && t[id].status == Running && first.Finish? && first.id == id
    requires forall i :: 0 <= i < |before| ==> !(before[i].Finish? && before[i].id == id)
    ensures id in Run(t, before + [first]) && Run(t, before + [first])[id] == Ended(t[id], first.outcome, first.now)
  {
    RunningUntilFinished(t, before, id);
    assert (before + [first])[..|before|] == before;
  }

  /**
   * Whichever of worker and deadline finishes a job first fixes its outcome: after the first finish event the job is what
   * that event made it, whatever comes later, for as long as it is kept.
   */
  lemma FirstOutcomeIsFinal(t: Table, before: seq<Event>, first: Event, after: seq<Event>, id: string)
    requires PossibleRun(t, before) && PossibleRun(Run(t, before + [first]), after)
    requires id in t && t[id].status == Running && first.Finish? && first.id == id
    requires forall i :: 0 <= i < |before| ==> !(before[i].Finish? && before[i].id == id)
    requires forall i :: 0 <= i <= |after| ==> id in Run(Run(t, before + [first]), after[..i])
    ensures
      var end := Run(t, before + [first] + after);
      && id in end && end[id].kind == t[id].kind && end[id].at == first.now
      && (end[id].status == Completed <==> first.outcome.result.Some?) && end[id].status != Running
      && end[id].result == first.outcome.result && end[id].error == first.outcome.error
  {
    FirstFinish(t, before, first, id);
    FinishedStays(Run(t, before + [first]), after, id);
    RunSplit(t, before + [first], after);
  }

  // ---- The queue ----

  class JobQueue {
    var jobs: Table

    constructor ()
      ensures jobs == map[] && Bounded(jobs)
    {
      jobs := map[];
      assert RunningIn(map[]) == {};
    }

    /** The finished job that finished first. */
    method OldestFinished() returns (oldest: string)
      requires exists id :: id in jobs && jobs[id].status != Running
      ensures oldest in jobs && jobs[oldest].status != Running
      ensures forall id :: id in jobs && jobs[id].status != Running ==> jobs[oldest].at <= jobs[id].at
    {
      var left := set id | id in jobs && jobs[id].status != Running;
      ghost var some :| some in jobs && jobs[some].status != Running;
      assert some in left;
      oldest :| oldest in left;
      left := left - {oldest};
      while left != {}
        invariant oldest in jobs && jobs[oldest].status != Running && left <= jobs.Keys
        invariant forall id :: id in jobs && jobs[id].status != Running && id !in left ==> jobs[oldest].at <= jobs[id].at
        decreases |left|
      {
        var id :| id in left;
        if jobs[id].status != Running && jobs[id].at < jobs[oldest].at { oldest := id; }
        left := left - {id};
      }
    }

    /** `_create_job`: refuse a third running job; make room in a full table; add the job. */
    method CreateJob(id: string, kind: string, now: real) returns (created: bool, evicted: set<string>)
      requires Bounded(jobs) && id !in jobs
      modifies this
      ensures created == !Refused(old(jobs)) && Possible(old(jobs), Create(id, kind, now, evicted))
      ensures jobs == Step(old(jobs), Create(id, kind, now, evicted)) && Bounded(jobs)
      ensures created <==> |set other | other in old(jobs) && old(jobs)[other].status == Running| < 2
      ensures created ==> id in jobs && jobs[id] == Job(kind, Running, now, None, None)
      ensures !created ==> jobs == old(jobs)
      ensures forall other :: other in old(jobs) && other !in evicted ==> other in jobs && jobs[other] == old(jobs)[other]
    {
      evicted := {};
      if |RunningIn(jobs)| >= MAX_RUNNING_JOBS { return false, {}; }
      if |jobs| >= MAX_JOBS {
        SomeFinished();
        var stale := OldestFinished();
        evicted := {stale};
      }
      CreateBounded(jobs, id, kind, now, evicted);
      jobs := (jobs - evicted)[id := Started(kind, now)];
      created := true;
    }

    lemma SomeFinished()
      requires Bounded(jobs) && |jobs| >= MAX_JOBS
      ensures exists id :: id in jobs && jobs[id].status != Running
    {
      var finished := jobs.Keys - RunningIn(jobs);
      assert RunningIn(jobs) <= jobs.Keys;
      assert |finished| == |jobs.Keys| - |RunningIn(jobs)|;
      var id :| id in finished;
    }

    /** `_finish_job`: only the first outcome is taken. */
    method FinishJob(id: string, outcome: Outcome, now: real)
      requires Bounded(jobs)
      modifies this
      ensures jobs == Step(old(jobs), Finish(id, outcome, now)) && Bounded(jobs)
    {
      if id !in jobs || jobs[id].status != Running { return; }
      FinishBounded(jobs, id, outcome, now);
      jobs := jobs[id := Ended(jobs[id], outcome, now)];
    }
  }
}
