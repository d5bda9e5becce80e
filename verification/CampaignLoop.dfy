/** `harness/campaign.py`, `harness/dedup.py`, `harness/recorder.py`: the objects of the attempt loop, as they are updated. */
module CampaignLoop {
  import A = Archive
  import P = ArchiveProtocol
  import opened Judge
  import opened Campaign
  import opened Options

  /** The digests an attempt is compared with. */
  class Deduplicator {
    var digests: set<string>

    constructor ()
      ensures digests == {}
    {
      digests := {};
    }

    method Seen(digest: string) returns (seen: bool)
      modifies this
      ensures seen == (digest in old(digests)) && digests == old(digests) + {digest}
    {
      if digest in digests {
        assert digests == digests + {digest};
        return true;
      }
      digests := digests + {digest};
      return false;
    }
  }

  /** The keys measured so far, with counts of the attempts that asked and of those that measured nothing new. */
  class SemanticDeduplicator {
    var keys: set<Key>
    var observations: nat
    var duplicates: nat

    constructor ()
      ensures keys == {} && observations == 0 && duplicates == 0
    {
      keys, observations, duplicates := {}, 0, 0;
    }

    /** Claim what this attempt is the first to measure; a repeat claims nothing. */
    method Attempt(cells: seq<Slot>) returns (claimed: set<Key>)
      modifies this
      ensures claimed == KeysOf(cells) - old(keys) && keys == old(keys) + claimed
      ensures observations == old(observations) + 1 && duplicates == old(duplicates) + (if claimed == {} then 1 else 0)
    {
      observations := observations + 1;
      claimed := KeysOf(cells) - keys;
      if claimed == {} {
        duplicates := duplicates + 1;
        assert keys == keys + claimed;
      } else {
        keys := keys + claimed;
      }
    }
  }

  /** The traces, the fresh bypasses and the patch statuses. */
  class Recorder {
    var traces: seq<Trace>
    var bypassHashes: seq<string>
    var matches: seq<Match>

    constructor ()
      ensures traces == [] && bypassHashes == [] && matches == []
    {
      traces, bypassHashes, matches := [], [], [];
    }

    method Add(t: Trace)
      modifies `traces, `bypassHashes
      ensures traces == old(traces) + [t]
      ensures bypassHashes == if t.status == Bypass then old(bypassHashes) + [t.digest] else old(bypassHashes)
    {
      traces := traces + [t];
      if t.status == Bypass {
        bypassHashes := bypassHashes + [t.digest];
      }
    }
  }

  class CampaignRun {
    const config: Config
    const dedup: Deduplicator
    const semantic: SemanticDeduplicator
    const recorder: Recorder
    var errors: nat
    var grid: A.Grid
    var filled: set<string>

    function Now(): State
      reads this, dedup, semantic, recorder
    {
      State(dedup.digests, semantic.keys, semantic.observations, semantic.duplicates, errors, grid,
        recorder.traces, recorder.bypassHashes, recorder.matches, filled)
    }

    constructor (config: Config, grid: A.Grid)
      ensures Now() == Start(grid) && this.config == config
      ensures fresh(dedup) && fresh(semantic) && fresh(recorder)
    {
      this.config := config;
      dedup := new Deduplicator();
      semantic := new SemanticDeduplicator();
      recorder := new Recorder();
      errors, this.grid, filled := 0, grid, {};
    }

    method NoteDuplicates(cells: seq<Slot>)
      modifies `grid
      ensures grid == NoteAll(old(grid), cells, config.version)
    {
      var k := 0;
      assert cells[0..] == cells;
      while k < |cells|
        invariant 0 <= k <= |cells| && NoteAll(old(grid), cells, config.version) == NoteAll(grid, cells[k..], config.version)
      {
        assert cells[k..][0] == cells[k] && cells[k..][1..] == cells[k + 1..];
        grid := P.NoteDuplicateIn(grid, cells[k].id, config.version);
        k := k + 1;
      }
    }

    method ObserveCells(cells: seq<Slot>, p: Produced, attempt: nat)
      modifies `grid
      ensures grid == ObserveAll(old(grid), cells, p, attempt, config)
    {
      var k := 0;
      assert cells[0..] == cells;
      while k < |cells|
        invariant 0 <= k <= |cells| && ObserveAll(old(grid), cells, p, attempt, config) == ObserveAll(grid, cells[k..], p, attempt, config)
      {
        assert cells[k..][0] == cells[k] && cells[k..][1..] == cells[k + 1..];
        var o := A.Obs(A.ObsKey(config.name, attempt, config.version), p.cost);
        grid := P.ObserveIn(grid, cells[k].id, p.representative, o, p.degraded);
        k := k + 1;
      }
    }

    /** `_validate`: the stages before the analysis. */
    method ValidateAttempt(p: Produced, cells: seq<Slot>) returns (gate: Gate)
      modifies this`grid, dedup, semantic
      ensures (Now(), gate) == Validate(old(Now()), p, cells, config)
    {
      if !p.clean { return Stop(SanitizationFailure); }
      var repeated := dedup.Seen(p.digest);
      if repeated {
        assert dedup.digests == old(dedup.digests);
        return Stop(Duplicate);
      }
      if p.digest in config.known && config.known[p.digest] == config.version { return Stop(Duplicate); }
      if !p.syntax { return Stop(SyntaxError); }
      if !p.constraints { return Stop(ConstraintViolation); }
      if !p.preserved { return Stop(BehaviorLost); }
      if cells == [] { return Go({}); }
      if AllClosed(cells, grid, config) { return Stop(Duplicate); }
      var claimed := semantic.Attempt(cells);
      if claimed == {} {
        NoteDuplicates(cells);
        assert semantic.keys == old(semantic.keys);
        return Stop(Duplicate);
      }
      return Go(claimed);
    }

    /** What follows a verdict: a patch status, or a fresh bypass filling its cells, and the trace. */
    method SettleVerdict(p: Produced, cells: seq<Slot>, verdict: Status, claimed: set<Key>)
      modifies this`grid, this`filled, recorder
      ensures Now() == Settle(old(Now()), p, cells, verdict, claimed, config)
    {
      var attempt := |recorder.traces|;
      var status := verdict;
      if p.digest in config.known {
        var held := verdict != Bypass && verdict != FailClosedCatch;
        recorder.matches := recorder.matches + [Match(p.digest, attempt, held)];
        status := KnownBypassMatch;
      }
      if status == Bypass {
        ObserveCells(cells, p, attempt);
        filled := filled + set x | x in cells :: x.id;
      }
      recorder.Add(Trace(attempt, p.digest, status, Reported, claimed));
    }

    /** One attempt; `false` where the campaign ends in an exception. */
    method Attempt(p: Produced, cells: seq<Slot>) returns (ok: bool)
      modifies this, dedup, semantic, recorder
      ensures ok == Step(old(Now()), p, cells, config).Some?
      ensures ok ==> Now() == Step(old(Now()), p, cells, config).value
    {
      var gate := ValidateAttempt(p, cells);
      var attempt := |recorder.traces|;
      if gate.Stop? {
        recorder.Add(Trace(attempt, p.digest, gate.status, Stopped, {}));
        return true;
      }
      match p.analysis {
        case Refuses => return false;
        case Fails =>
          errors := errors + 1;
          recorder.Add(Trace(attempt, p.digest, HarnessError, Failed, gate.claimed));
          return !Aborts(errors, attempt + 1);
        case Gives(report) =>
          var verdict := Judge.Judge(report, config.threshold, config.rules, config.modeGaps);
          if verdict.None? { return false; }
          VerdictIsJudged(report, config);
          SettleVerdict(p, cells, verdict.value, gate.claimed);
          return true;
      }
    }

    /** The attempt loop: declared stops first, then the generator, until either says stop. */
    method RunAll(ps: seq<Produced>, id: (string, seq<string>) -> string) returns (ok: bool)
      modifies this, dedup, semantic, recorder
      ensures ok == Run(old(Now()), ps, config, id).Some?
      ensures ok ==> Now() == Run(old(Now()), ps, config, id).value
    {
      var k := 0;
      assert ps[0..] == ps;
      while k < |ps| && !Done(Now(), config)
        invariant 0 <= k <= |ps|
        invariant Run(old(Now()), ps, config, id) == Run(Now(), ps[k..], config, id)
      {
        assert ps[k..][0] == ps[k] && ps[k..][1..] == ps[k + 1..];
        var going := Attempt(ps[k], CellsFor(config.rules, ps[k], id));
        if !going { return false; }
        k := k + 1;
      }
      return true;
    }
  }
}
