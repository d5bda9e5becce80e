/** `harness/net.py`: the sliding-window limiter, its ledger, and the retrying fetch paced by it. */
module RateLimiter {
  import opened Options

  function Max(a: real, b: real): real { if a < b then b else a }

  // ---- The pacing promise, over a whole history of acquisitions ----

  /** In order, any two acquisitions at least `gap` apart, and any two with `limit - 1` or more between them a window apart. */
  ghost predicate Paced(h: seq<real>, limit: nat, window: real, gap: real) {
    forall i, j :: 0 <= i < j < |h| ==>
      h[i] <= h[j] && h[j] - h[i] >= gap && (j - i >= limit ==> h[j] - h[i] >= window)
  }

  /** How many of `h` fall in the half-open interval `[from, from + window)`. */
  ghost function CountIn(h: seq<real>, from: real, window: real): nat {
    if h == [] then 0
    else
      var n := |h| - 1;
      CountIn(h[..n], from, window) + (if from <= h[n] < from + window then 1 else 0)
  }

  lemma {:induction false} CountAfter(h: seq<real>, from: real, window: real, k: nat)
    requires k <= |h| && forall i :: 0 <= i < k ==> h[i] < from
    ensures CountIn(h, from, window) <= |h| - k
  {
    if k < |h| {
      CountAfter(h[..|h| - 1], from, window, k);
    } else if h != [] {
      CountAfter(h[..|h| - 1], from, window, k - 1);
    }
  }

  /** What `Paced` is for: no half-open interval of length `window` holds more than `limit` acquisitions. */
  lemma {:induction false} WindowCap(h: seq<real>, limit: nat, window: real, gap: real, from: real)
    requires limit >= 1 && Paced(h, limit, window, gap)
    ensures CountIn(h, from, window) <= limit
  {
    if h != [] {
      var n := |h| - 1;
      WindowCap(h[..n], limit, window, gap, from);
      if from <= h[n] < from + window {
        if n >= limit {
          assert h[n] - h[n - limit] >= window;
          CountAfter(h[..n], from, window, n - limit + 1);
        } else {
          CountAfter(h[..n], from, window, 0);
        }
      }
    }
  }

  // ---- What one acquire computes ----

  /** Drop everything from the front that has aged out. */
  function Prune(times: seq<real>, cutoff: real): seq<real> {
    if times != [] && times[0] <= cutoff then Prune(times[1..], cutoff) else times
  }

  /** The pause before the next acquisition, read off the pruned times. */
  function Wait(times: seq<real>, now: real, limit: nat, window: real, minInterval: real): real
    requires limit >= 1
  {
    var w := if times != [] && minInterval > 0.0 then Max(0.0, minInterval - (now - times[|times| - 1])) else 0.0;
    if |times| >= limit then Max(w, window - (now - times[0])) else w
  }

  /** `times` is the end of the history `h`, everything before it has left the window, and nothing is in the future. */
  ghost predicate Recorded(h: seq<real>, times: seq<real>, now: real, window: real) {
    && |times| <= |h| && (forall i :: 0 <= i < |times| ==> times[i] == h[|h| - |times| + i])
    && (forall i :: 0 <= i < |h| - |times| ==> h[i] <= now - window)
    && (forall i :: 0 <= i < |h| ==> h[i] <= now)
  }

  ghost predicate Recent(times: seq<real>, now: real, window: real) {
    forall i :: 0 <= i < |times| ==> times[i] > now - window
  }

  lemma {:induction false} PruneRecorded(h: seq<real>, times: seq<real>, now: real, window: real)
    requires Recorded(h, times, now, window)
    requires forall i, j :: 0 <= i < j < |h| ==> h[i] <= h[j]
    ensures Recorded(h, Prune(times, now - window), now, window)
    ensures Recent(Prune(times, now - window), now, window)
  {
    if times != [] && times[0] <= now - window {
      assert times[0] == h[|h| - |times|];
      PruneRecorded(h, times[1..], now, window);
      assert Prune(times, now - window) == Prune(times[1..], now - window);
    } else {
      forall i | 0 <= i < |times| ensures times[i] > now - window {
        assert times[i] == h[|h| - |times| + i] && times[0] == h[|h| - |times|];
      }
    }
  }

  /** Pruning once more, at the same time or later, is pruning then. */
  lemma {:induction false} PruneLater(times: seq<real>, cutoff: real, later: real)
    requires cutoff <= later
    ensures Prune(Prune(times, cutoff), later) == Prune(times, later)
  {
    if times != [] && times[0] <= cutoff {
      PruneLater(times[1..], cutoff, later);
    }
  }

  lemma PacedAppend(h: seq<real>, t: real, limit: nat, window: real, gap: real)
    requires limit >= 1 && Paced(h, limit, window, gap)
    ensures Paced(h + [t], limit, window, gap) <==>
      && (h != [] ==> t - h[|h| - 1] >= gap && t >= h[|h| - 1])
      && (|h| >= limit ==> t - h[|h| - limit] >= window)
  {
    var g, n := h + [t], |h|;
    assert g[n] == t;
    if Paced(g, limit, window, gap) {
      assert h != [] ==> g[n - 1] == h[n - 1];
      assert n >= limit ==> g[n - limit] == h[n - limit];
    }
  }

  lemma AtMostLimitRecent(h: seq<real>, times: seq<real>, now: real, limit: nat, window: real, gap: real)
    requires limit >= 1 && Paced(h, limit, window, gap) && Recorded(h, times, now, window)
    requires Recent(times, now, window)
    ensures |times| <= limit
  {
    var first := |h| - |times|;
    assert times != [] ==> times[0] == h[first] && times[|times| - 1] == h[|h| - 1];
  }

  /**
    The wait is the least delay that keeps the whole history paced, although only the pruned times were looked at:
    an acquisition at `t` keeps the promise if and only if `t` is at least the wait after `now`.
   */
  lemma WaitIsLeast(h: seq<real>, times: seq<real>, now: real, t: real, limit: nat, window: real, minInterval: real)
    requires limit >= 1 && window > 0.0 && minInterval <= window && t >= now
    requires Paced(h, limit, window, minInterval) && Recorded(h, times, now, window)
    requires Recent(times, now, window)
    ensures Paced(h + [t], limit, window, minInterval) <==> t - now >= Wait(times, now, limit, window, minInterval)
  {
    var n, k := |h|, |times|;
    AtMostLimitRecent(h, times, now, limit, window, minInterval);
    PacedAppend(h, t, limit, window, minInterval);
    if k > 0 { assert times[k - 1] == h[n - 1] && times[0] == h[n - k]; }
    if n >= limit && k < limit { assert h[n - limit] <= now - window; }
  }

  /** Acquiring after the computed wait keeps every paced history paced exactly when the gap fits in the window. */
  ghost predicate WaitSuffices(limit: nat, window: real, minInterval: real)
    requires limit >= 1
  {
    forall h: seq<real>, now: real ::
      Paced(h, limit, window, minInterval) && Recorded(h, h, now, window) ==>
        Paced(h + [now + Wait(Prune(h, now - window), now, limit, window, minInterval)], limit, window, minInterval)
  }

  lemma WaitSufficesIff(limit: nat, window: real, minInterval: real)
    requires limit >= 1 && window > 0.0
    ensures WaitSuffices(limit, window, minInterval) <==> minInterval <= window
  {
    if minInterval <= window {
      forall h: seq<real>, now: real | Paced(h, limit, window, minInterval) && Recorded(h, h, now, window)
        ensures Paced(h + [now + Wait(Prune(h, now - window), now, limit, window, minInterval)], limit, window, minInterval)
      {
        PruneRecorded(h, h, now, window);
        var times := Prune(h, now - window);
        WaitIsLeast(h, times, now, now + Wait(times, now, limit, window, minInterval), limit, window, minInterval);
      }
    } else {
      var h, now := [0.0], window;
      assert h[1..] == [];
      assert Prune(h, now - window) == [];
      var g := h + [now + Wait([], now, limit, window, minInterval)];
      assert g[1] - g[0] < minInterval;
      assert !Paced(g, limit, window, minInterval);
      assert Paced(h, limit, window, minInterval) && Recorded(h, h, now, window);
    }
  }

  // ---- The environment: two clocks that never go back, a ledger file, and a peer ----

  /** A sleep: the monotonic time it was started at, and how long it was asked for. */
  datatype Pause = Pause(start: real, length: real)

  class World {
    var wall: real
    var mono: real
    ghost var pauses: seq<Pause>
    ghost var requests: nat

    /** `to` is this world at a later moment. */
    twostate predicate Later()
      reads this
    {
      old(wall) <= wall && old(mono) <= mono
    }

    constructor () ensures pauses == [] && requests == 0 {
      wall, mono, pauses, requests := 0.0, 0.0, [], 0;
    }

    /** A request goes out and its answer, or its failure, comes back. */
    method Request()
      modifies this`wall, this`mono, this`requests
      ensures Later() && requests == old(requests) + 1
    {
      Elapse(0.0);
      requests := requests + 1;
    }

    /** Time passes. */
    method Elapse(atLeast: real)
      requires atLeast >= 0.0
      modifies this`wall, this`mono
      ensures wall >= old(wall) + atLeast && mono >= old(mono) + atLeast
    {
      var w: real, m: real := *, *;
      wall := wall + atLeast + Max(0.0, w);
      mono := mono + atLeast + Max(0.0, m);
    }

    method Clock() returns (t: real)
      modifies this`wall, this`mono
      ensures Later() && t == wall
    {
      Elapse(0.0);
      t := wall;
    }

    method Monotonic() returns (t: real)
      modifies this`wall, this`mono
      ensures Later() && t == mono
    {
      Elapse(0.0);
      t := mono;
    }

    method Sleep(w: real)
      requires w >= 0.0
      modifies this`wall, this`mono, this`pauses
      ensures wall >= old(wall) + w && mono >= old(mono) + w
      ensures pauses == old(pauses) + [Pause(old(mono), w)]
    {
      pauses := pauses + [Pause(mono, w)];
      Elapse(w);
    }

    /** A pause under a deadline: refused, not shortened, when it would run past it. */
    method SleepWithin(w: real, deadline: Option<real>) returns (ok: bool, ghost start: real)
      requires w >= 0.0
      modifies this`wall, this`mono, this`pauses
      ensures Later()
      ensures ok ==> wall >= old(wall) + w && pauses == old(pauses) + [Pause(start, w)]
      ensures ok && deadline.Some? ==> start + w <= deadline.value
      ensures !ok ==> deadline.Some? && mono + w > deadline.value && pauses == old(pauses)
    {
      if deadline.Some? {
        var m := Monotonic();
        if w > deadline.value - m {
          return false, 0.0;
        }
      }
      start := mono;
      Sleep(w);
      ok := true;
    }
  }

  /** What a write of the ledger comes to: it succeeds, it never starts, or it fails halfway and leaves nothing readable. */
  datatype Disk = Works | Denied | Breaks

  /** The rate-limit ledger on disk. `history` is every acquisition ever recorded against it, by any process. */
  class Ledger {
    const enabled: bool
    var stored: Option<seq<real>>
    var disk: Disk
    ghost var history: seq<real>

    constructor (enabled: bool, disk: Disk)
      ensures this.enabled == enabled && this.disk == disk && stored.None? && history == []
    {
      this.enabled, this.disk, stored, history := enabled, disk, None, [];
    }

    /** What a save of `times` leaves on disk. */
    function AfterSave(times: seq<real>): Option<seq<real>>
      reads this
    {
      if !enabled || disk == Denied then stored else Some(if disk == Works then times else [])
    }
  }

  class Limiter {
    const limit: nat
    const window: real
    const minInterval: real
    const world: World
    const ledger: Ledger
    var times: seq<real>

    /** What the next acquire will work from: the ledger when there is one, the memory otherwise. */
    function View(): seq<real>
      reads this, ledger
    {
      if ledger.enabled && ledger.stored.Some? then ledger.stored.value else times
    }

    /** What `__init__` checks. */
    ghost predicate Sane() { limit >= 1 && window > 0.0 }

    /** The view is the recent end of the whole history. */
    ghost predicate Valid()
      reads this, ledger, world
    {
      Sane() && Paced(ledger.history, limit, window, minInterval) && Recorded(ledger.history, View(), world.wall, window)
    }

    /** A limiter opened on a ledger an earlier process left behind takes the pacing up where it was. */
    constructor (limit: nat, window: real, minInterval: real, world: World, ledger: Ledger)
      requires limit >= 1 && window > 0.0
      requires Paced(ledger.history, limit, window, minInterval)
      requires ledger.history == [] || (ledger.enabled && ledger.stored.Some?)
      requires
        var view := if ledger.enabled && ledger.stored.Some? then ledger.stored.value else [];
        Recorded(ledger.history, view, world.wall, window)
      ensures this.limit == limit && this.window == window && this.minInterval == minInterval
      ensures this.world == world && this.ledger == ledger && Valid()
    {
      this.limit, this.window, this.minInterval := limit, window, minInterval;
      this.world, this.ledger, times := world, ledger, [];
    }

    method Load()
      modifies this`times
      ensures times == old(View())
    {
      if !ledger.enabled || ledger.stored.None? {
        return;
      }
      times := ledger.stored.value;
    }

    /** A write that fails is passed over in silence, whatever it left on disk. */
    method Save()
      modifies ledger`stored
      ensures ledger.stored == old(ledger.AfterSave(times))
    {
      if !ledger.enabled {
        return;
      }
      match ledger.disk
      case Works => ledger.stored := Some(times);
      case Denied =>
      case Breaks => ledger.stored := Some([]);
    }

    /** The pruning loop; what it drops has left the window, so the times cover the history if they did before. */
    method DropAged(now: real)
      modifies this`times
      ensures times == Prune(old(times), now - window)
      ensures Recorded(ledger.history, old(times), now, window) ==> Recorded(ledger.history, times, now, window)
    {
      var cutoff := now - window;
      while times != [] && times[0] <= cutoff
        invariant Prune(times, cutoff) == Prune(old(times), cutoff)
        invariant Recorded(ledger.history, old(times), now, window) ==> Recorded(ledger.history, times, now, window)
        decreases |times|
      {
        times := times[1..];
      }
    }

    /** A save will reach the file, or there is no file for the next load to read back instead of the memory. */
    ghost predicate Durable()
      reads ledger
    {
      !ledger.enabled || ledger.disk == Works || (ledger.disk == Denied && ledger.stored.None?)
    }

    /** The pause `Acquire` computes from this view at clock reading `now`. */
    function Pace(view: seq<real>, now: real): real
      requires limit >= 1
    {
      Wait(Prune(view, now - window), now, limit, window, minInterval)
    }

    /** No request fits any more: the deadline has passed, or the pause computed at some reading since would end behind it. */
    ghost predicate NoRoom(deadline: real, since: real)
      requires limit >= 1
      reads this, ledger, world
    {
      world.mono >= deadline || exists now :: since <= now <= world.wall && world.mono + Pace(View(), now) > deadline
    }

    lemma NoRoomSince(deadline: real, since: real, earlier: real)
      requires limit >= 1 && NoRoom(deadline, since) && earlier <= since
      ensures NoRoom(deadline, earlier)
    {
      if world.mono < deadline {
        var now :| since <= now <= world.wall && world.mono + Pace(View(), now) > deadline;
        assert earlier <= now <= world.wall && world.mono + Pace(View(), now) > deadline;
      }
    }

    /** Load the ledger, prune it, and compute the pause it asks for. */
    method NextWait() returns (now: real, w: real)
      requires limit >= 1
      modifies this`times, world`wall, world`mono
      ensures world.Later() && now == world.wall && w == Pace(old(View()), now)
      ensures times == Prune(old(View()), now - window)
      ensures old(Recorded(ledger.history, View(), world.wall, window)) ==> Recorded(ledger.history, times, now, window)
    {
      ghost var view, began := View(), world.wall;
      Load();
      now := world.Clock();
      if Recorded(ledger.history, view, began, window) {
        RecordedLater(ledger.history, view, began, now, window);
      }
      DropAged(now);
      w := Wait(times, now, limit, window, minInterval);
    }

    /** Computing the pause and taking it: the part of `Acquire` before the record. */
    method AwaitSlot(deadline: Option<real>) returns (ok: bool, t: real, ghost now: real, ghost w: real, ghost start: real)
      requires limit >= 1
      modifies this`times, world`wall, world`mono, world`pauses
      ensures old(world.wall) <= now <= t == world.wall && old(world.mono) <= world.mono
      ensures old(Recorded(ledger.history, View(), world.wall, window)) ==>
        Recorded(ledger.history, times, t, window) && Recorded(ledger.history, View(), t, window)
      ensures w == Pace(old(View()), now) && (ok ==> t - now >= w)
      ensures ok ==> times == Prune(old(View()), t - window)
      ensures !ok ==> deadline.Some? && w == Pace(View(), now) && world.mono + w > deadline.value
      ensures world.pauses == old(world.pauses) + (if ok && w > 0.0 then [Pause(start, w)] else [])
      ensures ok && w > 0.0 && deadline.Some? ==> start + w <= deadline.value
    {
      ghost var view, began := View(), world.wall;
      var wait;
      t, wait := NextWait();
      ok, now, w, start := true, t, wait, 0.0;
      PruneLater(view, now - window, now - window);
      if wait > 0.0 {
        ok, start := world.SleepWithin(wait, deadline);
        t := world.Clock();
        if Recorded(ledger.history, view, began, window) {
          RecordedLater(ledger.history, times, now, t, window);
        }
        if ok {
          DropAged(t);
          PruneLater(view, now - window, t - window);
        }
      }
      if Recorded(ledger.history, view, began, window) {
        RecordedLater(ledger.history, view, began, t, window);
      }
    }

    /** The end of `Acquire`: the acquisition joins the times, the ledger and the history. */
    method Record(t: real, ghost fine: bool)
      requires Sane()
      requires fine ==>
        && Paced(ledger.history + [t], limit, window, minInterval)
        && Recorded(ledger.history, times, t, window) && Recorded(ledger.history, View(), t, window)
      modifies this`times, ledger`stored, ledger`history
      ensures ledger.history == old(ledger.history) + [t] && times == old(times) + [t]
      ensures ledger.stored == if ledger.enabled && ledger.disk != Denied then ledger.AfterSave(times) else old(ledger.stored)
      ensures fine ==> (Recorded(ledger.history, View(), t, window) <==> old(Durable()))
      ensures old(Durable()) ==> Durable()
    {
      if fine { RecordKeepsIff(ledger.history, times, View(), t); }
      times := times + [t];
      Save();
      ledger.history := ledger.history + [t];
    }

    /**
      Block until one request fits, then record it. `now` is the clock reading the pause `w` was computed from and
      `start` the monotonic time the pause, if any, began. Only a deadline that leaves no room makes it refuse; a refusal
      records nothing and starts no pause.
     */
    method Acquire(deadline: Option<real>) returns (ok: bool, ghost now: real, ghost w: real, ghost start: real)
      requires Sane()
      modifies this`times, ledger`stored, ledger`history, world`wall, world`mono, world`pauses
      ensures world.Later()
      ensures !ok ==> deadline.Some? && NoRoom(deadline.value, old(world.wall))
      ensures !ok ==> unchanged(ledger) && world.pauses == old(world.pauses)
      ensures ok ==> ledger.history == old(ledger.history) + [world.wall]
      ensures ok ==> times == Prune(old(View()), world.wall - window) + [world.wall]
      ensures ok ==> ledger.stored == if ledger.enabled && ledger.disk != Denied then ledger.AfterSave(times) else old(ledger.stored)
      ensures ok ==> w == Pace(old(View()), now) && old(world.wall) <= now && world.wall - now >= w
      ensures ok ==> world.pauses == old(world.pauses) + (if w > 0.0 then [Pause(start, w)] else [])
      ensures ok && deadline.Some? ==> old(world.mono) < deadline.value && (w > 0.0 ==> start + w <= deadline.value)
      ensures !ok && old(Valid()) ==> Valid()
      ensures ok && old(Valid()) && minInterval <= window ==> Paced(ledger.history, limit, window, minInterval)
      // An unwritable ledger degrades to in-memory pacing only while the file does not exist.
      ensures ok && old(Valid()) && minInterval <= window ==> (Valid() <==> old(Durable()))
      ensures old(Durable()) ==> Durable()
    {
      hide Paced, Recorded, Prune, Wait;
      now, w, start := world.wall, 0.0, 0.0;
      ghost var view, h, began, fine := View(), ledger.history, world.wall, Valid();
      if deadline.Some? {
        var m := world.Monotonic();
        if fine { RecordedLater(h, view, began, world.wall, window); }
        if deadline.value - m <= 0.0 {
          return false, now, w, start;
        }
      }
      ghost var loaded := world.wall;
      var t;
      ok, t, now, w, start := AwaitSlot(deadline);
      if ok {
        ghost var kept := fine && minInterval <= window;
        if kept {
          RecordedLater(h, view, loaded, now, window);
          AcquisitionKeeps(h, view, now, t, limit, window, minInterval);
        }
        Record(t, kept);
      }
    }

    /** The acquisition at `t` has been recorded: whether the view still covers the history. */
    lemma RecordKeepsIff(h: seq<real>, was: seq<real>, before: seq<real>, t: real)
      requires window > 0.0 && Recorded(h, was, t, window) && Recorded(h, before, t, window)
      ensures Recorded(h + [t], was + [t], t, window)
      ensures !Recorded(h + [t], before, t, window) && !Recorded(h + [t], [], t, window)
    {
      RecordedAppend(h, was, t, window);
      StaleViewMisses(h, before, t, window);
      assert (h + [t])[|h|] == t;
    }
  }

  lemma RecordedAppend(h: seq<real>, times: seq<real>, t: real, window: real)
    requires Recorded(h, times, t, window)
    ensures Recorded(h + [t], times + [t], t, window)
  {
  }

  lemma RecordedLater(h: seq<real>, times: seq<real>, now: real, later: real, window: real)
    requires Recorded(h, times, now, window) && now <= later
    ensures Recorded(h, times, later, window)
  {
  }

  /** Recording `t`, at least the computed wait after `now`, keeps the promise. */
  lemma AcquisitionKeeps(h: seq<real>, view: seq<real>, now: real, t: real, limit: nat, window: real, minInterval: real)
    requires limit >= 1 && window > 0.0 && minInterval <= window && Paced(h, limit, window, minInterval)
    requires Recorded(h, view, now, window)
    requires t >= now && t - now >= Wait(Prune(view, now - window), now, limit, window, minInterval)
    ensures Paced(h + [t], limit, window, minInterval)
  {
    PruneRecorded(h, view, now, window);
    WaitIsLeast(h, Prune(view, now - window), now, t, limit, window, minInterval);
  }

  lemma {:induction false} StaleViewIsFlat(h: seq<real>, view: seq<real>, t: real, i: nat)
    requires |view| <= |h|
    requires forall j :: 0 <= j < |view| ==> view[j] == h[|h| - |view| + j]
    requires forall j :: 0 <= j < |view| ==> view[j] == (h + [t])[|h| + 1 - |view| + j]
    ensures i < |view| ==> view[i] == t
    decreases |view| - i
  {
    var n, k := |h|, |view|;
    if i + 1 < k {
      StaleViewIsFlat(h, view, t, i + 1);
      assert view[i] == (h + [t])[n + 1 - k + i] == h[n - k + i + 1] == view[i + 1];
    } else if i < k {
      assert view[i] == (h + [t])[n];
    }
  }

  /** A view that was read back instead of the acquisition just made does not cover the history any more. */
  lemma StaleViewMisses(h: seq<real>, view: seq<real>, t: real, window: real)
    requires window > 0.0 && Recorded(h, view, t, window)
    ensures !Recorded(h + [t], view, t, window)
  {
    var n, k := |h|, |view|;
    assert (h + [t])[n] == t;
    assert k > 0 ==> (h + [t])[n - k] == view[0];
    if Recorded(h + [t], view, t, window) {
      StaleViewIsFlat(h, view, t, 0);
      assert false;
    }
  }

  // ---- Whole runs ----

  /** One step of a run: an acquisition under some deadline, or a restart that has only the ledger to go by. */
  datatype Step = Take(deadline: Option<real>) | Restart

  function CountDone(done: seq<bool>): nat {
    if done == [] then 0 else CountDone(done[..|done| - 1]) + (if done[|done| - 1] then 1 else 0)
  }

  /** Whether the step was done, as it may be: a restart acquires nothing, and without a deadline nothing is refused. */
  predicate Served(step: Step, ok: bool) { (ok ==> step.Take?) && (step == Take(None) ==> ok) }

  /** No half-open interval of the window's length holds more than `limit` acquisitions. */
  ghost predicate Capped(h: seq<real>, limit: nat, window: real) { forall from :: CountIn(h, from, window) <= limit }

  lemma PacedIsCapped(h: seq<real>, limit: nat, window: real, gap: real)
    requires limit >= 1 && Paced(h, limit, window, gap)
    ensures Capped(h, limit, window)
  {
    forall from ensures CountIn(h, from, window) <= limit {
      WindowCap(h, limit, window, gap, from);
    }
  }

  /** A restart finds all the history that matters: the ledger is used and can be written, and has been, if there is any. */
  ghost predicate Rereads(ledger: Ledger)
    reads ledger
  {
    ledger.enabled && ledger.disk == Works && (ledger.stored.None? ==> ledger.history == [])
  }

  method Do(l: Limiter, step: Step) returns (next: Limiter, ok: bool)
    requires l.Valid() && l.Durable() && l.minInterval <= l.window && (step.Restart? ==> Rereads(l.ledger))
    modifies l, l.ledger, l.world
    ensures (next == l || fresh(next)) && next.world == l.world && next.ledger == l.ledger
    ensures next.limit == l.limit && next.window == l.window && next.minInterval == l.minInterval
    ensures next.Valid() && next.Durable() && Served(step, ok) && (old(Rereads(l.ledger)) ==> Rereads(l.ledger))
    ensures old(l.ledger.history) <= l.ledger.history
    ensures |l.ledger.history| == |old(l.ledger.history)| + (if ok then 1 else 0)
  {
    hide Wait, Prune;
    next, ok := l, false;
    match step {
      case Take(deadline) =>
        var acquired, _, _, _ := l.Acquire(deadline);
        ok := acquired;
      case Restart =>
        next := new Limiter(l.limit, l.window, l.minInterval, l.world, l.ledger);
    }
  }

  /**
    Whatever the deadlines and wherever the restarts fall, the whole history keeps the cap and the gap. It grows by one for
    every acquisition that was done, and one without a deadline always is. A restart needs a ledger that can be written.
   */
  method Run(first: Limiter, steps: seq<Step>) returns (l: Limiter, done: seq<bool>)
    requires first.Valid() && first.minInterval <= first.window && first.Durable()
    requires Restart in steps ==>
      && first.ledger.enabled && first.ledger.disk == Works
      && (first.ledger.stored.None? ==> first.ledger.history == [])
    modifies first, first.ledger, first.world
    ensures l.Valid() && l.ledger == first.ledger && old(first.ledger.history) <= l.ledger.history
    ensures Paced(l.ledger.history, first.limit, first.window, first.minInterval)
    ensures Capped(l.ledger.history, first.limit, first.window)
    ensures |done| == |steps| && forall i :: 0 <= i < |steps| ==> Served(steps[i], done[i])
    ensures |l.ledger.history| == |old(first.ledger.history)| + CountDone(done)
  {
    hide Paced, Recorded, Capped, Served;
    l, done := first, [];
    ghost var before := first.ledger.history;
    for i := 0 to |steps|
      invariant l == first || fresh(l)
      invariant l.Valid() && l.Durable() && l.world == first.world && l.ledger == first.ledger
      invariant l.limit == first.limit && l.window == first.window && l.minInterval == first.minInterval
      invariant Restart in steps ==> Rereads(l.ledger)
      invariant before <= l.ledger.history && |l.ledger.history| == |before| + CountDone(done)
      invariant |done| == i && forall k :: 0 <= k < i ==> Served(steps[k], done[k])
    {
      assert steps[i] in steps;
      var ok;
      l, ok := Do(l, steps[i]);
      assert (done + [ok])[..i] == done;
      done := done + [ok];
    }
    PacedIsCapped(l.ledger.history, l.limit, l.window, l.minInterval);
  }

  /**
    A ledger file that cannot be written: after one acquisition the limiter works from the empty file again, asks for no
    pause, and a second acquisition at once would break the cap of one in ten seconds.
   */
  method UnwritableLedgerForgets() returns (l: Limiter)
    ensures fresh(l) && l.limit == 1 && l.window == 10.0
    ensures l.ledger.history == [l.world.wall] && l.Pace(l.View(), l.world.wall) == 0.0
    ensures !Paced(l.ledger.history + [l.world.wall], 1, 10.0, 0.0)
  {
    hide Paced, Recorded, Prune;
    var world := new World();
    var ledger := new Ledger(true, Denied);
    ledger.stored := Some([]);
    EmptyLedger(world.wall);
    l := new Limiter(1, 10.0, 0.0, world, ledger);
    var _, _, _, _ := l.Acquire(None);
    EmptyLedger(l.world.wall);
    assert [l.world.wall] + [l.world.wall] == [l.world.wall, l.world.wall];
  }

  lemma EmptyLedger(t: real)
    ensures Paced([], 1, 10.0, 0.0) && Recorded([], [], t, 10.0)
    ensures Prune([], t - 10.0) == [] && !Paced([t, t], 1, 10.0, 0.0)
  {
    var h := [t, t];
    assert h[1] - h[0] < 10.0;
  }

  // ---- Fetcher.get ----

  /** What one attempt brings back: an answer, a 429 with or without a Retry-After, or a failed read. */
  datatype Response = Answer(status: int) | TooMany(retryAfter: Option<real>) | Broken

  datatype Reply = Got(status: int) | RateLimited | NetworkError

  const DEFAULT_BACKOFF := 5.0

  ghost predicate EndBy(pauses: seq<Pause>, from: nat, deadline: Option<real>) {
    deadline.Some? ==> forall i :: from <= i < |pauses| ==> pauses[i].start + pauses[i].length <= deadline.value
  }

  /** How long a 429 asks to wait before the next attempt. */
  function PauseAfter(r: Response): real {
    if !r.TooMany? then 0.0 else if r.retryAfter.Some? then Max(0.0, r.retryAfter.value) else DEFAULT_BACKOFF
  }

  /** A pause of this length is the one this 429 asked for. */
  predicate Honours(length: real, r: Response) {
    match r
    case TooMany(None) => length == 5.0
    case TooMany(Some(s)) => length == if s < 0.0 then 0.0 else s
    case _ => false
  }

  /** The pauses asked for by the first `n` attempts, together. */
  ghost function Pauses(peer: nat -> Response, n: nat): real {
    if n == 0 then 0.0 else Pauses(peer, n - 1) + PauseAfter(peer(n - 1))
  }

  class Fetcher {
    const limiter: Limiter
    const world: World
    const maxRetries: nat

    constructor (limiter: Limiter, maxRetries: int)
      ensures this.limiter == limiter && world == limiter.world
      ensures this.maxRetries == if maxRetries < 0 then 0 else maxRetries
    {
      this.limiter, world := limiter, limiter.world;
      this.maxRetries := if maxRetries < 0 then 0 else maxRetries;
    }

    ghost predicate Sane() { world == limiter.world && limiter.Sane() }

    /** The limiter is in order and the promise it makes can be kept. */
    ghost predicate Ready()
      reads limiter, limiter.ledger, limiter.world
    {
      Sane() && limiter.Valid() && limiter.Durable() && limiter.minInterval <= limiter.window
    }

    /** The deadline leaves no room for an attempt. */
    ghost predicate Late(deadline: Option<real>, pace: bool, since: real)
      requires Sane()
      reads limiter, limiter.ledger, world
    {
      deadline.Some? && if pace then limiter.NoRoom(deadline.value, since) else world.mono >= deadline.value
    }

    /** `deadline.remaining`. */
    method Remaining(end: real) returns (m: real)
      requires Sane()
      modifies world`wall, world`mono
      ensures world.Later() && m == end - world.mono && (old(Ready()) ==> Ready())
    {
      ghost var fine, was := Ready(), world.wall;
      var now := world.Monotonic();
      m := end - now;
      if fine { RecordedLater(limiter.ledger.history, limiter.View(), was, world.wall, limiter.window); }
    }

    /** Everything before the answer of one attempt: the deadline check, the pacing, the request itself. */
    method Send(deadline: Option<real>, pace: bool, ghost since: real) returns (ok: bool)
      requires Sane() && since <= world.wall
      modifies world, limiter, limiter.ledger
      ensures world.Later() && world.requests == old(world.requests) + (if ok then 1 else 0)
      ensures old(limiter.ledger.history) <= limiter.ledger.history
      ensures |limiter.ledger.history| == |old(limiter.ledger.history)| + (if ok && pace then 1 else 0)
      ensures old(world.pauses) <= world.pauses && EndBy(world.pauses, |old(world.pauses)|, deadline)
      ensures !ok ==> Late(deadline, pace, since)
      ensures ok && deadline.Some? ==> old(world.mono) < deadline.value
      ensures old(Ready()) ==> Ready()
    {
      ghost var fine := Ready();
      if deadline.Some? {
        var m := Remaining(deadline.value);
        if m <= 0.0 {
          return false;
        }
      }
      ghost var began := world.wall;
      if pace {
        var acquired, _, _, _ := limiter.Acquire(deadline);
        if !acquired {
          limiter.NoRoomSince(deadline.value, began, since);
          return false;
        }
      }
      ghost var was := world.wall;
      world.Request();
      if fine { RecordedLater(limiter.ledger.history, limiter.View(), was, world.wall, limiter.window); }
      ok := true;
    }

    /** The sleep between a 429 and the next attempt: the whole pause, or none where it would end behind the deadline. */
    method Backoff(pause: real, deadline: Option<real>) returns (slept: bool)
      requires Sane() && pause >= 0.0
      modifies world`wall, world`mono, world`pauses
      ensures world.Later() && old(world.pauses) <= world.pauses && EndBy(world.pauses, |old(world.pauses)|, deadline)
      ensures |world.pauses| == |old(world.pauses)| + (if slept then 1 else 0)
      ensures slept ==> world.pauses[|old(world.pauses)|].length == pause && world.wall >= old(world.wall) + pause
      ensures !slept ==> deadline.Some? && world.mono + pause > deadline.value
      ensures old(Ready()) ==> Ready()
    {
      ghost var fine, was := Ready(), world.wall;
      var ok, _ := world.SleepWithin(pause, deadline);
      if fine { RecordedLater(limiter.ledger.history, limiter.View(), was, world.wall, limiter.window); }
      slept := ok;
    }

    /**
      One attempt and what comes of it: an end of the loop, or none after a 429 that has been waited out. After the last
      attempt there is nothing to wait for.
     */
    method Attempt(deadline: Option<real>, pace: bool, response: Response, last: bool, ghost since: real)
      returns (end: Option<Reply>, ghost sent: bool)
      requires Sane() && since <= world.wall
      modifies world, limiter, limiter.ledger
      ensures world.Later() && world.requests == old(world.requests) + (if sent then 1 else 0)
      ensures old(limiter.ledger.history) <= limiter.ledger.history
      ensures |limiter.ledger.history| == |old(limiter.ledger.history)| + (if sent && pace then 1 else 0)
      ensures old(world.pauses) <= world.pauses && EndBy(world.pauses, |old(world.pauses)|, deadline)
      ensures end.None? ==> sent && response.TooMany? && (last || world.wall >= old(world.wall) + PauseAfter(response))
      ensures end.None? && !last ==>
        |world.pauses| > |old(world.pauses)| && Honours(world.pauses[|world.pauses| - 1].length, response)
      ensures end.Some? && end.value.Got? ==> sent && response == Answer(end.value.status)
      ensures end == Some(RateLimited) ==>
        sent && response.TooMany? && !last && deadline.Some? && world.mono + PauseAfter(response) > deadline.value
      ensures end == Some(NetworkError) ==> if sent then response.Broken? else Late(deadline, pace, since)
      ensures old(Ready()) ==> Ready()
    {
      var ok := Send(deadline, pace, since);
      sent := ok;
      if !ok { return Some(NetworkError), false; }
      match response
      case Answer(status) => end := Some(Got(status));
      case Broken => end := Some(NetworkError);
      case TooMany(_) =>
        end := None;
        if !last {
          var slept := Backoff(PauseAfter(response), deadline);
          if !slept { end := Some(RateLimited); }
        }
    }

    /**
      The retry loop: paced before every attempt, retrying only a 429 and not before the pause it asked for, and never
      pausing past the deadline. It gives up early only where the deadline leaves no room. `peer(k)` is what attempt `k`
      brings back.
     */
    method Get(deadline: Option<real>, pace: bool, peer: nat -> Response) returns (r: Reply, ghost made: nat, ghost waits: seq<nat>)
      requires Sane()
      modifies world, limiter, limiter.ledger
      ensures old(Ready()) ==> Ready()
      ensures made <= maxRetries + 1 && world.requests == old(world.requests) + made
      ensures old(limiter.ledger.history) <= limiter.ledger.history
      ensures |limiter.ledger.history| == |old(limiter.ledger.history)| + (if pace then made else 0)
      ensures EndBy(world.pauses, |old(world.pauses)|, deadline)
      // Pause number `waits[k]` is the one between attempt `k` and the next: what its Retry-After says, or five seconds.
      ensures |waits| <= made <= |waits| + 1
      ensures forall k :: 0 <= k < |waits| ==> |old(world.pauses)| <= waits[k] < |world.pauses|
      ensures forall k, l :: 0 <= k < l < |waits| ==> waits[k] < waits[l]
      ensures forall k :: 0 <= k < |waits| || 0 <= k < made - 1 ==> peer(k).TooMany?
      ensures forall k :: 0 <= k < |waits| && peer(k).retryAfter.None? ==> world.pauses[waits[k]].length == 5.0
      ensures forall k :: 0 <= k < |waits| && peer(k).retryAfter.Some? ==>
        world.pauses[waits[k]].length == if peer(k).retryAfter.value < 0.0 then 0.0 else peer(k).retryAfter.value
      ensures made > 0 ==> world.wall >= old(world.wall) + Pauses(peer, made - 1)
      ensures r.Got? ==> made > 0 && peer(made - 1) == Answer(r.status)
      ensures r.RateLimited? ==> made > 0 && peer(made - 1).TooMany? && (made == maxRetries + 1 || deadline.Some?)
      ensures r.RateLimited? && made <= maxRetries ==>
        && (peer(made - 1).retryAfter.None? ==> world.mono + 5.0 > deadline.value)
        && (peer(made - 1).retryAfter.Some? ==>
              world.mono + Max(0.0, peer(made - 1).retryAfter.value) > deadline.value)
      ensures r.NetworkError? ==>
        || (made > 0 && peer(made - 1).Broken?)
        || (Late(deadline, pace, old(world.wall)) && made == |waits|)
    {
      hide Waited, Honours, EndBy, Wait, Prune, Paced, Recorded, Ready, Late, Pauses;
      NothingWaited(world.pauses, |world.pauses|, peer, deadline);
      PausesGrow(peer, 0);
      r, made, waits := NetworkError, 0, [];
      ghost var start, waited := world.wall, 0.0;
      var attempt := 0;
      while attempt < maxRetries + 1
        invariant made == attempt <= maxRetries + 1 && world.requests == old(world.requests) + made
        invariant old(Ready()) ==> Ready()
        invariant waited == Pauses(peer, |waits|) && waited >= 0.0 && world.wall >= start + waited
        invariant |waits| == attempt - if attempt > maxRetries then 1 else 0
        invariant old(limiter.ledger.history) <= limiter.ledger.history
        invariant |limiter.ledger.history| == |old(limiter.ledger.history)| + (if pace then made else 0)
        invariant |old(world.pauses)| <= |world.pauses| && EndBy(world.pauses, |old(world.pauses)|, deadline)
        invariant Waited(waits, world.pauses, |old(world.pauses)|, peer)
        invariant attempt > 0 ==> r == RateLimited && peer(attempt - 1).TooMany?
      {
        PausesGrow(peer, attempt);
        var end;
        ghost var sent;
        ghost var before := world.pauses;
        end, sent := Attempt(deadline, pace, peer(attempt), attempt == maxRetries, start);
        WaitedStays(waits, before, world.pauses, |old(world.pauses)|, peer);
        if sent { made := made + 1; }
        EndByBoth(before, world.pauses, |old(world.pauses)|, deadline);
        WaitedMeans(waits, world.pauses, |old(world.pauses)|, peer);
        if end.Some? { return end.value, made, waits; }
        r := RateLimited;
        if attempt < maxRetries {
          waited := waited + PauseAfter(peer(attempt));
          WaitedMore(waits, before, world.pauses, |old(world.pauses)|, peer);
          waits := waits + [|world.pauses| - 1];
        }
        attempt := attempt + 1;
      }
      WaitedMeans(waits, world.pauses, |old(world.pauses)|, peer);
    }
  }

  /** The pauses listed in `waits` are those the first attempts asked for, in order. */
  ghost predicate Waited(waits: seq<nat>, pauses: seq<Pause>, from: nat, peer: nat -> Response) {
    && (forall k :: 0 <= k < |waits| ==> from <= waits[k] < |pauses| && Honours(pauses[waits[k]].length, peer(k)))
    && (forall k, l :: 0 <= k < l < |waits| ==> waits[k] < waits[l])
  }

  lemma NothingWaited(pauses: seq<Pause>, from: nat, peer: nat -> Response, deadline: Option<real>)
    requires from == |pauses|
    ensures Waited([], pauses, from, peer) && EndBy(pauses, from, deadline)
  {
  }

  lemma EndByBoth(before: seq<Pause>, now: seq<Pause>, from: nat, deadline: Option<real>)
    requires before <= now && from <= |before| && EndBy(before, from, deadline) && EndBy(now, |before|, deadline)
    ensures EndBy(now, from, deadline)
  {
  }

  lemma WaitedMeans(waits: seq<nat>, pauses: seq<Pause>, from: nat, peer: nat -> Response)
    requires Waited(waits, pauses, from, peer)
    ensures forall k :: 0 <= k < |waits| ==> from <= waits[k] < |pauses| && peer(k).TooMany?
    ensures forall k, l :: 0 <= k < l < |waits| ==> waits[k] < waits[l]
    ensures forall k :: 0 <= k < |waits| && peer(k).retryAfter.None? ==> pauses[waits[k]].length == 5.0
    ensures forall k :: 0 <= k < |waits| && peer(k).retryAfter.Some? ==>
      pauses[waits[k]].length == if peer(k).retryAfter.value < 0.0 then 0.0 else peer(k).retryAfter.value
  {
  }

  lemma WaitedStays(waits: seq<nat>, before: seq<Pause>, now: seq<Pause>, from: nat, peer: nat -> Response)
    requires Waited(waits, before, from, peer) && before <= now
    ensures Waited(waits, now, from, peer)
  {
  }

  lemma WaitedMore(waits: seq<nat>, before: seq<Pause>, now: seq<Pause>, from: nat, peer: nat -> Response)
    requires Waited(waits, before, from, peer) && before <= now && from <= |before| < |now|
    requires Honours(now[|now| - 1].length, peer(|waits|))
    ensures Waited(waits + [|now| - 1], now, from, peer)
  {
  }

  lemma PausesGrow(peer: nat -> Response, n: nat)
    ensures Pauses(peer, 0) == 0.0 && (n > 0 ==> Pauses(peer, n - 1) <= Pauses(peer, n))
    ensures Pauses(peer, n + 1) == Pauses(peer, n) + PauseAfter(peer(n)) >= Pauses(peer, n)
  {
  }
}
