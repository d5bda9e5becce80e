/** `harness/runner.py`, `_Watchdog`: one long-lived thread that fires the deadline in force, at most once. */
module Watchdog {
  import opened Options

  /** What happens under the condition's lock, with the clock at that moment; a wake is one turn of the thread's loop. */
  datatype Event = Arm(now: real, timeout: real) | Disarm | Wake(now: real)

  function Due(e: Event): real
    requires e.Arm?
  {
    e.now + e.timeout
  }

  /** The arming in force before event `i`, by its place in the history. */
  function InForce(events: seq<Event>, i: nat): (k: Option<nat>)
    requires i <= |events|
    ensures k.Some? ==> k.value < i && events[k.value].Arm?
    decreases i, 0
  {
    if i == 0 then None
    else
      match events[i - 1]
      case Arm(_, _) => Some(i - 1)
      case Disarm => None
      case Wake(_) => if Fired(events, i - 1).Some? then None else InForce(events, i - 1)
  }

  /** The arming that event `i` fires, if it fires one. */
  function Fired(events: seq<Event>, i: nat): (k: Option<nat>)
    requires i < |events|
    ensures k.Some? ==> k.value < i && events[k.value].Arm?
    decreases i, 1
  {
    var k := InForce(events, i);
    if events[i].Wake? && k.Some? && events[i].now >= Due(events[k.value]) then k else None
  }

  /** Only wakes that fire nothing lie between an arming and the moment it is still in force. */
  lemma {:induction false} InForceSpan(events: seq<Event>, i: nat, j: nat)
    requires i <= |events| && InForce(events, i).Some? && InForce(events, i).value < j < i
    ensures events[j].Wake? && Fired(events, j).None?
    decreases i
  {
    if j < i - 1 {
      InForceSpan(events, i - 1, j);
    }
  }

  /**
   * A firing comes after its arming, not before its deadline, and with neither a disarming nor another arming nor
   * another firing in between.
   */
  lemma FiringIsDue(events: seq<Event>, i: nat)
    requires i < |events| && Fired(events, i).Some?
    ensures
      var k := Fired(events, i).value;
      && k < i && events[k].Arm? && events[i].Wake? && events[i].now >= Due(events[k])
      && forall j :: k < j < i ==> events[j].Wake? && Fired(events, j).None?
  {
    forall j | Fired(events, i).value < j < i ensures events[j].Wake? && Fired(events, j).None? {
      InForceSpan(events, i, j);
    }
  }

  /** An arming fires at most once. */
  lemma FiresOnce(events: seq<Event>, i: nat, j: nat)
    requires i < |events| && j < |events| && Fired(events, i).Some? && Fired(events, i) == Fired(events, j)
    ensures i == j
  {
    FiringIsDue(events, i);
    FiringIsDue(events, j);
  }

  /** And it does fire, at the first wake past its deadline, unless it is disarmed or replaced before. */
  lemma {:induction false} FiresWhenDue(events: seq<Event>, k: nat, i: nat)
    requires k < i < |events| && events[k].Arm? && events[i].Wake? && events[i].now >= Due(events[k])
    requires forall j :: k < j < i ==> events[j].Wake?
    ensures exists j :: k < j <= i && Fired(events, j) == Some(k)
  {
    StillInForce(events, k, i);
    if InForce(events, i) == Some(k) {
      assert Fired(events, i) == Some(k);
    }
  }

  lemma {:induction false} StillInForce(events: seq<Event>, k: nat, i: nat)
    requires k < i < |events| && events[k].Arm?
    requires forall j :: k < j < i ==> events[j].Wake?
    ensures InForce(events, i) == Some(k) || exists j :: k < j < i && Fired(events, j) == Some(k)
    decreases i
  {
    if k < i - 1 {
      StillInForce(events, k, i - 1);
      if InForce(events, i - 1) == Some(k) && Fired(events, i - 1).Some? {
        assert Fired(events, i - 1) == Some(k);
      }
    }
  }

  /** What has happened does not depend on what comes. */
  lemma {:induction false} HistoryStays(events: seq<Event>, more: seq<Event>, i: nat)
    requires i <= |events|
    ensures InForce(events + more, i) == InForce(events, i)
    ensures i < |events| ==> Fired(events + more, i) == Fired(events, i)
    decreases i
  {
    if i > 0 {
      HistoryStays(events, more, i - 1);
      assert (events + more)[i - 1] == events[i - 1];
    }
  }

  /** The object: the deadline, the action to fire, and (ghost) all that has happened. */
  class DeadlineThread {
    var deadline: Option<real>
    var fire: Option<string>
    ghost var history: seq<Event>

    ghost predicate Valid() reads this {
      var k := InForce(history, |history|);
      && deadline == (if k.None? then None else Some(Due(history[k.value])))
      && (fire.None? <==> deadline.None?)
    }

    constructor ()
      ensures Valid() && history == []
    {
      deadline, fire, history := None, None, [];
    }

    method ArmFor(now: real, timeout: real, action: string)
      requires Valid()
      modifies this
      ensures Valid() && history == old(history) + [Arm(now, timeout)] && fire == Some(action)
    {
      deadline, fire := Some(now + timeout), Some(action);
      history := history + [Arm(now, timeout)];
    }

    method DisarmNow()
      requires Valid()
      modifies this
      ensures Valid() && history == old(history) + [Disarm] && fire.None?
    {
      deadline, fire := None, None;
      history := history + [Disarm];
    }

    /** One turn of the loop: nothing in force, or too early, or forget the deadline and fire. */
    method Turn(now: real) returns (fired: Option<string>)
      requires Valid()
      modifies this
      ensures Valid() && history == old(history) + [Wake(now)]
      ensures fired.Some? <==> Fired(history, |history| - 1).Some?
      ensures fired.Some? ==> fired == old(fire) && fire.None?
      ensures fired.None? ==> fire == old(fire)
    {
      HistoryStays(history, [Wake(now)], |history|);
      history := history + [Wake(now)];
      if deadline.None? || now < deadline.value { return None; }
      fired := fire;
      deadline, fire := None, None;
    }
  }
}
