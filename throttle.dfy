/** The `throttle` helper of NetworkEducationApp: a wrapper around a function
    that runs it on a call only while its `inThrottle` flag is clear, sets the
    flag when it runs, and clears it again when the timer started by that run
    expires. The timer's length plays no part beyond ordering events. */
module Throttling {

  /** What can happen to a throttled wrapper: it is called, or the timer
      started by its last run expires. */
  datatype GateEvent = Call | TimerExpired

  /** `inThrottle` after a history of events; the wrapper starts with the flag
      undefined, that is clear. */
  function Closed(events: seq<GateEvent>): bool {
    events != [] && events[|events| - 1] == Call
  }

  /** How many of the calls in a history ran the wrapped function. */
  function Runs(events: seq<GateEvent>): nat {
    if events == [] then 0
    else
      var before := events[..|events| - 1];
      Runs(before) + (if events[|events| - 1] == Call && !Closed(before) then 1 else 0)
  }

  /** How many timer expiries a history holds. */
  function Expiries(events: seq<GateEvent>): nat {
    if events == [] then 0
    else Expiries(events[..|events| - 1]) + (if events[|events| - 1] == TimerExpired then 1 else 0)
  }

  /** The wrapped function runs at most once more than the timer has expired:
      at most one run per throttle window. */
  lemma {:induction false} RunsBoundedByExpiries(events: seq<GateEvent>)
    ensures Runs(events) + (if Closed(events) then 0 else 1) <= Expiries(events) + 1
  {
    if events != [] {
      RunsBoundedByExpiries(events[..|events| - 1]);
    }
  }

  /** A history the source can produce: a timer exists only after a run and
      until it expires, so it expires only while the gate is closed. */
  ghost predicate Feasible(events: seq<GateEvent>) {
    forall i :: 0 <= i < |events| && events[i] == TimerExpired ==> Closed(events[..i])
  }

  /** In such a history every run but the one whose timer is still pending
      has been followed by exactly one expiry. */
  lemma {:induction false} RunsMatchExpiries(events: seq<GateEvent>)
    requires Feasible(events)
    ensures Runs(events) == Expiries(events) + (if Closed(events) then 1 else 0)
  {
    if events != [] {
      var before := events[..|events| - 1];
      forall i | 0 <= i < |before| && before[i] == TimerExpired ensures Closed(before[..i]) {
        assert before[..i] == events[..i];
      }
      RunsMatchExpiries(before);
      if events[|events| - 1] == TimerExpired {
        assert Closed(events[..|events| - 1]);
      }
    }
  }

  /** Between two expiries the wrapped function runs exactly once if the
      window starts open and the wrapper is called at all, and never
      otherwise, however often the wrapper is called. */
  lemma {:induction false} OneRunPerWindow(history: seq<GateEvent>, window: seq<GateEvent>)
    requires TimerExpired !in window
    ensures Runs(history + window) == Runs(history) + (if Call in window && !Closed(history) then 1 else 0)
  {
    if window != [] {
      var w' := window[..|window| - 1];
      var all := history + window;
      assert all[..|all| - 1] == history + w';
      assert all[|all| - 1] == window[|window| - 1];
      assert Runs(all) == Runs(history + w') + (if Closed(history + w') then 0 else 1);
      assert window[|window| - 1] in window;
      assert window[|window| - 1].Call?;
      assert window == w' + [window[|window| - 1]];
      assert Call in window;
      assert TimerExpired !in w';
      OneRunPerWindow(history, w');
      if w' != [] {
        assert w'[|w'| - 1] in window;
        assert w'[|w'| - 1] in w';
        assert (history + w')[|history + w'| - 1] == w'[|w'| - 1];
        assert Call in w';
        assert Closed(history + w');
        assert Runs(all) == Runs(history + w');
      } else {
        assert history + w' == history;
        assert Runs(all) == Runs(history) + (if Closed(history) then 0 else 1);
      }
    } else {
      assert history + window == history;
    }
  }

  /** The wrapper returned by one `throttle(func, limit)` call. */
  class Throttle {
    var inThrottle: bool
    ghost var history: seq<GateEvent>
    ghost var runs: nat

    ghost predicate Valid()
      reads this
    {
      inThrottle == Closed(history) && runs == Runs(history) && Feasible(history)
    }

    constructor ()
      ensures Valid() && history == [] && !inThrottle && runs == 0
    {
      inThrottle := false;
      history := [];
      runs := 0;
    }

    /** Call the wrapper; `ran` says whether the wrapped function ran. */
    method Invoke() returns (ran: bool)
      requires Valid()
      modifies this
      ensures Valid() && history == old(history) + [Call]
      ensures ran == !old(inThrottle) && inThrottle
      ensures runs == old(runs) + (if ran then 1 else 0)
    {
      ran := !inThrottle;
      if ran {
        inThrottle := true;
        runs := runs + 1;
      }
      history := history + [Call];
      assert history[..|history| - 1] == old(history);
      forall i | 0 <= i < |history| - 1 ensures history[..i] == old(history)[..i] {
      }
    }

    /** The timer started by the last run expires; there is one only while
        the gate is closed. */
    method Expire()
      requires Valid() && inThrottle
      modifies this
      ensures Valid() && history == old(history) + [TimerExpired]
      ensures !inThrottle && runs == old(runs)
    {
      inThrottle := false;
      history := history + [TimerExpired];
      assert history[..|history| - 1] == old(history);
      forall i | 0 <= i < |history| - 1 ensures history[..i] == old(history)[..i] {
      }
    }
  }
}
