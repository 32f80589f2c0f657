/** Whether requests to Teams are getting through, and the states reported of it. */
module Reachability {
  import opened Text

  // Unanswered requests in a row before the bridge counts as cut off.
  const TEAMS_REACH_TRIP := 3

  // How a request ended: cancelled by the bridge itself, without an answer, or
  // with one of any kind.
  datatype Outcome = Cancelled | Unanswered | Answered

  datatype BridgeState = TransientDisconnect | Connected

  datatype Event = Note(outcome: Outcome) | MarkDown

  datatype Reach = Reach(failures: nat, down: bool) {
    function After(e: Event): Reach {
      match e
      case Note(Cancelled) => this
      case Note(Unanswered) => Reach(failures + 1, down || failures + 1 >= TEAMS_REACH_TRIP)
      case Note(Answered) => Reach(0, false)
      case MarkDown => Reach(if failures < TEAMS_REACH_TRIP then TEAMS_REACH_TRIP else failures, true)
    }

    // A state is reported when it changes.
    function Report(e: Event): Option<BridgeState> {
      if After(e).down == down then None else if down then Some(Connected) else Some(TransientDisconnect)
    }
  }

  const REACHED := Reach(0, false)

  class TeamsReach {
    var failures: nat
    var down: bool

    function Value(): Reach
      reads this
    {
      Reach(failures, down)
    }

    constructor ()
      ensures Value() == REACHED
    {
      failures, down := 0, false;
    }

    method NoteOutcome(outcome: Outcome) returns (state: Option<BridgeState>)
      modifies this
      ensures Value() == old(Value()).After(Note(outcome)) && state == old(Value()).Report(Note(outcome))
    {
      if outcome.Cancelled? {
        return None;
      }
      if outcome.Unanswered? {
        failures := failures + 1;
        if failures < TEAMS_REACH_TRIP || down {
          return None;
        }
        down := true;
        return Some(TransientDisconnect);
      }
      failures := 0;
      if !down {
        return None;
      }
      down := false;
      return Some(Connected);
    }

    method MarkAsDown() returns (state: Option<BridgeState>)
      modifies this
      ensures Value() == old(Value()).After(MarkDown) && state == old(Value()).Report(MarkDown)
    {
      if failures < TEAMS_REACH_TRIP {
        failures := TEAMS_REACH_TRIP;
      }
      if down {
        return None;
      }
      down := true;
      return Some(TransientDisconnect);
    }
  }

  // ----- over a whole run -----

  function Run(events: seq<Event>): Reach {
    if events == [] then REACHED else Run(events[..|events| - 1]).After(events[|events| - 1])
  }

  function Reports(events: seq<Event>): seq<BridgeState> {
    if events == [] then []
    else
      var init := events[..|events| - 1];
      var state := Run(init).Report(events[|events| - 1]);
      if state.Some? then Reports(init) + [state.value] else Reports(init)
  }

  // Requests without an answer since the last one answered.
  function UnansweredSince(events: seq<Event>): nat {
    if events == [] || events[|events| - 1] == Note(Answered) then 0
    else UnansweredSince(events[..|events| - 1]) + if events[|events| - 1] == Note(Unanswered) then 1 else 0
  }

  // Whether Teams was marked unreachable since a request was last answered.
  predicate MarkedSince(events: seq<Event>) {
    exists i :: 0 <= i < |events| && events[i] == MarkDown && Note(Answered) !in events[i..]
  }

  lemma MarkedSinceOneMore(events: seq<Event>)
    requires events != []
    ensures var last := events[|events| - 1];
            MarkedSince(events) <==> last == MarkDown || (last != Note(Answered) && MarkedSince(events[..|events| - 1]))
  {
    var init, last, n := events[..|events| - 1], events[|events| - 1], |events| - 1;
    if MarkedSince(events) {
      var i :| 0 <= i < |events| && events[i] == MarkDown && Note(Answered) !in events[i..];
      assert last == events[i..][n - i];
      if i < n {
        assert events[i..] == init[i..] + [last];
        assert init[i] == MarkDown;
      }
    }
    if last == MarkDown {
      assert events[n..] == [last];
    } else if last != Note(Answered) && MarkedSince(init) {
      var i :| 0 <= i < |init| && init[i] == MarkDown && Note(Answered) !in init[i..];
      assert events[i..] == init[i..] + [last];
      assert events[i] == MarkDown;
    }
  }

  lemma {:induction false} FailuresCount(events: seq<Event>)
    ensures Run(events).down <==> Run(events).failures >= TEAMS_REACH_TRIP
    ensures if MarkedSince(events) then Run(events).failures >= TEAMS_REACH_TRIP
            else Run(events).failures == UnansweredSince(events)
  {
    if events != [] {
      FailuresCount(events[..|events| - 1]);
      MarkedSinceOneMore(events);
    }
  }

  // After any run, Teams counts as unreachable exactly if since the last
  // answer it was marked so or three requests went without one.
  lemma DownExactly(events: seq<Event>)
    ensures Run(events).down <==> UnansweredSince(events) >= TEAMS_REACH_TRIP || MarkedSince(events)
  {
    FailuresCount(events);
    UnansweredAtMost(events);
  }

  lemma {:induction false} UnansweredAtMost(events: seq<Event>)
    ensures UnansweredSince(events) <= Run(events).failures
  {
    if events != [] {
      UnansweredAtMost(events[..|events| - 1]);
    }
  }

  // The states reported alternate, a disconnect first, and the last one told
  // is how things stand.
  lemma {:induction false} ReportsAlternate(events: seq<Event>)
    ensures forall i | 0 <= i < |Reports(events)| ::
              Reports(events)[i] == if i % 2 == 0 then TransientDisconnect else Connected
    ensures Run(events).down <==> |Reports(events)| % 2 == 1
  {
    if events != [] {
      ReportsAlternate(events[..|events| - 1]);
    }
  }
}
