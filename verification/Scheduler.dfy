/** The poll loop: which threads are polled when, and how long the loop sleeps. */
module Scheduler {
  import opened Text
  import opened Backoff

  const GONE_THREAD_RECHECK := 6 * 3600 * SECOND
  const THREAD_DISCOVERY_INTERVAL := 30 * SECOND
  const DISCOVERY_INTERVAL_WATCHED := 5 * 60 * SECOND
  const DISCOVERY_MIN_GAP := 30 * SECOND
  const POLL_LOOP_MAX_SLEEP := 5 * SECOND
  const POLL_BACKSTOP_IDLE_CAP := 15 * 60 * SECOND
  const ACTIVE_THREAD_IDLE_CAP := 5 * SECOND

  // ----- threads -----

  datatype PollState = PollState(nextPoll: int, conversation: string, backoff: BackoffState, gone: bool)

  datatype Row = Row(threadID: string, conversation: string)

  datatype PollResult = PollResult(ingested: int, err: Option<Error>)

  // What the loop reads of the client while it works: the threads with a
  // recent own send, and whether changes are watched.
  datatype Watch = Watch(active: set<string>, watched: bool)

  function IdleCapFor(threadID: string, watch: Watch): int {
    if threadID in watch.active then ACTIVE_THREAD_IDLE_CAP
    else if watch.watched then POLL_BACKSTOP_IDLE_CAP
    else POLL_IDLE_CAP
  }

  // A listed thread's state; one not seen before is due at once.
  function Current(states: map<string, PollState>, row: Row, now: int): PollState {
    (if row.threadID in states then states[row.threadID]
     else PollState(now, "", BackoffState(0, POLL_BASE_DELAY, 0), false)).(conversation := row.conversation)
  }

  // Its state after a poll that was not rate-limited.
  function AfterPoll(ps: PollState, threadID: string, result: PollResult, watch: Watch, now: int): PollState {
    if IsThreadGone(result.err) then ps.(gone := true, nextPoll := now + GONE_THREAD_RECHECK)
    else
      var capped := ps.backoff.(idleCap := IdleCapFor(threadID, watch));
      var (b, reason) := capped.Outcome(result.ingested, result.err);
      var next := if reason == Idle && b.idleCap == POLL_BACKSTOP_IDLE_CAP then b.(delay := POLL_BACKSTOP_IDLE_CAP) else b;
      ps.(gone := false, backoff := next, nextPoll := now + next.delay)
  }

  // A polled thread waits for its next poll, unless it failed so often that the
  // delay wrapped; a thread that is gone waits the longest, an idle one that
  // is watched as long as the backstop allows, one with a recent own send
  // seconds only.
  lemma NextPollExactly(ps: PollState, threadID: string, result: PollResult, watch: Watch, now: int)
    ensures var reason, next := ps.backoff.Outcome(result.ingested, result.err).1,
                                AfterPoll(ps, threadID, result, watch, now).nextPoll;
            && (next > now <==> IsThreadGone(result.err) || reason != Failure
                                || ps.backoff.failures < 33 || ps.backoff.failures + 1 in LUCKY_FAILURES)
            && (IsThreadGone(result.err) ==> next == now + 6 * 3600 * SECOND)
            && (reason == Idle && threadID !in watch.active && watch.watched ==> next == now + 15 * 60 * SECOND)
            && (reason == Idle && threadID in watch.active ==> next <= now + 5 * SECOND)
            && (reason == Idle && !watch.watched ==> next <= now + 30 * SECOND)
            && (reason == Success ==> next == now + 2 * SECOND)
  {
    OutcomeWaits(ps.backoff.(idleCap := IdleCapFor(threadID, watch)), result.ingested, result.err);
  }

  // What a poll leaves behind: a thread that answers 404 with either of Teams'
  // words for a deleted one is parked; any other waits its backoff's delay,
  // which counts failures on, or forgets them.
  lemma PolledStateExactly(ps: PollState, threadID: string, result: PollResult, watch: Watch, now: int)
    ensures var next, err := AfterPoll(ps, threadID, result, watch, now), result.err;
            && next.conversation == ps.conversation
            && (next.gone <==>
                && err.Some? && err.value.messages.Some? && err.value.messages.value.status == 404
                && (Contains(err.value.messages.value.snippet, "ThreadNotFound")
                    || Contains(err.value.messages.value.snippet, "SoftDeleted")))
            && (next.gone ==> next.backoff == ps.backoff && next.nextPoll == now + 6 * 3600 * SECOND)
            && (!next.gone ==>
                  && next.nextPoll == now + next.backoff.delay
                  && next.backoff.idleCap == (if threadID in watch.active then 5 * SECOND
                                              else if watch.watched then 15 * 60 * SECOND else 30 * SECOND)
                  && next.backoff.failures in {0, ps.backoff.failures + 1}
                  && (err.None? ==> next.backoff.failures == 0))
            && (err.None? && result.ingested > 0 ==> next.backoff.delay == 2 * SECOND)
            && (err.None? && result.ingested <= 0 && threadID !in watch.active && !watch.watched ==>
                  next.backoff.delay == Min((if ps.backoff.delay <= 0 then 2 * SECOND else ps.backoff.delay) + 2 * SECOND, 30 * SECOND))
  {
  }

  function Later(a: int, b: int): int {
    if a > b then a else b
  }

  // ----- one pass over the listed threads -----

  datatype Turn = Turn(states: map<string, PollState>, throttledUntil: int, nextWake: int, polled: seq<string>, paused: bool)

  function TakeTurn(t: Turn, row: Row, result: PollResult, watch: Watch, now: int): Turn {
    if t.paused || row.threadID == "" then t
    else
      var ps, pause := Current(t.states, row, now), TeamsThrottle(result.err);
      if now < ps.nextPoll then
        t.(states := t.states[row.threadID := ps], nextWake := Min(ps.nextPoll, t.nextWake))
      else if pause.Some? then
        var until := Later(now + pause.value, t.throttledUntil);
        Turn(t.states[row.threadID := ps], until, until, t.polled + [row.threadID], true)
      else
        var next := AfterPoll(ps, row.threadID, result, watch, now);
        t.(states := t.states[row.threadID := next], polled := t.polled + [row.threadID],
           nextWake := if next.gone then t.nextWake else Min(next.nextPoll, t.nextWake))
  }

  function TakeTurns(t: Turn, rows: seq<Row>, results: seq<PollResult>, watch: Watch, now: int): Turn
    requires |results| == |rows|
  {
    if rows == [] then t
    else
      var n := |rows| - 1;
      TakeTurn(TakeTurns(t, rows[..n], results[..n], watch, now), rows[n], results[n], watch, now)
  }

  // The primary key of the table: a login's thread IDs are distinct.
  ghost predicate DistinctThreads(rows: seq<Row>) {
    forall i, j | 0 <= i < j < |rows| :: rows[i].threadID != rows[j].threadID
  }

  predicate IsDue(states: map<string, PollState>, row: Row, now: int) {
    row.threadID != "" && Current(states, row, now).nextPoll <= now
  }

  // A thread is due at its next poll, one that is new in the list at once.
  lemma DueExactly(states: map<string, PollState>, row: Row, now: int)
    ensures IsDue(states, row, now) <==>
            row.threadID != "" && (row.threadID in states ==> states[row.threadID].nextPoll <= now)
  {
  }

  function DueThreads(states: map<string, PollState>, rows: seq<Row>, now: int): seq<string> {
    if rows == [] then []
    else
      var due, last := DueThreads(states, rows[..|rows| - 1], now), rows[|rows| - 1];
      if IsDue(states, last, now) then due + [last.threadID] else due
  }

  lemma DistinctPrefix(rows: seq<Row>)
    requires DistinctThreads(rows) && rows != []
    ensures DistinctThreads(rows[..|rows| - 1])
    ensures forall row | row in rows[..|rows| - 1] :: row.threadID != rows[|rows| - 1].threadID
  {
  }

  lemma {:induction false} DueThreadsAreListed(states: map<string, PollState>, rows: seq<Row>, now: int)
    requires DistinctThreads(rows)
    ensures forall row | row in rows :: multiset(DueThreads(states, rows, now))[row.threadID] == if IsDue(states, row, now) then 1 else 0
    ensures forall id | id in DueThreads(states, rows, now) :: exists row :: row in rows && row.threadID == id
  {
    if rows != [] {
      var init, last := rows[..|rows| - 1], rows[|rows| - 1];
      DistinctPrefix(rows);
      DueThreadsAreListed(states, init, now);
      assert rows == init + [last] && last in rows;
      var due := DueThreads(states, init, now);
      assert last.threadID !in due;
      forall id | id in DueThreads(states, rows, now)
        ensures exists row :: row in rows && row.threadID == id
      {
        if id in due {
          var row :| row in init && row.threadID == id;
          assert row in rows;
        }
      }
    }
  }

  // A thread is polled once if due, its turn not having come.
  lemma {:induction false} OthersKeepState(t: Turn, rows: seq<Row>, results: seq<PollResult>, watch: Watch, now: int, id: string)
    requires |results| == |rows| && forall row | row in rows :: row.threadID != id
    ensures var states := TakeTurns(t, rows, results, watch, now).states;
            (id in states <==> id in t.states) && (id in states ==> states[id] == t.states[id])
  {
    if rows != [] {
      var n := |rows| - 1;
      assert rows == rows[..n] + [rows[n]];
      OthersKeepState(t, rows[..n], results[..n], watch, now, id);
    }
  }

  // Unless a poll is rate-limited, exactly the due threads have been polled,
  // in the order listed, and the loop wakes by every thread's next poll.
  lemma {:induction false} TurnsPollTheDue(t: Turn, rows: seq<Row>, results: seq<PollResult>, watch: Watch, now: int)
    requires |results| == |rows| && DistinctThreads(rows) && !t.paused
    ensures var end := TakeTurns(t, rows, results, watch, now);
            && t.polled <= end.polled <= t.polled + DueThreads(t.states, rows, now)
            && (!end.paused ==> end.polled == t.polled + DueThreads(t.states, rows, now))
  {
    if rows != [] {
      var n := |rows| - 1;
      DistinctPrefix(rows);
      TurnsPollTheDue(t, rows[..n], results[..n], watch, now);
      OthersKeepState(t, rows[..n], results[..n], watch, now, rows[n].threadID);
    }
  }

  lemma {:induction false} TurnsWakeInTime(t: Turn, rows: seq<Row>, results: seq<PollResult>, watch: Watch, now: int)
    requires |results| == |rows| && DistinctThreads(rows) && !t.paused && t.nextWake <= now + POLL_LOOP_MAX_SLEEP
    ensures var end := TakeTurns(t, rows, results, watch, now);
            !end.paused ==>
              && end.nextWake <= t.nextWake && end.throttledUntil == t.throttledUntil
              && forall row | row in rows && row.threadID != "" ::
                   row.threadID in end.states && end.nextWake <= end.states[row.threadID].nextPoll
  {
    if rows != [] {
      var n := |rows| - 1;
      DistinctPrefix(rows);
      TurnsWakeInTime(t, rows[..n], results[..n], watch, now);
      assert rows == rows[..n] + [rows[n]];
    }
  }

  // Every due thread is left as its poll leaves it, every other as it was.
  lemma {:induction false} TurnsLeaveExactly(t: Turn, rows: seq<Row>, results: seq<PollResult>, watch: Watch, now: int, i: nat)
    requires |results| == |rows| && DistinctThreads(rows) && i < |rows| && rows[i].threadID != ""
    requires !TakeTurns(t, rows, results, watch, now).paused
    ensures var end, row := TakeTurns(t, rows, results, watch, now), rows[i];
            && row.threadID in end.states
            && end.states[row.threadID] ==
               var ps := (if row.threadID in t.states then t.states[row.threadID]
                          else PollState(now, "", BackoffState(0, 2 * SECOND, 0), false)).(conversation := row.conversation);
               if ps.nextPoll <= now then AfterPoll(ps, row.threadID, results[i], watch, now) else ps
  {
    var n := |rows| - 1;
    var before := TakeTurns(t, rows[..n], results[..n], watch, now);
    DistinctPrefix(rows);
    if i < n {
      TurnsLeaveExactly(t, rows[..n], results[..n], watch, now, i);
      assert rows[i].threadID != rows[n].threadID;
    } else {
      forall row | row in rows[..n]
        ensures row.threadID != rows[n].threadID
      {
        var j :| 0 <= j < n && rows[j] == row;
      }
      OthersKeepState(t, rows[..n], results[..n], watch, now, rows[n].threadID);
    }
  }

  // And it does not wake before there is something to do.
  lemma {:induction false} TurnsWakeForSomething(t: Turn, rows: seq<Row>, results: seq<PollResult>, watch: Watch, now: int)
    requires |results| == |rows| && DistinctThreads(rows)
    ensures var end := TakeTurns(t, rows, results, watch, now);
            !end.paused ==> end.nextWake == t.nextWake || WakesForRow(end, rows)
  {
    if rows != [] {
      var n := |rows| - 1;
      var before := TakeTurns(t, rows[..n], results[..n], watch, now);
      DistinctPrefix(rows);
      TurnsWakeForSomething(t, rows[..n], results[..n], watch, now);
      TurnWakes(before, rows, results[n], watch, now);
    }
  }

  // The wake time is one of the rows' next polls.
  ghost predicate WakesForRow(t: Turn, rows: seq<Row>) {
    exists row :: row in rows && row.threadID in t.states && t.states[row.threadID].nextPoll == t.nextWake
  }

  lemma TurnWakes(before: Turn, rows: seq<Row>, result: PollResult, watch: Watch, now: int)
    requires rows != [] && DistinctThreads(rows)
    ensures var n := |rows| - 1;
            var end := TakeTurn(before, rows[n], result, watch, now);
            !end.paused ==>
              && (end.nextWake == before.nextWake || WakesForRow(end, rows))
              && (end.nextWake == before.nextWake && WakesForRow(before, rows[..n]) ==> WakesForRow(end, rows))
  {
    var n := |rows| - 1;
    var end := TakeTurn(before, rows[n], result, watch, now);
    assert rows == rows[..n] + [rows[n]] && rows[n] in rows;
    if end.nextWake == before.nextWake && WakesForRow(before, rows[..n]) {
      var row :| row in rows[..n] && row.threadID in before.states && before.states[row.threadID].nextPoll == before.nextWake;
      assert row in rows && row.threadID != rows[n].threadID;
    }
  }

  // Only a rate-limited poll pauses the loop, for at most ten minutes.
  lemma {:induction false} TurnsThrottle(t: Turn, rows: seq<Row>, results: seq<PollResult>, watch: Watch, now: int)
    requires |results| == |rows| && !t.paused
    ensures var end := TakeTurns(t, rows, results, watch, now);
            && t.throttledUntil <= end.throttledUntil
            && (end.throttledUntil == t.throttledUntil || end.throttledUntil <= now + THROTTLE_MAX)
            && (if end.paused then now < end.throttledUntil == end.nextWake else end.throttledUntil == t.throttledUntil)
  {
    if rows != [] {
      TurnsThrottle(t, rows[..|rows| - 1], results[..|rows| - 1], watch, now);
    }
  }

  // The poll that was rate-limited: the due threads up to it have been polled,
  // it and the due ones after it are still due.
  ghost predicate PausedAt(t: Turn, end: Turn, rows: seq<Row>, results: seq<PollResult>, now: int, k: nat)
    requires |results| == |rows|
  {
    && k < |rows| && IsDue(t.states, rows[k], now) && TeamsThrottle(results[k].err).Some?
    && end.polled == t.polled + DueThreads(t.states, rows[..k + 1], now)
    && (var until := now + TeamsThrottle(results[k].err).value;
        end.throttledUntil == if until > t.throttledUntil then until else t.throttledUntil)
    && forall i | k <= i < |rows| && IsDue(t.states, rows[i], now) :: IsDue(end.states, rows[i], now)
  }

  lemma StaysPaused(t: Turn, end: Turn, rows: seq<Row>, results: seq<PollResult>, now: int, k: nat)
    requires |results| == |rows| > 0 && PausedAt(t, end, rows[..|rows| - 1], results[..|rows| - 1], now, k)
    requires IsDue(t.states, rows[|rows| - 1], now) ==> IsDue(end.states, rows[|rows| - 1], now)
    ensures PausedAt(t, end, rows, results, now, k)
  {
    var init := rows[..|rows| - 1];
    assert init[..k + 1] == rows[..k + 1];
    forall i | k <= i < |rows| && IsDue(t.states, rows[i], now)
      ensures IsDue(end.states, rows[i], now)
    {
      if i < |rows| - 1 { assert init[i] == rows[i]; }
    }
  }

  // A rate-limited turn.
  lemma TurnPauses(t: Turn, row: Row, result: PollResult, watch: Watch, now: int)
    requires !t.paused && TakeTurn(t, row, result, watch, now).paused
    ensures var end := TakeTurn(t, row, result, watch, now);
            && IsDue(t.states, row, now) && TeamsThrottle(result.err).Some?
            && end.polled == t.polled + [row.threadID] && IsDue(end.states, row, now)
            && end.throttledUntil == Later(now + TeamsThrottle(result.err).value, t.throttledUntil)
  {
  }

  lemma LastPauses(t: Turn, rows: seq<Row>, results: seq<PollResult>, watch: Watch, now: int)
    requires |results| == |rows| > 0 && DistinctThreads(rows) && !t.paused
    requires !TakeTurns(t, rows[..|rows| - 1], results[..|rows| - 1], watch, now).paused
    requires TakeTurns(t, rows, results, watch, now).paused
    ensures PausedAt(t, TakeTurns(t, rows, results, watch, now), rows, results, now, |rows| - 1)
  {
    var n := |rows| - 1;
    var last, before := rows[n], TakeTurns(t, rows[..n], results[..n], watch, now);
    DistinctPrefix(rows);
    OthersKeepState(t, rows[..n], results[..n], watch, now, last.threadID);
    TurnsPollTheDue(t, rows[..n], results[..n], watch, now);
    TurnPauses(before, last, results[n], watch, now);
    TurnsThrottle(t, rows[..n], results[..n], watch, now);
    LastIsPausedAt(t, before, TakeTurn(before, last, results[n], watch, now), rows, results, now);
  }

  lemma LastIsPausedAt(t: Turn, before: Turn, end: Turn, rows: seq<Row>, results: seq<PollResult>, now: int)
    requires |results| == |rows| > 0 && IsDue(t.states, rows[|rows| - 1], now) && IsDue(end.states, rows[|rows| - 1], now)
    requires before.polled == t.polled + DueThreads(t.states, rows[..|rows| - 1], now)
    requires end.polled == before.polled + [rows[|rows| - 1].threadID]
    requires TeamsThrottle(results[|rows| - 1].err).Some?
    requires end.throttledUntil == Later(now + TeamsThrottle(results[|rows| - 1].err).value, t.throttledUntil)
    ensures PausedAt(t, end, rows, results, now, |rows| - 1)
  {
    assert rows[..|rows|] == rows;
    OneMoreDue(t, before, end, rows, now);
  }

  lemma OneMoreDue(t: Turn, before: Turn, end: Turn, rows: seq<Row>, now: int)
    requires rows != [] && IsDue(t.states, rows[|rows| - 1], now)
    requires before.polled == t.polled + DueThreads(t.states, rows[..|rows| - 1], now)
    requires end.polled == before.polled + [rows[|rows| - 1].threadID]
    ensures end.polled == t.polled + DueThreads(t.states, rows, now)
  {
  }

  lemma {:induction false} TurnsPause(t: Turn, rows: seq<Row>, results: seq<PollResult>, watch: Watch, now: int)
    returns (k: nat)
    requires |results| == |rows| && DistinctThreads(rows) && !t.paused && TakeTurns(t, rows, results, watch, now).paused
    ensures PausedAt(t, TakeTurns(t, rows, results, watch, now), rows, results, now, k)
  {
    var n := |rows| - 1;
    var before := TakeTurns(t, rows[..n], results[..n], watch, now);
    if before.paused {
      DistinctPrefix(rows);
      k := TurnsPause(t, rows[..n], results[..n], watch, now);
      OthersKeepState(t, rows[..n], results[..n], watch, now, rows[n].threadID);
      StaysPaused(t, before, rows, results, now, k);
    } else {
      k := n;
      LastPauses(t, rows, results, watch, now);
    }
  }

  lemma {:induction false} PausedStays(t: Turn, rows: seq<Row>, results: seq<PollResult>, watch: Watch, now: int, k: nat)
    requires |results| == |rows| && k <= |rows| && TakeTurns(t, rows[..k], results[..k], watch, now).paused
    ensures TakeTurns(t, rows, results, watch, now) == TakeTurns(t, rows[..k], results[..k], watch, now)
  {
    var n := |rows| - 1;
    if k <= n {
      assert rows[..n][..k] == rows[..k] && results[..n][..k] == results[..k];
      PausedStays(t, rows[..n], results[..n], watch, now, k);
    } else {
      assert rows[..k] == rows && results[..k] == results;
    }
  }

  // ----- waking threads -----

  predicate Matches(states: map<string, PollState>, threadID: string, id: string)
    requires threadID in states
  {
    threadID == id || states[threadID].conversation == id
  }

  // Due now (at the zero time), at the fastest cadence.
  function Woken(ps: PollState): PollState {
    ps.(nextPoll := 0, backoff := ps.backoff.Succeeded())
  }

  // Every thread that one of the thread or conversation IDs means is woken.
  function WakeAll(states: map<string, PollState>, ids: set<string>): map<string, PollState> {
    map k | k in states :: if k in ids || states[k].conversation in ids then Woken(states[k]) else states[k]
  }

  predicate AnyMatches(states: map<string, PollState>, id: string) {
    exists k :: k in states && Matches(states, k, id)
  }

  lemma WakeOneMore(states: map<string, PollState>, ids: set<string>, id: string)
    ensures WakeAll(WakeAll(states, ids), {id}) == WakeAll(states, ids + {id})
    ensures AnyMatches(WakeAll(states, ids), id) == AnyMatches(states, id)
  {
    if AnyMatches(states, id) {
      var k :| k in states && Matches(states, k, id);
      assert Matches(WakeAll(states, ids), k, id);
    }
    if AnyMatches(WakeAll(states, ids), id) {
      var k :| k in states && Matches(WakeAll(states, ids), k, id);
      assert Matches(states, k, id);
    }
  }

  method ApplyWakeup(states: map<string, PollState>, id: string) returns (woken: map<string, PollState>, matched: bool)
    ensures woken == WakeAll(states, {id}) && matched == AnyMatches(states, id)
  {
    woken, matched := states, false;
    var keys := states.Keys;
    while keys != {}
      invariant keys <= states.Keys && woken.Keys == states.Keys
      invariant forall k | k in states ::
          woken[k] == if k !in keys && Matches(states, k, id) then Woken(states[k]) else states[k]
      invariant matched <==> exists k :: k in states && k !in keys && Matches(states, k, id)
      decreases |keys|
    {
      var k :| k in keys;
      keys := keys - {k};
      if k == id || states[k].conversation == id {
        assert Matches(states, k, id);
        matched := true;
        woken := woken[k := Woken(states[k])];
      }
    }
  }

  // ----- the recent-conversations check -----

  datatype Conversation = Conversation(id: string, newest: string)

  predicate IsNonPollableSystemStream(id: string) {
    Contains(id, "teamsstream_") && !Contains(id, "teamsstream_notes") && !Contains(id, "teamsstream_calllogs")
  }

  // What the check has found: the newest message of each conversation, those
  // whose newest message changed, and whether any could be looked at.
  datatype Check = Check(lastSeen: map<string, string>, noticed: set<string>, watched: bool)

  // A conversation not seen before has changed, unless none had been.
  predicate HasChanged(c: Check, conv: Conversation, primed: bool) {
    if conv.id in c.lastSeen then c.lastSeen[conv.id] != conv.newest else primed
  }

  function LookAt(c: Check, conv: Conversation, primed: bool): Check {
    if conv.id == "" || conv.newest == "" then c
    else Check(c.lastSeen[conv.id := conv.newest],
               if HasChanged(c, conv, primed) then c.noticed + {conv.id} else c.noticed, true)
  }

  function LookAll(c: Check, convs: seq<Conversation>, primed: bool): Check {
    if convs == [] then c else LookAt(LookAll(c, convs[..|convs| - 1], primed), convs[|convs| - 1], primed)
  }

  // Something changed in a conversation that no polled thread stands for.
  predicate AnyUnknown(states: map<string, PollState>, noticed: set<string>) {
    exists id :: id in noticed && !AnyMatches(states, id) && !IsNonPollableSystemStream(id)
  }

  // The newest message known of a conversation once the first i entries of
  // the list have been read.
  function KnownBefore(lastSeen: map<string, string>, convs: seq<Conversation>, i: nat, id: string): Option<string>
    requires i <= |convs|
  {
    if i == 0 then if id in lastSeen then Some(lastSeen[id]) else None
    else if convs[i - 1].id == id && convs[i - 1].newest != "" then Some(convs[i - 1].newest)
    else KnownBefore(lastSeen, convs, i - 1, id)
  }

  // The i-th entry tells of a new message: not the one known, or the first
  // known of the conversation once any conversation is.
  predicate IsNews(lastSeen: map<string, string>, convs: seq<Conversation>, i: nat)
    requires i < |convs|
  {
    && convs[i].id != "" && convs[i].newest != ""
    && match KnownBefore(lastSeen, convs, i, convs[i].id)
       case Some(known) => known != convs[i].newest
       case None => |lastSeen| > 0
  }

  lemma {:induction false} KnownPrefix(lastSeen: map<string, string>, convs: seq<Conversation>, n: nat, i: nat, id: string)
    requires i <= n <= |convs|
    ensures KnownBefore(lastSeen, convs[..n], i, id) == KnownBefore(lastSeen, convs, i, id)
  {
    if i > 0 {
      KnownPrefix(lastSeen, convs, n, i - 1, id);
    }
  }

  // What the check has seen is what is known after the whole list.
  lemma {:induction false} SeenIsKnown(lastSeen: map<string, string>, convs: seq<Conversation>, id: string)
    requires id != ""
    ensures var seen := LookAll(Check(lastSeen, {}, false), convs, |lastSeen| > 0).lastSeen;
            KnownBefore(lastSeen, convs, |convs|, id) == if id in seen then Some(seen[id]) else None
  {
    if convs != [] {
      var n := |convs| - 1;
      SeenIsKnown(lastSeen, convs[..n], id);
      KnownPrefix(lastSeen, convs, n, n, id);
    }
  }

  // A conversation is noticed exactly if some entry tells of a new message in it.
  lemma {:induction false} NoticedExactly(lastSeen: map<string, string>, convs: seq<Conversation>, id: string)
    ensures id in LookAll(Check(lastSeen, {}, false), convs, |lastSeen| > 0).noticed <==>
            exists i :: 0 <= i < |convs| && convs[i].id == id && IsNews(lastSeen, convs, i)
  {
    if convs != [] {
      var n := |convs| - 1;
      var before := LookAll(Check(lastSeen, {}, false), convs[..n], |lastSeen| > 0);
      NoticedExactly(lastSeen, convs[..n], id);
      NewsPrefix(lastSeen, convs, n);
      if convs[n].id != "" {
        SeenIsKnown(lastSeen, convs[..n], convs[n].id);
        KnownPrefix(lastSeen, convs, n, n, convs[n].id);
      }
      assert IsNews(lastSeen, convs, n) <==>
             convs[n].id != "" && convs[n].newest != "" && HasChanged(before, convs[n], |lastSeen| > 0);
      if i :| 0 <= i < n && convs[..n][i].id == id && IsNews(lastSeen, convs[..n], i) {
        assert convs[i].id == id && IsNews(lastSeen, convs, i);
      }
    }
  }

  lemma NewsPrefix(lastSeen: map<string, string>, convs: seq<Conversation>, n: nat)
    requires n <= |convs|
    ensures forall i | 0 <= i < n :: IsNews(lastSeen, convs[..n], i) <==> IsNews(lastSeen, convs, i)
  {
    forall i | 0 <= i < n
      ensures IsNews(lastSeen, convs[..n], i) <==> IsNews(lastSeen, convs, i)
    {
      KnownPrefix(lastSeen, convs, n, i, convs[i].id);
    }
  }

  // In a list that holds each conversation once, what is known is what was
  // known before the list.
  lemma {:induction false} KnownOfDistinct(lastSeen: map<string, string>, convs: seq<Conversation>, i: nat, id: string)
    requires i <= |convs| && forall j | 0 <= j < i :: convs[j].id != id
    ensures KnownBefore(lastSeen, convs, i, id) == if id in lastSeen then Some(lastSeen[id]) else None
  {
    if i > 0 {
      KnownOfDistinct(lastSeen, convs, i - 1, id);
    }
  }

  // Some entry of the list is of the conversation, or of the thread in it, and
  // tells of a new message.
  ghost predicate HasNews(states: map<string, PollState>, lastSeen: map<string, string>, convs: seq<Conversation>, k: string)
    requires k in states
  {
    exists i :: 0 <= i < |convs| && IsNews(lastSeen, convs, i) && convs[i].id in {k, states[k].conversation}
  }

  // A message in a conversation that no thread polled is of, and that is none
  // of Teams' own streams.
  ghost predicate IsUnknownNews(states: map<string, PollState>, lastSeen: map<string, string>, convs: seq<Conversation>, i: nat)
    requires i < |convs|
  {
    && IsNews(lastSeen, convs, i)
    && (forall k | k in states :: k != convs[i].id && states[k].conversation != convs[i].id)
    && (Contains(convs[i].id, "teamsstream_") ==>
          Contains(convs[i].id, "teamsstream_notes") || Contains(convs[i].id, "teamsstream_calllogs"))
  }

  lemma WokenHaveNews(states: map<string, PollState>, lastSeen: map<string, string>, convs: seq<Conversation>, noticed: set<string>)
    requires noticed == LookAll(Check(lastSeen, {}, false), convs, |lastSeen| > 0).noticed
    ensures forall k | k in states ::
              k in noticed || states[k].conversation in noticed <==> HasNews(states, lastSeen, convs, k)
  {
    forall k | k in states
      ensures k in noticed || states[k].conversation in noticed <==> HasNews(states, lastSeen, convs, k)
    {
      NoticedExactly(lastSeen, convs, k);
      NoticedExactly(lastSeen, convs, states[k].conversation);
    }
  }

  lemma UnknownHaveNews(states: map<string, PollState>, lastSeen: map<string, string>, convs: seq<Conversation>, noticed: set<string>)
    requires noticed == LookAll(Check(lastSeen, {}, false), convs, |lastSeen| > 0).noticed
    ensures AnyUnknown(states, noticed) <==> exists i :: 0 <= i < |convs| && IsUnknownNews(states, lastSeen, convs, i)
  {
    if AnyUnknown(states, noticed) {
      var id :| id in noticed && !AnyMatches(states, id) && !IsNonPollableSystemStream(id);
      NoticedExactly(lastSeen, convs, id);
      var i :| 0 <= i < |convs| && convs[i].id == id && IsNews(lastSeen, convs, i);
      assert forall k | k in states :: !Matches(states, k, id);
      assert IsUnknownNews(states, lastSeen, convs, i);
    }
    if i :| 0 <= i < |convs| && IsUnknownNews(states, lastSeen, convs, i) {
      NoticedExactly(lastSeen, convs, convs[i].id);
      assert !AnyMatches(states, convs[i].id);
    }
  }

  lemma NewsOfDistinct(lastSeen: map<string, string>, convs: seq<Conversation>)
    requires DistinctConversations(convs)
    ensures forall i | 0 <= i < |convs| ::
              IsNews(lastSeen, convs, i) <==>
              && convs[i].id != "" && convs[i].newest != ""
              && if convs[i].id in lastSeen then lastSeen[convs[i].id] != convs[i].newest else |lastSeen| > 0
  {
    forall i | 0 <= i < |convs|
      ensures IsNews(lastSeen, convs, i) <==>
              && convs[i].id != "" && convs[i].newest != ""
              && if convs[i].id in lastSeen then lastSeen[convs[i].id] != convs[i].newest else |lastSeen| > 0
    {
      if convs[i].id != "" {
        KnownOfDistinct(lastSeen, convs, i, convs[i].id);
      }
    }
  }

  // The list holds each conversation once; entries without an ID may repeat.
  ghost predicate DistinctConversations(convs: seq<Conversation>) {
    forall i, j | 0 <= i < j < |convs| && convs[i].id == convs[j].id :: convs[i].id == ""
  }

  // Whether conversations repeat or not, a thread is woken exactly if the list
  // has news of it, and discovery is asked for exactly if it has news of an
  // unknown conversation; in a list without repetitions, news is a newest
  // message other than the one seen last.
  method CheckActivity(states: map<string, PollState>, lastSeen: map<string, string>, convs: seq<Conversation>)
    returns (woken: map<string, PollState>, seen: map<string, string>, watched: bool, unknown: bool)
    ensures woken.Keys == states.Keys
    ensures forall k | k in states ::
              woken[k] == if HasNews(states, lastSeen, convs, k)
                          then states[k].(nextPoll := 0, backoff := states[k].backoff.(failures := 0, delay := 2 * SECOND))
                          else states[k]
    ensures unknown <==> exists i :: 0 <= i < |convs| && IsUnknownNews(states, lastSeen, convs, i)
    ensures watched <==> exists i :: 0 <= i < |convs| && convs[i].id != "" && convs[i].newest != ""
    ensures forall id | id != "" ::
              KnownBefore(lastSeen, convs, |convs|, id) == if id in seen then Some(seen[id]) else None
    ensures DistinctConversations(convs) ==>
              forall i | 0 <= i < |convs| ::
                IsNews(lastSeen, convs, i) <==>
                && convs[i].id != "" && convs[i].newest != ""
                && if convs[i].id in lastSeen then lastSeen[convs[i].id] != convs[i].newest else |lastSeen| > 0
    ensures var c := LookAll(Check(lastSeen, {}, false), convs, |lastSeen| > 0);
            && woken == WakeAll(states, c.noticed) && seen == c.lastSeen && watched == c.watched
            && unknown == AnyUnknown(states, c.noticed)
  {
    woken, seen, watched, unknown := ReadList(states, lastSeen, convs);
    CheckIsExact(states, lastSeen, convs);
  }

  // The loop over the list.
  method ReadList(states: map<string, PollState>, lastSeen: map<string, string>, convs: seq<Conversation>)
    returns (woken: map<string, PollState>, seen: map<string, string>, watched: bool, unknown: bool)
    ensures var c := LookAll(Check(lastSeen, {}, false), convs, |lastSeen| > 0);
            && woken == WakeAll(states, c.noticed) && seen == c.lastSeen && watched == c.watched
            && unknown == AnyUnknown(states, c.noticed)
  {
    var primed := |lastSeen| > 0;
    ghost var start := Check(lastSeen, {}, false);
    ghost var noticed: set<string> := {};
    woken, seen, watched, unknown := states, lastSeen, false, false;
    assert WakeAll(states, {}) == states;
    var i := 0;
    while i < |convs|
      invariant i <= |convs| && LookAll(start, convs[..i], primed) == Check(seen, noticed, watched)
      invariant woken == WakeAll(states, noticed) && unknown == AnyUnknown(states, noticed)
    {
      assert convs[..i + 1][..i] == convs[..i];
      var conv := convs[i];
      if conv.id != "" && conv.newest != "" {
        watched := true;
        if (if conv.id in seen then seen[conv.id] != conv.newest else primed) {
          WakeOneMore(states, noticed, conv.id);
          UnknownOneMore(states, noticed, conv.id);
          noticed := noticed + {conv.id};
          var matched;
          woken, matched := ApplyWakeup(woken, conv.id);
          if !matched && !IsNonPollableSystemStream(conv.id) {
            unknown := true;
          }
        }
        seen := seen[conv.id := conv.newest];
      }
      i := i + 1;
    }
    assert convs[..|convs|] == convs;
  }

  lemma CheckIsExact(states: map<string, PollState>, lastSeen: map<string, string>, convs: seq<Conversation>)
    ensures var c := LookAll(Check(lastSeen, {}, false), convs, |lastSeen| > 0);
            && (forall k | k in states ::
                  k in c.noticed || states[k].conversation in c.noticed <==> HasNews(states, lastSeen, convs, k))
            && (AnyUnknown(states, c.noticed) <==> exists i :: 0 <= i < |convs| && IsUnknownNews(states, lastSeen, convs, i))
            && (c.watched <==> exists i :: 0 <= i < |convs| && convs[i].id != "" && convs[i].newest != "")
            && (forall id | id != "" ::
                  KnownBefore(lastSeen, convs, |convs|, id) == if id in c.lastSeen then Some(c.lastSeen[id]) else None)
    ensures DistinctConversations(convs) ==>
              forall i | 0 <= i < |convs| ::
                IsNews(lastSeen, convs, i) <==>
                && convs[i].id != "" && convs[i].newest != ""
                && if convs[i].id in lastSeen then lastSeen[convs[i].id] != convs[i].newest else |lastSeen| > 0
  {
    var c := LookAll(Check(lastSeen, {}, false), convs, |lastSeen| > 0);
    WokenHaveNews(states, lastSeen, convs, c.noticed);
    UnknownHaveNews(states, lastSeen, convs, c.noticed);
    WatchedExactly(Check(lastSeen, {}, false), convs, |lastSeen| > 0);
    forall id | id != ""
      ensures KnownBefore(lastSeen, convs, |convs|, id) == if id in c.lastSeen then Some(c.lastSeen[id]) else None
    {
      SeenIsKnown(lastSeen, convs, id);
    }
    if DistinctConversations(convs) { NewsOfDistinct(lastSeen, convs); }
  }

  lemma {:induction false} WatchedExactly(c: Check, convs: seq<Conversation>, primed: bool)
    ensures LookAll(c, convs, primed).watched <==>
            c.watched || exists i :: 0 <= i < |convs| && convs[i].id != "" && convs[i].newest != ""
  {
    if convs != [] {
      var n := |convs| - 1;
      WatchedExactly(c, convs[..n], primed);
      assert forall i | 0 <= i < n :: convs[..n][i] == convs[i];
    }
  }

  lemma UnknownOneMore(states: map<string, PollState>, noticed: set<string>, id: string)
    ensures AnyUnknown(states, noticed + {id}) <==>
            AnyUnknown(states, noticed) || (!AnyMatches(states, id) && !IsNonPollableSystemStream(id))
  {
    if AnyUnknown(states, noticed) {
      var other :| other in noticed && !AnyMatches(states, other) && !IsNonPollableSystemStream(other);
      assert other in noticed + {id};
    }
    assert id in noticed + {id};
  }

  lemma {:induction false} LookRecords(c: Check, convs: seq<Conversation>, primed: bool, i: nat)
    requires DistinctConversations(convs) && i < |convs| && convs[i].id != "" && convs[i].newest != ""
    ensures var seen := LookAll(c, convs, primed).lastSeen; convs[i].id in seen && seen[convs[i].id] == convs[i].newest
  {
    if i < |convs| - 1 {
      LookRecords(c, convs[..|convs| - 1], primed, i);
    }
  }

  lemma {:induction false} NothingChanged(c: Check, convs: seq<Conversation>, primed: bool)
    requires forall i | 0 <= i < |convs| && convs[i].id != "" && convs[i].newest != "" ::
               convs[i].id in c.lastSeen && c.lastSeen[convs[i].id] == convs[i].newest
    ensures var next := LookAll(c, convs, primed); next.noticed == c.noticed && next.lastSeen == c.lastSeen
  {
    if convs != [] {
      NothingChanged(c, convs[..|convs| - 1], primed);
    }
  }

  // A list that comes back unchanged wakes nothing.
  lemma SameListNoticesNothing(lastSeen: map<string, string>, convs: seq<Conversation>, primed: bool, again: bool)
    requires DistinctConversations(convs)
    ensures var seen := LookAll(Check(lastSeen, {}, false), convs, primed).lastSeen;
            LookAll(Check(seen, {}, false), convs, again).noticed == {}
  {
    var first := Check(lastSeen, {}, false);
    forall i | 0 <= i < |convs| && convs[i].id != "" && convs[i].newest != ""
      ensures var seen := LookAll(first, convs, primed).lastSeen; convs[i].id in seen && seen[convs[i].id] == convs[i].newest
    {
      LookRecords(first, convs, primed, i);
    }
    NothingChanged(Check(LookAll(first, convs, primed).lastSeen, {}, false), convs, again);
  }

  // A changed conversation's threads are due, whatever their backoff.
  lemma NoticedThreadsAreDue(states: map<string, PollState>, noticed: set<string>, row: Row, now: nat)
    requires row.threadID in states && row.threadID != ""
    requires row.threadID in noticed || states[row.threadID].conversation in noticed
    ensures IsDue(WakeAll(states, noticed), row, now)
    ensures forall k | k in states && k !in noticed && states[k].conversation !in noticed ::
              WakeAll(states, noticed)[k] == states[k]
  {
  }
}
