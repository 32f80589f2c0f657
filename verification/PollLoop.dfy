/** The poll loop over a whole run. */
module PollLoop {
  import opened Text
  import opened Backoff
  import opened Scheduler
  import CursorSaving

  const TEAM_SYNC_INTERVAL := 3600 * SECOND
  const CACHE_SWEEP_INTERVAL := 10 * 60 * SECOND

  // ----- what the outside world does in one round of the loop -----

  datatype CheckAnswer = CheckFailed(err: Error) | Listed(convs: seq<Conversation>)

  // The wakeups taken since the last pass; the time of the next one; the
  // threads with a recent own send; how discovery, the token and the
  // recent-conversations check come out; the thread rows, if they can be
  // read; and each row's poll, should it be made.
  datatype Round = Round(wakeups: seq<string>, now: int, active: set<string>, longPollUp: bool,
                         discovery: Option<Error>, token: Option<Error>, check: CheckAnswer,
                         rows: Option<seq<Row>>, results: seq<PollResult>)

  ghost predicate IsRound(r: Round) {
    r.now >= 0 && (r.rows.Some? ==> |r.results| == |r.rows.value| && DistinctThreads(r.rows.value))
  }

  // ----- what a run must keep to -----

  // A pass made: when, until when polling had been paused and is after it, the
  // threads polled, and whether discovery ran.
  datatype Pass = Pass(now: int, before: int, after: int, polled: seq<string>, discovered: bool)

  // No pass, so no poll, comes before the end of a pause; pauses only get
  // longer, by at most ten minutes from when they are ordered.
  ghost predicate KeepsPauses(passes: seq<Pass>) {
    && (forall i | 0 <= i < |passes| ::
          && passes[i].before <= passes[i].now && passes[i].before <= passes[i].after
          && (passes[i].after == passes[i].before || passes[i].after <= passes[i].now + THROTTLE_MAX))
    && (forall i, j | 0 <= i < j < |passes| :: passes[i].after <= passes[j].before)
  }

  ghost predicate SpacesDiscovery(passes: seq<Pass>) {
    forall i, j | 0 <= i < j < |passes| && passes[i].discovered && passes[j].discovered ::
      passes[i].now + DISCOVERY_MIN_GAP <= passes[j].now
  }

  // The passes made by `clock`, given until when polling is paused and when
  // discovery last ran.
  ghost predicate History(passes: seq<Pass>, until: int, last: Option<int>, clock: int) {
    && KeepsPauses(passes) && SpacesDiscovery(passes)
    && (forall i | 0 <= i < |passes| :: passes[i].after <= until && passes[i].now <= clock)
    && (forall i | 0 <= i < |passes| && passes[i].discovered :: last.Some? && passes[i].now <= last.value)
  }

  lemma OneMorePass(passes: seq<Pass>, until: int, last: Option<int>, clock: int, p: Pass, next: Option<int>)
    requires History(passes, until, last, clock) && clock <= p.now && p.before == until <= p.now
    requires until <= p.after && (p.after == until || p.after <= p.now + THROTTLE_MAX)
    requires if p.discovered then next == Some(p.now) && (last.Some? ==> last.value + DISCOVERY_MIN_GAP <= p.now)
             else next == last
    ensures History(passes + [p], p.after, next, p.now)
  {
  }

  // The states a pass works on: those of the threads that the check finds
  // changed are woken.
  function AfterCheck(states: map<string, PollState>, lastSeen: map<string, string>, due: bool, r: Round)
    : map<string, PollState>
  {
    if due && r.token.None? && r.check.Listed?
    then WakeAll(states, LookAll(Check(lastSeen, {}, false), r.check.convs, |lastSeen| > 0).noticed)
    else states
  }

  function Noticed(lastSeen: map<string, string>, r: Round): Check
    requires r.check.Listed?
  {
    LookAll(Check(lastSeen, {}, false), r.check.convs, |lastSeen| > 0)
  }

  // The check finds a conversation changed that no polled thread stands for.
  predicate FindsUnknown(states: map<string, PollState>, lastSeen: map<string, string>, r: Round) {
    r.token.None? && r.check.Listed? && AnyUnknown(states, Noticed(lastSeen, r).noticed)
  }

  function IDs(ids: seq<string>): set<string> {
    set id | id in ids
  }

  function ListedThreads(rows: seq<Row>): set<string> {
    set row | row in rows && row.threadID != "" :: row.threadID
  }

  function OnlyListed(states: map<string, PollState>, rows: seq<Row>): map<string, PollState> {
    map k | k in states && k in ListedThreads(rows) :: states[k]
  }

  // The threads forgotten when `keys` are still to be looked at.
  function Gone(all: set<string>, keys: set<string>, listed: set<string>): set<string> {
    all - keys - listed
  }

  lemma NothingGone(states: map<string, PollState>, c: CursorSaving.Cursors, listed: set<string>)
    ensures states == states - Gone(states.Keys, states.Keys, listed)
    ensures c == c.ForgetAll(Gone(states.Keys, states.Keys, listed))
  {
  }

  lemma OneMoreGone(states: map<string, PollState>, c: CursorSaving.Cursors, keys: set<string>, listed: set<string>, k: string)
    requires k in keys && keys <= states.Keys
    ensures var gone, next := Gone(states.Keys, keys, listed), Gone(states.Keys, keys - {k}, listed);
            && states - next == states - gone - ({k} - listed)
            && c.ForgetAll(next) == c.ForgetAll(gone).ForgetAll({k} - listed)
  {
    var gone, next := Gone(states.Keys, keys, listed), Gone(states.Keys, keys - {k}, listed);
    assert next == gone + ({k} - listed);
  }

  lemma RestIsListed(states: map<string, PollState>, rows: seq<Row>)
    ensures states - Gone(states.Keys, {}, ListedThreads(rows)) == OnlyListed(states, rows)
  {
  }

  // Forgetting threads that are gone makes no listed thread due or not.
  lemma {:induction false} ForgettingKeepsDue(states: map<string, PollState>, all: seq<Row>, rows: seq<Row>, now: int)
    requires forall row | row in rows :: row in all
    ensures DueThreads(OnlyListed(states, all), rows, now) == DueThreads(states, rows, now)
  {
    if rows != [] {
      var init, last := rows[..|rows| - 1], rows[|rows| - 1];
      assert last in rows && forall row | row in init :: row in rows;
      ForgettingKeepsDue(states, all, init, now);
    }
  }

  // What a pass that went through leaves: the due threads polled, each once,
  // and a wake time by which nothing is overdue.
  ghost predicate PassedThrough(t: Turn, end: Turn, rows: seq<Row>, now: int) {
    && end.polled == DueThreads(t.states, rows, now)
    && end.states.Keys == ListedThreads(rows)
    && end.throttledUntil == t.throttledUntil && end.nextWake <= t.nextWake
    && forall id | id in end.states :: end.nextWake <= end.states[id].nextPoll
  }

  lemma {:induction false} TurnsKeys(t: Turn, rows: seq<Row>, results: seq<PollResult>, watch: Watch, now: int)
    requires |results| == |rows|
    ensures var end := TakeTurns(t, rows, results, watch, now);
            && t.states.Keys <= end.states.Keys <= t.states.Keys + ListedThreads(rows)
            && (!end.paused ==> ListedThreads(rows) <= end.states.Keys)
  {
    if rows != [] {
      var n := |rows| - 1;
      TurnsKeys(t, rows[..n], results[..n], watch, now);
      assert rows == rows[..n] + [rows[n]];
      assert ListedThreads(rows) == ListedThreads(rows[..n]) + if rows[n].threadID == "" then {} else {rows[n].threadID};
    }
  }

  // A pass over the listed threads goes through, or a poll of it is rate-limited.
  lemma PassOutcome(t: Turn, rows: seq<Row>, results: seq<PollResult>, watch: Watch, now: int) returns (k: nat)
    requires |results| == |rows| && DistinctThreads(rows) && !t.paused && t.polled == []
    requires t.nextWake <= now + POLL_LOOP_MAX_SLEEP && t.states.Keys <= ListedThreads(rows)
    ensures var end := TakeTurns(t, rows, results, watch, now);
            && t.throttledUntil <= end.throttledUntil
            && (end.throttledUntil == t.throttledUntil || end.throttledUntil <= now + THROTTLE_MAX)
            && if end.paused then PausedAt(t, end, rows, results, now, k) && now < end.throttledUntil == end.nextWake
               else PassedThrough(t, end, rows, now)
  {
    var end := TakeTurns(t, rows, results, watch, now);
    TurnsThrottle(t, rows, results, watch, now);
    if end.paused {
      k := TurnsPause(t, rows, results, watch, now);
    } else {
      k := 0;
      TurnsPollTheDue(t, rows, results, watch, now);
      TurnsWakeInTime(t, rows, results, watch, now);
      TurnsKeys(t, rows, results, watch, now);
      assert [] + DueThreads(t.states, rows, now) == DueThreads(t.states, rows, now);
    }
  }

  // How a pass ends: without a pass over the listed threads, because polling
  // is paused or the rows cannot be read; or with one, before and after, that
  // went through or was cut short.
  ghost predicate Ended(r: Round, begun: Loop, listed: Option<(Turn, Turn)>, e: PassEnd)
    requires IsRound(r)
  {
    var until := e.loop.throttledUntil;
    match listed
    case None =>
      && until == begun.throttledUntil && e.polled == []
      && if r.now < until then e.wake == until && !e.failed else e.failed && r.rows.None?
    case Some((start, end)) =>
      && begun.throttledUntil <= r.now && r.rows.Some? && !e.failed
      && start == Turn(OnlyListed(begun.states, r.rows.value), begun.throttledUntil, begun.WakeBy(r.now), [], false)
      && end == TakeTurns(start, r.rows.value, r.results, begun.Watching(r), r.now)
      && end.states == e.loop.states && end.polled == e.polled && end.nextWake == e.wake && end.throttledUntil == until
      && if until <= r.now then PassedThrough(start, end, r.rows.value, r.now)
         else e.wake == until && exists k :: PausedAt(start, end, r.rows.value, r.results, r.now, k)
  }

  // ----- a pass, as a function of the loop's state -----

  // What the loop keeps between passes.
  datatype Loop = Loop(states: map<string, PollState>, nextDiscovery: int, lastDiscovery: Option<int>, nextTeamSync: int,
                       nextActivity: int, activityFailures: nat, nextSweep: int, throttledUntil: int,
                       lastSeen: map<string, string>, activityUp: bool, cursors: CursorSaving.Cursors)
  {
    // When the next pass comes at the latest, before the threads are looked at.
    function WakeBy(now: int): int {
      Min(Min(now + POLL_LOOP_MAX_SLEEP, nextActivity), nextDiscovery)
    }

    function Watching(r: Round): Watch {
      Watch(r.active, activityUp || r.longPollUp)
    }

    function DiscoveryInterval(r: Round): int {
      if activityUp || r.longPollUp then DISCOVERY_INTERVAL_WATCHED else THREAD_DISCOVERY_INTERVAL
    }

    // Long enough since the last discovery for another.
    predicate GapPast(now: int) {
      lastDiscovery.None? || now - lastDiscovery.value >= DISCOVERY_MIN_GAP
    }

    // The next discovery waits for that gap.
    predicate DiscoverySpaced() {
      lastDiscovery.Some? ==> lastDiscovery.value + DISCOVERY_MIN_GAP <= nextDiscovery
    }
  }

  // Until when polling is paused once err is known.
  function Throttled(until: int, err: Option<Error>, now: int): int {
    var pause := TeamsThrottle(err);
    if pause.Some? then Later(now + pause.value, until) else until
  }

  // A 429 pauses for as long as Teams says, unless a longer pause is on.
  lemma ThrottledExactly(until: int, err: Option<Error>, now: int)
    ensures TeamsThrottle(err).None? ==> Throttled(until, err, now) == until
    ensures TeamsThrottle(err).Some? ==>
              var paused := Throttled(until, err, now);
              paused >= until && paused >= now + TeamsThrottle(err).value && paused in {until, now + TeamsThrottle(err).value}
  {
  }

  function AfterDiscovery(l: Loop, r: Round): Loop {
    if r.now < l.nextDiscovery then l
    else l.(throttledUntil := Throttled(l.throttledUntil, r.discovery, r.now), lastDiscovery := Some(r.now),
            nextDiscovery := r.now + l.DiscoveryInterval(r))
  }

  function AfterTeamSync(l: Loop, r: Round): Loop {
    if r.now < l.nextTeamSync then l else l.(nextTeamSync := r.now + TEAM_SYNC_INTERVAL)
  }

  function CheckError(r: Round): Option<Error> {
    if r.token.Some? then r.token
    else match r.check
      case CheckFailed(err) => Some(err)
      case Listed(_) => None
  }

  // What the check itself does: wakes threads, keeps what it saw, and brings
  // discovery forward for an unknown conversation.
  function AfterLook(l: Loop, r: Round): Loop {
    l.(states := AfterCheck(l.states, l.lastSeen, true, r),
       lastSeen := if CheckError(r).None? then Noticed(l.lastSeen, r).lastSeen else l.lastSeen,
       activityUp := if r.token.Some? then l.activityUp else r.check.Listed? && Noticed(l.lastSeen, r).watched,
       nextDiscovery := if FindsUnknown(l.states, l.lastSeen, r) && l.GapPast(r.now) then r.now else l.nextDiscovery)
  }

  function AfterActivityCheck(l: Loop, r: Round): Loop {
    if r.now < l.nextActivity then l
    else
      var err := CheckError(r);
      var failures := if err.None? then 0 else l.activityFailures + 1;
      AfterLook(l, r).(throttledUntil := Throttled(l.throttledUntil, err, r.now),
                       activityFailures := failures, nextActivity := r.now + ActivityRetryDelay(failures))
  }

  // Discovery, the team sync and the recent-conversations check, where due.
  function Begun(l: Loop, r: Round): Loop {
    AfterActivityCheck(AfterTeamSync(AfterDiscovery(l, r), r), r)
  }

  datatype PassEnd = PassEnd(loop: Loop, wake: int, polled: seq<string>, failed: bool)

  // The pass over the listed threads, unless polling is paused.
  function Finished(l: Loop, r: Round): PassEnd
    requires r.rows.Some? ==> |r.results| == |r.rows.value|
  {
    if r.now < l.throttledUntil then PassEnd(l, l.throttledUntil, [], false)
    else
      var swept := if r.now < l.nextSweep then l else l.(nextSweep := r.now + CACHE_SWEEP_INTERVAL);
      if r.rows.None? then PassEnd(swept, l.WakeBy(r.now), [], true)
      else
        var rows := r.rows.value;
        var end := TakeTurns(Turn(OnlyListed(l.states, rows), l.throttledUntil, l.WakeBy(r.now), [], false),
                             rows, r.results, l.Watching(r), r.now);
        PassEnd(swept.(states := end.states, throttledUntil := end.throttledUntil,
                       cursors := l.cursors.ForgetAll(l.states.Keys - ListedThreads(rows))),
                end.nextWake, end.polled, false)
  }

  function MakePass(l: Loop, r: Round): PassEnd
    requires r.rows.Some? ==> |r.results| == |r.rows.value|
  {
    Finished(Begun(l, r), r)
  }

  // The pass as it is remembered.
  function PassMade(l: Loop, r: Round): Pass
    requires r.rows.Some? ==> |r.results| == |r.rows.value|
  {
    var e := MakePass(l, r);
    Pass(r.now, l.throttledUntil, e.loop.throttledUntil, e.polled, l.nextDiscovery <= r.now)
  }

  // A pass begins without shortening the pause or the gap between discoveries,
  // and sets the next team sync and check to come after it.
  lemma BeginsWell(l: Loop, r: Round)
    requires l.DiscoverySpaced()
    ensures var b := Begun(l, r);
            && b.DiscoverySpaced() && r.now < b.nextActivity && r.now < b.nextTeamSync
            && b.states == AfterCheck(l.states, l.lastSeen, l.nextActivity <= r.now, r)
            && b.lastDiscovery == (if l.nextDiscovery <= r.now then Some(r.now) else l.lastDiscovery)
            && l.throttledUntil <= b.throttledUntil
            && (b.throttledUntil == l.throttledUntil || b.throttledUntil <= r.now + THROTTLE_MAX)
  {
    SyncedWell(l, r);
    CheckedWell(AfterTeamSync(AfterDiscovery(l, r), r), r);
  }

  lemma SyncedWell(l: Loop, r: Round)
    requires l.DiscoverySpaced()
    ensures var b := AfterTeamSync(AfterDiscovery(l, r), r);
            && b.DiscoverySpaced() && r.now < b.nextTeamSync
            && b.states == l.states && b.lastSeen == l.lastSeen && b.nextActivity == l.nextActivity
            && b.lastDiscovery == (if l.nextDiscovery <= r.now then Some(r.now) else l.lastDiscovery)
            && l.throttledUntil <= b.throttledUntil
            && (b.throttledUntil == l.throttledUntil || b.throttledUntil <= r.now + THROTTLE_MAX)
  {
  }

  lemma CheckedWell(l: Loop, r: Round)
    requires l.DiscoverySpaced()
    ensures var b := AfterActivityCheck(l, r);
            && b.DiscoverySpaced() && r.now < b.nextActivity && b.nextTeamSync == l.nextTeamSync
            && b.states == AfterCheck(l.states, l.lastSeen, l.nextActivity <= r.now, r)
            && b.lastDiscovery == l.lastDiscovery
            && l.throttledUntil <= b.throttledUntil
            && (b.throttledUntil == l.throttledUntil || b.throttledUntil <= r.now + THROTTLE_MAX)
  {
    var failures := AfterActivityCheck(l, r).activityFailures;
    ActivityDelayIsExponential(failures);
    Pow2Grows(0, failures);
  }

  // It ends with the due threads polled, once each, and nothing overdue at the
  // wake time, unless polling is or gets paused or the rows cannot be read.
  lemma FinishesWell(l: Loop, r: Round) returns (listed: Option<(Turn, Turn)>)
    requires IsRound(r)
    ensures Ended(r, l, listed, Finished(l, r))
    ensures var until := Finished(l, r).loop.throttledUntil;
            l.throttledUntil <= until && (until == l.throttledUntil || until <= r.now + THROTTLE_MAX)
  {
    if r.now < l.throttledUntil || r.rows.None? {
      return None;
    }
    var rows := r.rows.value;
    var start := Turn(OnlyListed(l.states, rows), l.throttledUntil, l.WakeBy(r.now), [], false);
    var k := PassOutcome(start, rows, r.results, l.Watching(r), r.now);
    return Some((start, TakeTurns(start, rows, r.results, l.Watching(r), r.now)));
  }

  // A pass that went through sleeps until the first of five seconds, the next
  // check, the next discovery and the listed threads' next polls.
  lemma WakesExactly(l: Loop, r: Round)
    requires IsRound(r) && r.rows.Some? && Finished(l, r).loop.throttledUntil <= r.now
    ensures var e := Finished(l, r);
            && e.wake <= r.now + 5 * SECOND && e.wake <= l.nextActivity && e.wake <= l.nextDiscovery
            && (forall id | id in e.loop.states :: e.wake <= e.loop.states[id].nextPoll)
            && (|| e.wake in {r.now + 5 * SECOND, l.nextActivity, l.nextDiscovery}
                || exists id :: id in e.loop.states && e.loop.states[id].nextPoll == e.wake)
  {
    var listed := FinishesWell(l, r);
    var (start, end) := listed.value;
    var _ := PassOutcome(start, r.rows.value, r.results, l.Watching(r), r.now);
    TurnsWakeForSomething(start, r.rows.value, r.results, l.Watching(r), r.now);
    if end.nextWake != start.nextWake {
      var row :| row in r.rows.value && row.threadID in end.states && end.states[row.threadID].nextPoll == end.nextWake;
      assert row.threadID in Finished(l, r).loop.states;
    }
  }

  // A check that is due and gets an answer wakes the threads the list has news
  // of, looks for unknown conversations once the gap is past, and comes again
  // in three seconds.
  lemma CheckActsOnNews(l: Loop, r: Round)
    requires l.nextActivity <= r.now && r.token.None? && r.check.Listed?
    ensures var b, convs := AfterActivityCheck(l, r), r.check.convs;
            && b.states.Keys == l.states.Keys
            && (forall k | k in l.states ::
                  b.states[k] == if HasNews(l.states, l.lastSeen, convs, k)
                                 then l.states[k].(nextPoll := 0, backoff := l.states[k].backoff.(failures := 0, delay := 2 * SECOND))
                                 else l.states[k])
            && b.nextDiscovery == (if (exists i :: 0 <= i < |convs| && IsUnknownNews(l.states, l.lastSeen, convs, i))
                                      && (l.lastDiscovery.Some? ==> l.lastDiscovery.value + 30 * SECOND <= r.now)
                                   then r.now else l.nextDiscovery)
            && (b.activityUp <==> exists i :: 0 <= i < |convs| && convs[i].id != "" && convs[i].newest != "")
            && b.activityFailures == 0 && b.nextActivity == r.now + 3 * SECOND && b.throttledUntil == l.throttledUntil
  {
    CheckIsExact(l.states, l.lastSeen, r.check.convs);
  }

  // One that fails, for want of a token or of an answer, only counts on.
  lemma FailedCheckOnlyCounts(l: Loop, r: Round)
    requires l.nextActivity <= r.now && (r.token.Some? || r.check.CheckFailed?)
    ensures var b := AfterActivityCheck(l, r);
            && b.states == l.states && b.lastSeen == l.lastSeen && b.nextDiscovery == l.nextDiscovery
            && b.activityFailures == l.activityFailures + 1
            && b.nextActivity == r.now + Exponential(3 * SECOND, b.activityFailures, 60 * SECOND)
            && b.activityUp == (r.token.Some? && l.activityUp)
  {
    ActivityDelayIsExponential(l.activityFailures + 1);
  }

  // A round in which Teams rate-limits nothing.
  ghost predicate Unlimited(r: Round) {
    && TeamsThrottle(r.discovery).None? && TeamsThrottle(CheckError(r)).None?
    && forall k | 0 <= k < |r.results| :: TeamsThrottle(r.results[k].err).None?
  }

  // Only a 429 pauses polling.
  lemma OnlyLimitsPause(l: Loop, r: Round)
    requires IsRound(r) && Unlimited(r)
    ensures MakePass(l, r).loop.throttledUntil == l.throttledUntil
  {
    var listed := FinishesWell(Begun(l, r), r);
  }

  // ----- whole runs -----

  // The loop's state agrees with the passes made, and they keep to the rules.
  ghost predicate Ruled(passes: seq<Pass>, l: Loop, clock: int) {
    History(passes, l.throttledUntil, l.lastDiscovery, clock) && l.DiscoverySpaced()
  }

  lemma PassKeepsRules(passes: seq<Pass>, l: Loop, clock: int, r: Round)
    requires Ruled(passes, l, clock) && IsRound(r) && l.throttledUntil <= r.now && clock <= r.now
    ensures Ruled(passes + [PassMade(l, r)], MakePass(l, r).loop, r.now)
  {
    BeginsWell(l, r);
    var _ := FinishesWell(Begun(l, r), r);
    OneMorePass(passes, l.throttledUntil, l.lastDiscovery, clock, PassMade(l, r), MakePass(l, r).loop.lastDiscovery);
  }

  // What a run leaves: the passes made, by which rounds, and whether the last
  // one could not read the rows, which ends the loop.
  datatype Log = Log(loop: Loop, passes: seq<Pass>, made: seq<nat>, failed: bool)

  ghost predicate AreRounds(rounds: seq<Round>) {
    forall i | 0 <= i < |rounds| :: IsRound(rounds[i])
  }

  // Round number i, with the wakeups before it: a pass, unless polling is
  // paused or the loop has ended.
  ghost function OneRound(g: Log, r: Round, i: nat): Log
    requires IsRound(r)
  {
    if g.failed then g
    else
      var woken := g.loop.(states := WakeAll(g.loop.states, IDs(r.wakeups)));
      if r.now < woken.throttledUntil then g.(loop := woken)
      else
        var e := MakePass(woken, r);
        Log(e.loop, g.passes + [PassMade(woken, r)], g.made + [i], e.failed)
  }

  lemma RoundWoken(g: Log, r: Round, i: nat, woken: Loop)
    requires IsRound(r) && !g.failed && woken == g.loop.(states := WakeAll(g.loop.states, IDs(r.wakeups)))
    ensures var next := OneRound(g, r, i);
            if r.now < woken.throttledUntil then next == g.(loop := woken)
            else next == Log(MakePass(woken, r).loop, g.passes + [PassMade(woken, r)], g.made + [i], MakePass(woken, r).failed)
  {
  }

  ghost function RunAll(l: Loop, rounds: seq<Round>): Log
    requires AreRounds(rounds)
  {
    if rounds == [] then Log(l, [], [], false)
    else
      var n := |rounds| - 1;
      OneRound(RunAll(l, rounds[..n]), rounds[n], n)
  }

  // Until when the passes before round i have paused polling.
  function PausedUntil(until: int, passes: seq<Pass>, made: seq<nat>, i: nat): int
    requires |passes| == |made|
  {
    if made == [] then until
    else
      var n := |made| - 1;
      if made[n] < i then passes[n].after else PausedUntil(until, passes[..n], made[..n], i)
  }

  // Which rounds make a pass: exactly those at which the pause in force is
  // over, until the rows could not be read.
  ghost predicate Accounts(until: int, rounds: seq<Round>, g: Log) {
    && |g.passes| == |g.made|
    && (forall k | 0 <= k < |g.made| :: g.made[k] < |rounds| && g.passes[k].now == rounds[g.made[k]].now)
    && (forall j, k | 0 <= j < k < |g.made| :: g.made[j] < g.made[k])
    && (g.failed ==> g.made != [] && rounds[g.made[|g.made| - 1]].rows.None?)
    && forall i | 0 <= i < |rounds| ::
         i in g.made <==> PausedUntil(until, g.passes, g.made, i) <= rounds[i].now
                          && !(g.failed && g.made[|g.made| - 1] < i)
  }

  // The pause in force is the last pass's.
  lemma {:induction false} RunPause(l: Loop, rounds: seq<Round>)
    requires AreRounds(rounds)
    ensures var g := RunAll(l, rounds);
            && |g.passes| == |g.made|
            && (forall k | 0 <= k < |g.made| :: g.made[k] < |rounds|)
            && g.loop.throttledUntil == PausedUntil(l.throttledUntil, g.passes, g.made, |rounds|)
  {
    if rounds != [] {
      RunPause(l, rounds[..|rounds| - 1]);
    }
  }

  lemma PausedUntilPrefix(until: int, passes: seq<Pass>, made: seq<nat>, p: Pass, n: nat, i: nat)
    requires |passes| == |made|
    ensures PausedUntil(until, passes + [p], made + [n], i) == if n < i then p.after else PausedUntil(until, passes, made, i)
  {
    assert (passes + [p])[..|made|] == passes && (made + [n])[..|made|] == made;
  }

  lemma PassAccounts(until: int, rounds: seq<Round>, r: Round, g: Log, next: Log, p: Pass)
    requires Accounts(until, rounds, g) && !g.failed && p.now == r.now
    requires next.passes == g.passes + [p] && next.made == g.made + [|rounds|] && (next.failed ==> r.rows.None?)
    requires PausedUntil(until, g.passes, g.made, |rounds|) <= r.now
    ensures Accounts(until, rounds + [r], next)
  {
    var n, all := |rounds|, rounds + [r];
    assert forall i | 0 <= i < n :: all[i] == rounds[i];
    forall i | 0 <= i < |all|
      ensures i in next.made <==> PausedUntil(until, next.passes, next.made, i) <= all[i].now
    {
      PausedUntilPrefix(until, g.passes, g.made, p, n, i);
      assert i in next.made <==> i in g.made || i == n;
    }
  }

  lemma NoPassAccounts(until: int, rounds: seq<Round>, r: Round, g: Log, next: Log)
    requires Accounts(until, rounds, g)
    requires next.passes == g.passes && next.made == g.made && next.failed == g.failed
    requires g.failed || r.now < PausedUntil(until, g.passes, g.made, |rounds|)
    ensures Accounts(until, rounds + [r], next)
  {
    var n, all := |rounds|, rounds + [r];
    assert forall i | 0 <= i < n :: all[i] == rounds[i];
    assert n !in g.made;
  }

  lemma RoundAccounts(until: int, rounds: seq<Round>, r: Round, g: Log)
    requires IsRound(r) && Accounts(until, rounds, g)
    requires g.loop.throttledUntil == PausedUntil(until, g.passes, g.made, |rounds|)
    ensures Accounts(until, rounds + [r], OneRound(g, r, |rounds|))
  {
    var next := OneRound(g, r, |rounds|);
    var woken := g.loop.(states := WakeAll(g.loop.states, IDs(r.wakeups)));
    if g.failed || r.now < woken.throttledUntil {
      NoPassAccounts(until, rounds, r, g, next);
    } else {
      var _ := FinishesWell(Begun(woken, r), r);
      PassAccounts(until, rounds, r, g, next, PassMade(woken, r));
    }
  }

  lemma RunAllAppend(l: Loop, rounds: seq<Round>, r: Round)
    requires AreRounds(rounds) && IsRound(r)
    ensures AreRounds(rounds + [r]) && RunAll(l, rounds + [r]) == OneRound(RunAll(l, rounds), r, |rounds|)
  {
    assert (rounds + [r])[..|rounds|] == rounds;
  }

  lemma AccountsAppend(l: Loop, rounds: seq<Round>, r: Round)
    requires AreRounds(rounds) && IsRound(r) && AreRounds(rounds + [r])
    ensures Accounts(l.throttledUntil, rounds, RunAll(l, rounds)) ==>
              Accounts(l.throttledUntil, rounds + [r], RunAll(l, rounds + [r]))
  {
    if Accounts(l.throttledUntil, rounds, RunAll(l, rounds)) {
      RunPause(l, rounds);
      RunAllAppend(l, rounds, r);
      RoundAccounts(l.throttledUntil, rounds, r, RunAll(l, rounds));
    }
  }

  lemma {:induction false} RunAccounts(l: Loop, rounds: seq<Round>)
    requires AreRounds(rounds)
    ensures Accounts(l.throttledUntil, rounds, RunAll(l, rounds))
  {
    if rounds != [] {
      var init, last := rounds[..|rounds| - 1], rounds[|rounds| - 1];
      assert rounds == init + [last];
      RunAccounts(l, init);
      AccountsAppend(l, init, last);
    }
  }

  // While Teams rate-limits nothing and the rows can be read, every round
  // makes a pass.
  lemma {:induction false} UnlimitedRunsPassAlways(l: Loop, rounds: seq<Round>)
    requires AreRounds(rounds) && l.DiscoverySpaced()
    requires forall i | 0 <= i < |rounds| :: l.throttledUntil <= rounds[i].now && Unlimited(rounds[i]) && rounds[i].rows.Some?
    ensures var g := RunAll(l, rounds);
            && !g.failed && |g.made| == |rounds| && (forall i | 0 <= i < |rounds| :: g.made[i] == i)
            && g.loop.throttledUntil == l.throttledUntil && g.loop.DiscoverySpaced()
  {
    if rounds != [] {
      var n := |rounds| - 1;
      UnlimitedRunsPassAlways(l, rounds[..n]);
      var g := RunAll(l, rounds[..n]);
      var woken := g.loop.(states := WakeAll(g.loop.states, IDs(rounds[n].wakeups)));
      BeginsWell(woken, rounds[n]);
      OnlyLimitsPause(woken, rounds[n]);
      var _ := FinishesWell(Begun(woken, rounds[n]), rounds[n]);
    }
  }

  lemma FailedStays(l: Loop, rounds: seq<Round>, n: nat)
    requires AreRounds(rounds) && n <= |rounds| && RunAll(l, rounds[..n]).failed
    ensures RunAll(l, rounds) == RunAll(l, rounds[..n])
    decreases |rounds|
  {
    if n < |rounds| {
      assert rounds[..|rounds| - 1][..n] == rounds[..n];
      FailedStays(l, rounds[..|rounds| - 1], n);
    } else {
      assert rounds[..n] == rounds;
    }
  }

  class Poller {
    var states: map<string, PollState>
    var nextDiscovery: int
    var lastDiscovery: Option<int>
    var nextTeamSync: int
    var nextActivity: int
    var activityFailures: nat
    var nextSweep: int
    var throttledUntil: int
    var lastSeen: map<string, string>
    var activityUp: bool
    const cursors: CursorSaving.ThreadCursors
    ghost var passes: seq<Pass>

    ghost var clock: int

    // The schedule agrees with the passes made, and they keep to the rules.
    ghost predicate Valid()
      reads this, cursors
    {
      Ruled(passes, Value(), clock)
    }

    ghost function Value(): Loop
      reads this, cursors
    {
      Loop(states, nextDiscovery, lastDiscovery, nextTeamSync, nextActivity, activityFailures, nextSweep, throttledUntil,
           lastSeen, activityUp, cursors.Value())
    }

    constructor (rows: seq<Row>, now: int, discovered: bool, watched: bool, cursors: CursorSaving.ThreadCursors)
      ensures this.cursors == cursors
      ensures Valid() && passes == [] && clock == now && throttledUntil == 0
      ensures forall id :: id in states <==> id != "" && exists row :: row in rows && row.threadID == id
      ensures forall id | id in states :: states[id].nextPoll == now && states[id].backoff == BackoffState(0, 2 * SECOND, 0)
      ensures nextActivity == nextSweep == activityFailures == 0 && lastDiscovery == None && lastSeen == map[] && !activityUp
      ensures nextDiscovery == if discovered then now + if watched then 300 * SECOND else 30 * SECOND else 0
      ensures nextTeamSync == if discovered then now + 3600 * SECOND else 0
    {
      states := map id | id in ListedThreads(rows) ::
                PollState(now, "", BackoffState(0, POLL_BASE_DELAY, 0), false);
      nextDiscovery := if !discovered then 0 else now + if watched then DISCOVERY_INTERVAL_WATCHED else THREAD_DISCOVERY_INTERVAL;
      nextTeamSync := if discovered then now + TEAM_SYNC_INTERVAL else 0;
      lastDiscovery, nextActivity, activityFailures, nextSweep, throttledUntil := None, 0, 0, 0, 0;
      lastSeen, activityUp, passes, clock := map[], false, [], now;
      this.cursors := cursors;
    }

    method Throttle(err: Option<Error>, now: int) returns (limited: bool)
      modifies this`throttledUntil
      ensures limited <==> TeamsThrottle(err).Some?
      ensures throttledUntil == Throttled(old(throttledUntil), err, now)
    {
      var pause := TeamsThrottle(err);
      if pause.None? {
        return false;
      }
      if now + pause.value > throttledUntil {
        throttledUntil := now + pause.value;
      }
      return true;
    }

    method RunDiscovery(r: Round)
      modifies this`throttledUntil, this`lastDiscovery, this`nextDiscovery
      ensures old(nextDiscovery) <= r.now ==> Value() == AfterDiscovery(old(Value()), r)
      ensures lastDiscovery == Some(r.now) && Value().DiscoverySpaced()
      ensures nextDiscovery ==
              r.now + if activityUp || r.longPollUp then DISCOVERY_INTERVAL_WATCHED else THREAD_DISCOVERY_INTERVAL
      ensures throttledUntil == Throttled(old(throttledUntil), r.discovery, r.now)
    {
      var _ := Throttle(r.discovery, r.now);
      lastDiscovery := Some(r.now);
      nextDiscovery := r.now + if activityUp || r.longPollUp then DISCOVERY_INTERVAL_WATCHED else THREAD_DISCOVERY_INTERVAL;
    }

    method RunActivityCheck(r: Round)
      modifies this`states, this`lastSeen, this`activityUp, this`nextDiscovery, this`throttledUntil,
               this`activityFailures, this`nextActivity
      ensures old(nextActivity) <= r.now ==> Value() == AfterActivityCheck(old(Value()), r)
      ensures states == AfterCheck(old(states), old(lastSeen), true, r)
      ensures old(Value().DiscoverySpaced()) ==> Value().DiscoverySpaced()
      ensures r.token.None? ==>
                if r.check.Listed? then
                  var c := Noticed(old(lastSeen), r); lastSeen == c.lastSeen && activityUp == c.watched
                else lastSeen == old(lastSeen) && !activityUp
      ensures r.token.Some? ==> lastSeen == old(lastSeen) && activityUp == old(activityUp)
      ensures nextDiscovery ==
              if FindsUnknown(old(states), old(lastSeen), r)
                 && (lastDiscovery.None? || r.now - lastDiscovery.value >= DISCOVERY_MIN_GAP)
              then r.now else old(nextDiscovery)
      ensures throttledUntil == Throttled(old(throttledUntil), CheckError(r), r.now)
      ensures nextActivity == r.now + ActivityRetryDelay(activityFailures)
      ensures activityFailures == if r.token.None? && r.check.Listed? then 0 else old(activityFailures) + 1
    {
      var err := LookForActivity(r);
      if err.Some? {
        var _ := Throttle(err, r.now);
        activityFailures := activityFailures + 1;
      } else {
        activityFailures := 0;
      }
      nextActivity := r.now + ActivityRetryDelay(activityFailures);
    }

    // The check itself, with a fresh token.
    method LookForActivity(r: Round) returns (err: Option<Error>)
      modifies this`states, this`lastSeen, this`activityUp, this`nextDiscovery
      ensures err == CheckError(r) && Value() == AfterLook(old(Value()), r)
    {
      err := r.token;
      if err.None? {
        match r.check
        case CheckFailed(e) =>
          activityUp := false;
          err := Some(e);
        case Listed(convs) =>
          var unknown;
          states, lastSeen, activityUp, unknown := CheckActivity(states, lastSeen, convs);
          if unknown && (lastDiscovery.None? || r.now - lastDiscovery.value >= DISCOVERY_MIN_GAP) {
            nextDiscovery := r.now;
          }
      }
    }

    method ForgetRemovedThreads(rows: seq<Row>)
      modifies this`states, cursors
      ensures states == OnlyListed(old(states), rows)
      ensures forall k :: k in states <==> k in old(states) && k != "" && exists row :: row in rows && row.threadID == k
      ensures forall k | k in states :: states[k] == old(states)[k]
      ensures cursors.Value() == old(cursors.Value()).ForgetAll(old(states).Keys - ListedThreads(rows))
    {
      var keys, listed := states.Keys, ListedThreads(rows);
      ghost var all, known := states, cursors.Value();
      NothingGone(all, known, listed);
      while keys != {}
        invariant keys <= all.Keys
        invariant states == all - Gone(all.Keys, keys, listed)
        invariant cursors.Value() == known.ForgetAll(Gone(all.Keys, keys, listed))
        decreases keys
      {
        var k :| k in keys;
        OneMoreGone(all, known, keys, listed, k);
        keys := keys - {k};
        ForgetUnlisted(k, listed);
      }
      RestIsListed(all, rows);
    }

    method ForgetUnlisted(threadID: string, listed: set<string>)
      modifies this`states, cursors
      ensures states == old(states) - ({threadID} - listed)
      ensures cursors.Value() == old(cursors.Value()).ForgetAll({threadID} - listed)
    {
      if threadID !in listed {
        states := states - {threadID};
        cursors.Forget(threadID);
      }
    }

    method PollThreads(rows: seq<Row>, results: seq<PollResult>, watch: Watch, now: int, wakeBy: int)
      returns (wake: int, polled: seq<string>, paused: bool)
      requires |results| == |rows|
      modifies this`states, this`throttledUntil
      ensures Turn(states, throttledUntil, wake, polled, paused) ==
              TakeTurns(Turn(old(states), old(throttledUntil), wakeBy, [], false), rows, results, watch, now)
    {
      ghost var start := Turn(states, throttledUntil, wakeBy, [], false);
      wake, polled, paused := wakeBy, [], false;
      var i := 0;
      while i < |rows|
        invariant i <= |rows| && !paused
        invariant Turn(states, throttledUntil, wake, polled, false) == TakeTurns(start, rows[..i], results[..i], watch, now)
      {
        assert rows[..i + 1][..i] == rows[..i] && results[..i + 1][..i] == results[..i];
        wake, polled, paused := PollOne(rows[i], results[i], watch, now, wake, polled);
        i := i + 1;
        if paused {
          PausedStays(start, rows, results, watch, now, i);
          return;
        }
      }
      assert rows[..i] == rows && results[..i] == results;
    }

    // The body of that loop.
    method PollOne(row: Row, result: PollResult, watch: Watch, now: int, wakeBy: int, before: seq<string>)
      returns (wake: int, polled: seq<string>, paused: bool)
      modifies this`states, this`throttledUntil
      ensures Turn(states, throttledUntil, wake, polled, paused) ==
              TakeTurn(Turn(old(states), old(throttledUntil), wakeBy, before, false), row, result, watch, now)
    {
      wake, polled, paused := wakeBy, before, false;
      if row.threadID == "" {
        return;
      }
      var ps := PollState(now, "", BackoffState(0, POLL_BASE_DELAY, 0), false);
      if row.threadID in states {
        ps := states[row.threadID];
      }
      ps := ps.(conversation := row.conversation);
      states := states[row.threadID := ps];
      if now < ps.nextPoll {
        if ps.nextPoll < wake {
          wake := ps.nextPoll;
        }
        return;
      }
      polled := polled + [row.threadID];
      var limited := Throttle(result.err, now);
      if limited {
        return throttledUntil, polled, true;
      }
      if IsThreadGone(result.err) {
        states := states[row.threadID := ps.(gone := true, nextPoll := now + GONE_THREAD_RECHECK)];
        return;
      }
      ps := ps.(gone := false, backoff := ps.backoff.(idleCap := IdleCapFor(row.threadID, watch)));
      var (b, reason) := ps.backoff.Outcome(result.ingested, result.err);
      if reason == Idle && b.idleCap == POLL_BACKSTOP_IDLE_CAP {
        b := b.(delay := POLL_BACKSTOP_IDLE_CAP);
      }
      ps := ps.(backoff := b, nextPoll := now + b.delay);
      states := states[row.threadID := ps];
      if ps.nextPoll < wake {
        wake := ps.nextPoll;
      }
    }

    // Discovery, the team sync and the recent-conversations check, where due.
    method BeginPass(r: Round) returns (ghost discovered: bool)
      modifies this`states, this`lastSeen, this`activityUp, this`nextDiscovery, this`throttledUntil,
               this`activityFailures, this`nextActivity, this`lastDiscovery, this`nextTeamSync
      ensures Value() == Begun(old(Value()), r)
      ensures nextTeamSync == if old(nextTeamSync) <= r.now then r.now + TEAM_SYNC_INTERVAL else old(nextTeamSync)
      ensures r.now < old(nextActivity) ==> nextActivity == old(nextActivity) && states == old(states)
      ensures discovered <==> old(nextDiscovery) <= r.now
    {
      discovered := r.now >= nextDiscovery;
      if r.now >= nextDiscovery {
        RunDiscovery(r);
      }
      if r.now >= nextTeamSync {
        nextTeamSync := r.now + TEAM_SYNC_INTERVAL;
      }
      if r.now >= nextActivity {
        RunActivityCheck(r);
      }
    }

    // The pass over the listed threads, unless polling is paused.
    method FinishPass(r: Round) returns (wake: int, failed: bool, ghost polled: seq<string>)
      requires IsRound(r)
      modifies this`states, this`throttledUntil, this`nextSweep, cursors
      ensures PassEnd(Value(), wake, polled, failed) == Finished(old(Value()), r)
      ensures nextSweep == if old(throttledUntil) <= r.now && old(nextSweep) <= r.now
                           then r.now + CACHE_SWEEP_INTERVAL else old(nextSweep)
    {
      polled, failed := [], false;
      if r.now < throttledUntil {
        wake := throttledUntil;
        return;
      }
      wake := Min(Min(r.now + POLL_LOOP_MAX_SLEEP, nextActivity), nextDiscovery);
      if r.now >= nextSweep {
        nextSweep := r.now + CACHE_SWEEP_INTERVAL;
      }
      if r.rows.None? {
        failed := true;
        return;
      }
      ForgetRemovedThreads(r.rows.value);
      var watch := Watch(r.active, activityUp || r.longPollUp);
      var paused;
      wake, polled, paused := PollThreads(r.rows.value, r.results, watch, r.now, wake);
    }

    // Whatever is due at r.now; returns when the loop should wake next.
    method PollPass(r: Round) returns (wake: int, failed: bool, ghost listed: Option<(Turn, Turn)>)
      requires Valid() && IsRound(r) && throttledUntil <= r.now && clock <= r.now
      modifies this, cursors
      ensures Valid() && clock == r.now
      ensures passes == old(passes) + [PassMade(old(Value()), r)]
      ensures var p := passes[|old(passes)|];
              && p.now == r.now && p.before == old(throttledUntil) && p.after == throttledUntil
              && (p.discovered <==> old(nextDiscovery) <= r.now)
      ensures var e := MakePass(old(Value()), r);
              && PassEnd(Value(), wake, passes[|old(passes)|].polled, failed) == e
              && Ended(r, Begun(old(Value()), r), listed, e)
    {
      ghost var l, made := Value(), passes;
      PassKeepsRules(passes, l, clock, r);
      var _ := BeginPass(r);
      ghost var polled;
      wake, failed, polled := FinishPass(r);
      listed := FinishesWell(Begun(l, r), r);
      passes, clock := made + [PassMade(l, r)], r.now;
    }

    // The loop, over the rounds the outside world makes; it ends early when
    // the rows cannot be read. `made` are the rounds that made a pass.
    method PollDueThreads(rounds: seq<Round>) returns (ghost made: seq<nat>)
      requires Valid() && (forall i | 0 <= i < |rounds| :: IsRound(rounds[i]) && clock <= rounds[i].now)
      requires forall i, j | 0 <= i < j < |rounds| :: rounds[i].now <= rounds[j].now
      modifies this, cursors
      ensures KeepsPauses(passes) && SpacesDiscovery(passes)
      ensures |old(passes)| <= |passes| && passes[..|old(passes)|] == old(passes)
      ensures var g := RunAll(old(Value()), rounds);
              && Value() == g.loop && passes[|old(passes)|..] == g.passes && made == g.made
              && Accounts(old(throttledUntil), rounds, g)
    {
      ghost var l, was, g := Value(), passes, RunAll(Value(), []);
      made := [];
      var i := 0;
      assert rounds[..0] == [];
      while i < |rounds|
        invariant i <= |rounds| && Valid() && forall j | i <= j < |rounds| :: clock <= rounds[j].now
        invariant g == RunAll(l, rounds[..i]) && !g.failed
        invariant Value() == g.loop && passes == was + g.passes && made == g.made
      {
        assert rounds[..i + 1][..i] == rounds[..i];
        var failed;
        failed, g := HandleRound(rounds[i], i, g, was);
        made := g.made;
        i := i + 1;
        if failed {
          FailedStays(l, rounds, i);
          RunAccounts(l, rounds);
          return;
        }
      }
      assert rounds[..i] == rounds;
      RunAccounts(l, rounds);
    }

    // The wakeups, and a pass unless polling is paused.
    method HandleRound(r: Round, ghost i: nat, ghost g: Log, ghost was: seq<Pass>) returns (failed: bool, ghost next: Log)
      requires Valid() && IsRound(r) && clock <= r.now
      requires !g.failed && Value() == g.loop && passes == was + g.passes
      modifies this, cursors
      ensures Valid() && clock <= r.now
      ensures next == OneRound(g, r, i) && failed == next.failed && Value() == next.loop && passes == was + next.passes
    {
      next := OneRound(g, r, i);
      failed := false;
      ghost var l := Value();
      TakeWakeups(r.wakeups);
      assert Value() == l.(states := WakeAll(l.states, IDs(r.wakeups)));
      RoundWoken(g, r, i, Value());
      if r.now >= throttledUntil {
        var wake;
        ghost var listed;
        wake, failed, listed := PollPass(r);
      }
    }

    // Every queued wakeup, before the next pass.
    method TakeWakeups(wakeups: seq<string>)
      modifies this`states
      ensures states == WakeAll(old(states), IDs(wakeups))
    {
      var i := 0;
      assert WakeAll(states, {}) == states;
      while i < |wakeups|
        invariant i <= |wakeups| && states == WakeAll(old(states), IDs(wakeups[..i]))
      {
        WakeOneMore(old(states), IDs(wakeups[..i]), wakeups[i]);
        assert IDs(wakeups[..i + 1]) == IDs(wakeups[..i]) + {wakeups[i]};
        var matched;
        states, matched := ApplyWakeup(states, wakeups[i]);
        i := i + 1;
      }
      assert wakeups[..|wakeups|] == wakeups;
    }
  }
}
