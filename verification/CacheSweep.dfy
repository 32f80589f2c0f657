/** The client's dedup and pacing maps, and the sweeps that expire their entries. */
module CacheSweep {
  import opened Text

  // Times and windows are in milliseconds.
  const TYPING_DEDUP_WINDOW := 3_000
  const THREAD_ACTIVE_WINDOW := 30 * 60_000
  const RECEIPT_IDLE_POLL_INTERVAL := 2 * 60_000
  const NAME_LOOKUP_MISS_TTL := 6 * 3_600_000
  // reactionStateTTL and chatInfoTTL
  const SIGNATURE_TTL := 12 * 3_600_000

  // A signature with the time it was last checked.
  datatype StampedSig = StampedSig(sig: string, at: int)

  // ----- pacing maps: when a thing was last done -----

  function KeptTimes(m: map<string, int>, cutoff: int): map<string, int> {
    map k | k in m && m[k] >= cutoff :: m[k]
  }

  // Whether the map's entry is less than `window` old.
  predicate Within(m: map<string, int>, key: string, now: int, window: int) {
    key in m && now - m[key] < window
  }

  datatype Query =
    | EmitTyping(key: string)
    | NoteActive(threadID: string)
    | ForgetReceiptPoll(threadID: string)
    | IsActive(threadID: string)
    | PollReceipts(threadID: string)
    | RecentMiss(userID: string)
    | RecordMiss(userID: string)

  datatype Pacing = Pacing(typingSeen: map<string, int>, threadActive: map<string, int>,
                           receiptPoll: map<string, int>, nameLookupMiss: map<string, int>) {
    function ReceiptInterval(threadID: string, now: int): int {
      if Within(threadActive, threadID, now, THREAD_ACTIVE_WINDOW) then 0 else RECEIPT_IDLE_POLL_INTERVAL
    }

    function Answer(q: Query, now: int): bool {
      match q
      case EmitTyping(key) => !Within(typingSeen, key, now, TYPING_DEDUP_WINDOW)
      case IsActive(threadID) => Within(threadActive, threadID, now, THREAD_ACTIVE_WINDOW)
      case PollReceipts(threadID) => !Within(receiptPoll, threadID, now, ReceiptInterval(threadID, now))
      case RecentMiss(userID) => Within(nameLookupMiss, userID, now, NAME_LOOKUP_MISS_TTL)
      case NoteActive(_) => true
      case ForgetReceiptPoll(_) => true
      case RecordMiss(_) => true
    }

    function After(q: Query, now: int): Pacing {
      match q
      case EmitTyping(key) => if Answer(q, now) then this.(typingSeen := typingSeen[key := now]) else this
      case NoteActive(threadID) =>
        this.(threadActive := threadActive[threadID := now], receiptPoll := receiptPoll - {threadID})
      case ForgetReceiptPoll(threadID) => this.(receiptPoll := receiptPoll - {threadID})
      case PollReceipts(threadID) => if Answer(q, now) then this.(receiptPoll := receiptPoll[threadID := now]) else this
      case RecordMiss(userID) => this.(nameLookupMiss := nameLookupMiss[userID := now])
      case IsActive(_) => this
      case RecentMiss(_) => this
    }

    function Entries(): nat {
      |typingSeen| + |threadActive| + |receiptPoll| + |nameLookupMiss|
    }

    function Swept(now: int): Pacing {
      Pacing(KeptTimes(typingSeen, now - TYPING_DEDUP_WINDOW), KeptTimes(threadActive, now - THREAD_ACTIVE_WINDOW),
             KeptTimes(receiptPoll, now - RECEIPT_IDLE_POLL_INTERVAL),
             KeptTimes(nameLookupMiss, now - NAME_LOOKUP_MISS_TTL))
    }
  }

  // When each question is answered with yes: a typing notice once in three
  // seconds, read positions once in two minutes but always within half an hour
  // of an own send, a missing name once in six hours.
  lemma AnswersExactly(p: Pacing, key: string, now: int)
    ensures p.Answer(EmitTyping(key), now) <==> (key in p.typingSeen ==> p.typingSeen[key] + 3_000 <= now)
    ensures p.Answer(IsActive(key), now) <==> key in p.threadActive && now < p.threadActive[key] + 1_800_000
    ensures p.Answer(PollReceipts(key), now) <==>
            (key in p.receiptPoll ==>
               p.receiptPoll[key] + (if key in p.threadActive && now < p.threadActive[key] + 1_800_000 then 0 else 120_000) <= now)
    ensures p.Answer(RecentMiss(key), now) <==> key in p.nameLookupMiss && now < p.nameLookupMiss[key] + 21_600_000
  {
  }

  // What each leaves behind: the time, where the answer was yes; an own send
  // makes the read positions due.
  lemma EffectsExactly(p: Pacing, key: string, now: int)
    ensures var q := p.After(EmitTyping(key), now);
            q == p.(typingSeen := if p.Answer(EmitTyping(key), now) then p.typingSeen[key := now] else p.typingSeen)
    ensures var q := p.After(PollReceipts(key), now);
            q == p.(receiptPoll := if p.Answer(PollReceipts(key), now) then p.receiptPoll[key := now] else p.receiptPoll)
    ensures var q := p.After(NoteActive(key), now);
            && q.Answer(IsActive(key), now) && q.Answer(PollReceipts(key), now)
            && q.typingSeen == p.typingSeen && q.nameLookupMiss == p.nameLookupMiss
            && forall other | other != key :: q.Answer(IsActive(other), now) == p.Answer(IsActive(other), now)
    ensures p.After(ForgetReceiptPoll(key), now).Answer(PollReceipts(key), now)
    ensures p.After(RecordMiss(key), now).Answer(RecentMiss(key), now)
    ensures p.After(IsActive(key), now) == p == p.After(RecentMiss(key), now)
  {
  }

  // A sweep drops exactly the entries older than their map's window.
  lemma SweptExactly(p: Pacing, now: int, key: string)
    ensures var q := p.Swept(now);
            && (key in q.typingSeen <==> key in p.typingSeen && now - 3_000 <= p.typingSeen[key])
            && (key in q.threadActive <==> key in p.threadActive && now - 1_800_000 <= p.threadActive[key])
            && (key in q.receiptPoll <==> key in p.receiptPoll && now - 120_000 <= p.receiptPoll[key])
            && (key in q.nameLookupMiss <==> key in p.nameLookupMiss && now - 21_600_000 <= p.nameLookupMiss[key])
            && (key in q.typingSeen ==> q.typingSeen[key] == p.typingSeen[key])
            && (key in q.threadActive ==> q.threadActive[key] == p.threadActive[key])
            && (key in q.receiptPoll ==> q.receiptPoll[key] == p.receiptPoll[key])
            && (key in q.nameLookupMiss ==> q.nameLookupMiss[key] == p.nameLookupMiss[key])
  {
  }

  datatype Event = Asked(query: Query, now: int) | Sweep(now: int)

  // Nothing is asked, and no sweep is made, as of a time before an earlier sweep's.
  ghost predicate InOrder(events: seq<Event>) {
    forall i, j | 0 <= i < j < |events| && events[i].Sweep? :: events[i].now <= events[j].now
  }

  // The answers given along a run, by the client or by one that never sweeps.
  function Answers(p: Pacing, events: seq<Event>, sweeps: bool): seq<bool>
    decreases events
  {
    if events == [] then []
    else
      match events[0]
      case Asked(q, now) => [p.Answer(q, now)] + Answers(p.After(q, now), events[1..], sweeps)
      case Sweep(now) => Answers(if sweeps then p.Swept(now) else p, events[1..], sweeps)
  }

  lemma WithinKept(m: map<string, int>, key: string, now: int, window: int, cutoff: int)
    requires cutoff <= now - window
    ensures Within(KeptTimes(m, cutoff), key, now, window) == Within(m, key, now, window)
  {
  }

  lemma KeptPut(m: map<string, int>, key: string, now: int, cutoff: int)
    requires cutoff <= now
    ensures KeptTimes(m, cutoff)[key := now] == KeptTimes(m[key := now], cutoff)
    ensures KeptTimes(m, cutoff) - {key} == KeptTimes(m - {key}, cutoff)
  {
  }

  // The answer to a query and what it leaves are as without the sweep.
  ghost predicate Hidden(p: Pacing, q: Query, now: int, sweep: int) {
    p.Swept(sweep).Answer(q, now) == p.Answer(q, now) && p.Swept(sweep).After(q, now) == p.After(q, now).Swept(sweep)
  }

  lemma TypingHidden(p: Pacing, key: string, now: int, sweep: int)
    requires sweep <= now
    ensures Hidden(p, EmitTyping(key), now, sweep)
  {
    WithinKept(p.typingSeen, key, now, TYPING_DEDUP_WINDOW, sweep - TYPING_DEDUP_WINDOW);
    KeptPut(p.typingSeen, key, now, sweep - TYPING_DEDUP_WINDOW);
  }

  lemma ReceiptsAnswerHidden(p: Pacing, threadID: string, now: int, sweep: int)
    requires sweep <= now
    ensures p.Swept(sweep).Answer(PollReceipts(threadID), now) == p.Answer(PollReceipts(threadID), now)
  {
    var interval := p.ReceiptInterval(threadID, now);
    WithinKept(p.threadActive, threadID, now, THREAD_ACTIVE_WINDOW, sweep - THREAD_ACTIVE_WINDOW);
    assert p.Swept(sweep).ReceiptInterval(threadID, now) == interval;
    WithinKept(p.receiptPoll, threadID, now, interval, sweep - RECEIPT_IDLE_POLL_INTERVAL);
  }

  lemma PollReceiptsHidden(p: Pacing, threadID: string, now: int, sweep: int)
    requires sweep <= now
    ensures Hidden(p, PollReceipts(threadID), now, sweep)
  {
    ReceiptsAnswerHidden(p, threadID, now, sweep);
    if p.Answer(PollReceipts(threadID), now) {
      KeptPut(p.receiptPoll, threadID, now, sweep - RECEIPT_IDLE_POLL_INTERVAL);
      assert p.After(PollReceipts(threadID), now) == p.(receiptPoll := p.receiptPoll[threadID := now]);
    }
  }

  lemma NoteActiveHidden(p: Pacing, threadID: string, now: int, sweep: int)
    requires sweep <= now
    ensures Hidden(p, NoteActive(threadID), now, sweep)
  {
    KeptPut(p.threadActive, threadID, now, sweep - THREAD_ACTIVE_WINDOW);
    KeptPut(p.receiptPoll, threadID, now, sweep - RECEIPT_IDLE_POLL_INTERVAL);
  }

  lemma ForgetReceiptPollHidden(p: Pacing, threadID: string, now: int, sweep: int)
    requires sweep <= now
    ensures Hidden(p, ForgetReceiptPoll(threadID), now, sweep)
  {
    KeptPut(p.receiptPoll, threadID, now, sweep - RECEIPT_IDLE_POLL_INTERVAL);
  }

  lemma RecordMissHidden(p: Pacing, userID: string, now: int, sweep: int)
    requires sweep <= now
    ensures Hidden(p, RecordMiss(userID), now, sweep)
  {
    KeptPut(p.nameLookupMiss, userID, now, sweep - NAME_LOOKUP_MISS_TTL);
  }

  // A query is answered as if the latest sweep had not been, and does the same.
  lemma SweepHidesNothing(p: Pacing, q: Query, now: int, sweep: int)
    requires sweep <= now
    ensures p.Swept(sweep).Answer(q, now) == p.Answer(q, now)
    ensures p.Swept(sweep).After(q, now) == p.After(q, now).Swept(sweep)
  {
    assert Hidden(p, q, now, sweep) by {
      match q
      case EmitTyping(key) => TypingHidden(p, key, now, sweep);
      case PollReceipts(threadID) => PollReceiptsHidden(p, threadID, now, sweep);
      case NoteActive(threadID) => NoteActiveHidden(p, threadID, now, sweep);
      case ForgetReceiptPoll(threadID) => ForgetReceiptPollHidden(p, threadID, now, sweep);
      case RecordMiss(userID) => RecordMissHidden(p, userID, now, sweep);
      case IsActive(threadID) =>
        WithinKept(p.threadActive, threadID, now, THREAD_ACTIVE_WINDOW, sweep - THREAD_ACTIVE_WINDOW);
      case RecentMiss(userID) =>
        WithinKept(p.nameLookupMiss, userID, now, NAME_LOOKUP_MISS_TTL, sweep - NAME_LOOKUP_MISS_TTL);
    }
  }

  lemma SweptAgain(p: Pacing, sweep: int, later: int)
    requires sweep <= later
    ensures p.Swept(sweep).Swept(later) == p.Swept(later)
  {
  }

  lemma {:induction false} AnswersAfterSweep(p: Pacing, sweep: int, events: seq<Event>)
    requires InOrder(events) && forall i | 0 <= i < |events| :: sweep <= events[i].now
    ensures Answers(p.Swept(sweep), events, true) == Answers(p, events, false)
    decreases events
  {
    if events != [] {
      var rest := events[1..];
      match events[0]
      case Asked(q, now) =>
        SweepHidesNothing(p, q, now, sweep);
        AnswersAfterSweep(p.After(q, now), sweep, rest);
      case Sweep(now) =>
        SweptAgain(p, sweep, now);
        AnswersAfterSweep(p, now, rest);
    }
  }

  // Sweeping at any moments changes no answer.
  lemma {:induction false} SweepingIsUnobservable(p: Pacing, events: seq<Event>)
    requires InOrder(events)
    ensures Answers(p, events, true) == Answers(p, events, false)
    decreases events
  {
    if events != [] {
      match events[0]
      case Asked(q, now) => SweepingIsUnobservable(p.After(q, now), events[1..]);
      case Sweep(now) => AnswersAfterSweep(p, now, events[1..]);
    }
  }

  // ----- signature maps: what a thing last looked like -----

  function KeptSigs(m: map<string, StampedSig>, cutoff: int): map<string, StampedSig> {
    map k | k in m && m[k].at >= cutoff :: m[k]
  }

  predicate SigChanged(m: map<string, StampedSig>, key: string, sig: string) {
    key !in m || m[key].sig != sig
  }

  datatype SigEvent = Checked(key: string, sig: string, now: int) | Forgot(key: string) | SigSweep(now: int)

  function NextSigs(m: map<string, StampedSig>, e: SigEvent, sweeps: bool): map<string, StampedSig> {
    match e
    case Checked(key, sig, now) => m[key := StampedSig(sig, now)]
    case Forgot(key) => m - {key}
    case SigSweep(now) => if sweeps then KeptSigs(m, now - SIGNATURE_TTL) else m
  }

  // A check records its signature and time, a deletion forgets the key, and a
  // sweep drops exactly what was last checked more than twelve hours ago.
  lemma NextSigsExactly(m: map<string, StampedSig>, key: string, sig: string, now: int, sweeps: bool, other: string)
    ensures var next := NextSigs(m, Checked(key, sig, now), sweeps);
            !SigChanged(next, key, sig) && next[key].at == now && forall s | s != sig :: SigChanged(next, key, s)
    ensures forall s :: SigChanged(NextSigs(m, Forgot(key), sweeps), key, s)
    ensures other != key ==>
              && (other in NextSigs(m, Checked(key, sig, now), sweeps) <==> other in m)
              && (other in m ==> NextSigs(m, Checked(key, sig, now), sweeps)[other] == m[other])
              && (other in NextSigs(m, Forgot(key), sweeps) <==> other in m)
              && (other in m ==> NextSigs(m, Forgot(key), sweeps)[other] == m[other])
    ensures var swept := NextSigs(m, SigSweep(now), true);
            (key in swept <==> key in m && now - 43_200_000 <= m[key].at) && (key in swept ==> swept[key] == m[key])
  {
  }

  function Changes(m: map<string, StampedSig>, events: seq<SigEvent>, sweeps: bool): seq<bool>
    decreases events
  {
    if events == [] then []
    else
      var rest := Changes(NextSigs(m, events[0], sweeps), events[1..], sweeps);
      if events[0].Checked? then [SigChanged(m, events[0].key, events[0].sig)] + rest else rest
  }

  predicate Timed(e: SigEvent, since: int) {
    !e.Forgot? ==> since <= e.now
  }

  ghost predicate SigsInOrder(events: seq<SigEvent>) {
    forall i, j | 0 <= i < j < |events| && events[i].SigSweep? :: Timed(events[j], events[i].now)
  }

  // Some check repeats the signature of an entry that a sweep, the latest one
  // made as of `sweep` if any, has found older than the TTL.
  predicate RepeatsExpired(m: map<string, StampedSig>, sweep: Option<int>, events: seq<SigEvent>)
    decreases events
  {
    events != [] && (
      || (&& events[0].Checked? && !SigChanged(m, events[0].key, events[0].sig)
          && sweep.Some? && m[events[0].key].at < sweep.value - SIGNATURE_TTL)
      || RepeatsExpired(NextSigs(m, events[0], false),
                        if events[0].SigSweep? then Some(events[0].now) else sweep, events[1..]))
  }

  // The sweeping client's map, given the map of one that never sweeps.
  function SweptSigs(m: map<string, StampedSig>, sweep: Option<int>): map<string, StampedSig> {
    if sweep.None? then m else KeptSigs(m, sweep.value - SIGNATURE_TTL)
  }

  lemma NextSwept(m: map<string, StampedSig>, sweep: Option<int>, e: SigEvent)
    requires sweep.Some? ==> Timed(e, sweep.value)
    ensures NextSigs(SweptSigs(m, sweep), e, true) ==
            SweptSigs(NextSigs(m, e, false), if e.SigSweep? then Some(e.now) else sweep)
  {
  }

  lemma {:induction false} ChangesAfterSweep(m: map<string, StampedSig>, sweep: Option<int>, events: seq<SigEvent>)
    requires SigsInOrder(events) && (sweep.Some? ==> forall i | 0 <= i < |events| :: Timed(events[i], sweep.value))
    ensures Changes(SweptSigs(m, sweep), events, true) == Changes(m, events, false) <==>
            !RepeatsExpired(m, sweep, events)
    ensures |Changes(SweptSigs(m, sweep), events, true)| == |Changes(m, events, false)|
    decreases events
  {
    if events != [] {
      var e, rest := events[0], events[1..];
      var next, later := NextSigs(m, e, false), if e.SigSweep? then Some(e.now) else sweep;
      NextSwept(m, sweep, e);
      ChangesAfterSweep(next, later, rest);
      var swept, kept := Changes(SweptSigs(next, later), rest, true), Changes(next, rest, false);
      if e.Checked? {
        var a, b := SigChanged(SweptSigs(m, sweep), e.key, e.sig), SigChanged(m, e.key, e.sig);
        assert ([a] + swept)[1..] == swept && ([b] + kept)[1..] == kept;
        assert ([a] + swept)[0] == a && ([b] + kept)[0] == b;
      }
    }
  }

  // Sweeping changes no report exactly if no check repeats the signature of an
  // entry swept since it was last checked.
  lemma SigSweepingShowsExactly(m: map<string, StampedSig>, events: seq<SigEvent>)
    requires SigsInOrder(events)
    ensures Changes(m, events, true) == Changes(m, events, false) <==> !RepeatsExpired(m, None, events)
  {
    ChangesAfterSweep(m, None, events);
  }

  // A signature checked again after a sweep has dropped it is reported, though
  // it is what it was.
  lemma SweptSigIsReportedAgain(key: string, sig: string, checked: int, swept: int, again: int)
    requires checked < swept - SIGNATURE_TTL
    ensures var events := [Checked(key, sig, checked), SigSweep(swept), Checked(key, sig, again)];
            Changes(map[], events, true) == [true, true] && Changes(map[], events, false) == [true, false]
  {
    var second: seq<SigEvent> := [Checked(key, sig, again)];
    var first := [SigSweep(swept)] + second;
    var m: map<string, StampedSig> := map[key := StampedSig(sig, checked)];
    assert [Checked(key, sig, checked), SigSweep(swept), Checked(key, sig, again)][1..] == first && first[1..] == second;
    assert second[1..] == [] && map[][key := StampedSig(sig, checked)] == m;
    assert Changes(map[], second, true) == [true] && Changes(m, second, false) == [false];
    assert NextSigs(m, SigSweep(swept), true) == map[];
    assert Changes(m, first, true) == [true] && Changes(m, first, false) == [false];
  }

  // Every check comes within a TTL of the last one of the same key.
  predicate CheckedOften(m: map<string, StampedSig>, events: seq<SigEvent>)
    decreases events
  {
    events == [] || (
      && (events[0].Checked? && events[0].key in m ==> events[0].now <= m[events[0].key].at + SIGNATURE_TTL)
      && CheckedOften(NextSigs(m, events[0], false), events[1..]))
  }

  lemma {:induction false} CheckedOftenNeverExpires(m: map<string, StampedSig>, sweep: Option<int>, events: seq<SigEvent>)
    requires SigsInOrder(events) && (sweep.Some? ==> forall i | 0 <= i < |events| :: Timed(events[i], sweep.value))
    requires CheckedOften(m, events)
    ensures !RepeatsExpired(m, sweep, events)
    decreases events
  {
    if events != [] {
      assert sweep.Some? ==> Timed(events[0], sweep.value);
      CheckedOftenNeverExpires(NextSigs(m, events[0], false), if events[0].SigSweep? then Some(events[0].now) else sweep,
                               events[1..]);
    }
  }

  lemma SigSweepingIsUnobservable(m: map<string, StampedSig>, events: seq<SigEvent>)
    requires SigsInOrder(events) && CheckedOften(m, events)
    ensures Changes(m, events, true) == Changes(m, events, false)
  {
    CheckedOftenNeverExpires(m, None, events);
    SigSweepingShowsExactly(m, events);
  }

  // ----- the client's maps, in place -----

  function TimeOf(t: int): int {
    t
  }

  function SeenAt(s: StampedSig): int {
    s.at
  }

  method SweepBefore<V>(m: map<string, V>, cutoff: int, at: V -> int) returns (kept: map<string, V>, removed: nat)
    ensures kept == map k | k in m && at(m[k]) >= cutoff :: m[k]
    ensures removed == |m| - |kept|
  {
    kept, removed := m, 0;
    var keys := m.Keys;
    while keys != {}
      invariant keys <= m.Keys && forall k | k in keys :: k in kept
      invariant forall k :: k in kept <==> k in m && (k in keys || at(m[k]) >= cutoff)
      invariant forall k | k in kept :: kept[k] == m[k]
      invariant removed == |m| - |kept|
      decreases |keys|
    {
      var k :| k in keys;
      if at(m[k]) < cutoff {
        assert kept.Keys == (kept - {k}).Keys + {k};
        kept := kept - {k};
        removed := removed + 1;
      }
      keys := keys - {k};
    }
  }

  method SweepTimes(m: map<string, int>, cutoff: int) returns (kept: map<string, int>, removed: nat)
    ensures kept == KeptTimes(m, cutoff) && removed == |m| - |kept|
  {
    kept, removed := SweepBefore(m, cutoff, TimeOf);
  }

  method SweepSigs(m: map<string, StampedSig>, cutoff: int) returns (kept: map<string, StampedSig>, removed: nat)
    ensures kept == KeptSigs(m, cutoff) && removed == |m| - |kept|
  {
    kept, removed := SweepBefore(m, cutoff, SeenAt);
  }

  class ClientCaches {
    var typingSeen: map<string, int>
    var threadActive: map<string, int>
    var receiptPoll: map<string, int>
    var nameLookupMiss: map<string, int>
    var reactionSigs: map<string, StampedSig>
    var editTimes: map<string, StampedSig>
    var chatInfoSigs: map<string, StampedSig>
    // messageID -> when its reactions were last announced
    var reactionSeen: map<string, int>

    function Pace(): Pacing
      reads this`typingSeen, this`threadActive, this`receiptPoll, this`nameLookupMiss
    {
      Pacing(typingSeen, threadActive, receiptPoll, nameLookupMiss)
    }

    function SigEntries(): nat
      reads this`reactionSigs, this`editTimes, this`chatInfoSigs
    {
      |reactionSigs| + |editTimes| + |chatInfoSigs|
    }

    method ShouldEmitTyping(key: string, now: int) returns (emit: bool)
      modifies this`typingSeen
      ensures emit == old(Pace()).Answer(EmitTyping(key), now) && Pace() == old(Pace()).After(EmitTyping(key), now)
    {
      if key in typingSeen && now - typingSeen[key] < TYPING_DEDUP_WINDOW {
        return false;
      }
      typingSeen := typingSeen[key := now];
      return true;
    }

    method NoteThreadActive(threadID: string, now: int)
      modifies this`threadActive, this`receiptPoll
      ensures Pace() == old(Pace()).After(NoteActive(threadID), now)
    {
      threadActive := threadActive[threadID := now];
      receiptPoll := receiptPoll - {threadID};
    }

    method ForgetReceipts(threadID: string, now: int)
      modifies this`receiptPoll
      ensures Pace() == old(Pace()).After(ForgetReceiptPoll(threadID), now)
    {
      receiptPoll := receiptPoll - {threadID};
    }

    method ThreadIsActive(threadID: string, now: int) returns (active: bool)
      ensures active == Pace().Answer(IsActive(threadID), now)
    {
      return threadID in threadActive && now - threadActive[threadID] < THREAD_ACTIVE_WINDOW;
    }

    method ShouldPollReceipts(threadID: string, now: int) returns (due: bool)
      modifies this`receiptPoll
      ensures due == old(Pace()).Answer(PollReceipts(threadID), now) && Pace() == old(Pace()).After(PollReceipts(threadID), now)
    {
      var interval := RECEIPT_IDLE_POLL_INTERVAL;
      if threadID in threadActive && now - threadActive[threadID] < THREAD_ACTIVE_WINDOW {
        interval := 0;
      }
      if threadID in receiptPoll && now - receiptPoll[threadID] < interval {
        return false;
      }
      receiptPoll := receiptPoll[threadID := now];
      return true;
    }

    method RecentNameLookupMiss(userID: string, now: int) returns (recent: bool)
      ensures recent == Pace().Answer(RecentMiss(userID), now)
    {
      return userID in nameLookupMiss && now - nameLookupMiss[userID] < NAME_LOOKUP_MISS_TTL;
    }

    method RecordNameLookupMiss(userID: string, now: int)
      modifies this`nameLookupMiss
      ensures Pace() == old(Pace()).After(RecordMiss(userID), now)
    {
      nameLookupMiss := nameLookupMiss[userID := now];
    }

    method ReactionStateChanged(messageID: string, sig: string, now: int) returns (changed: bool)
      modifies this`reactionSigs
      ensures changed == SigChanged(old(reactionSigs), messageID, sig)
      ensures reactionSigs == NextSigs(old(reactionSigs), Checked(messageID, sig, now), true)
    {
      changed := messageID !in reactionSigs || reactionSigs[messageID].sig != sig;
      reactionSigs := reactionSigs[messageID := StampedSig(sig, now)];
    }

    method MessageStateChanged(messageID: string, sig: string, now: int) returns (changed: bool)
      modifies this`editTimes
      ensures changed == SigChanged(old(editTimes), messageID, sig)
      ensures editTimes == NextSigs(old(editTimes), Checked(messageID, sig, now), true)
    {
      changed := messageID !in editTimes || editTimes[messageID].sig != sig;
      editTimes := editTimes[messageID := StampedSig(sig, now)];
    }

    method ForgetMessageState(messageID: string)
      modifies this`editTimes
      ensures editTimes == NextSigs(old(editTimes), Forgot(messageID), true)
    {
      editTimes := editTimes - {messageID};
    }

    method ChatInfoChanged(threadID: string, sig: string, now: int) returns (changed: bool)
      modifies this`chatInfoSigs
      ensures changed == SigChanged(old(chatInfoSigs), threadID, sig)
      ensures chatInfoSigs == NextSigs(old(chatInfoSigs), Checked(threadID, sig, now), true)
    {
      changed := threadID !in chatInfoSigs || chatInfoSigs[threadID].sig != sig;
      chatInfoSigs := chatInfoSigs[threadID := StampedSig(sig, now)];
    }

    // Reports how many entries went.
    method SweepCaches(now: int) returns (removed: nat)
      modifies this
      ensures Pace() == old(Pace()).Swept(now)
      ensures reactionSigs == NextSigs(old(reactionSigs), SigSweep(now), true)
      ensures editTimes == NextSigs(old(editTimes), SigSweep(now), true)
      ensures chatInfoSigs == NextSigs(old(chatInfoSigs), SigSweep(now), true)
      ensures reactionSeen == KeptTimes(old(reactionSeen), now - SIGNATURE_TTL)
      ensures removed == old(SigEntries() + |reactionSeen| + Pace().Entries())
                         - (SigEntries() + |reactionSeen| + Pace().Entries())
    {
      var sigs := SweepSignatures(now);
      var times := SweepPacing(now);
      removed := sigs + times;
    }

    method SweepSignatures(now: int) returns (removed: nat)
      modifies this`reactionSigs, this`editTimes, this`chatInfoSigs
      ensures reactionSigs == NextSigs(old(reactionSigs), SigSweep(now), true)
      ensures editTimes == NextSigs(old(editTimes), SigSweep(now), true)
      ensures chatInfoSigs == NextSigs(old(chatInfoSigs), SigSweep(now), true)
      ensures removed == old(SigEntries()) - SigEntries()
    {
      var n, m, k;
      reactionSigs, n := SweepSigs(reactionSigs, now - SIGNATURE_TTL);
      editTimes, m := SweepSigs(editTimes, now - SIGNATURE_TTL);
      chatInfoSigs, k := SweepSigs(chatInfoSigs, now - SIGNATURE_TTL);
      removed := n + m + k;
    }

    method SweepPacing(now: int) returns (removed: nat)
      modifies this`typingSeen, this`threadActive, this`receiptPoll, this`nameLookupMiss, this`reactionSeen
      ensures Pace() == old(Pace()).Swept(now)
      ensures reactionSeen == KeptTimes(old(reactionSeen), now - SIGNATURE_TTL)
      ensures removed == old(|reactionSeen| + Pace().Entries()) - (|reactionSeen| + Pace().Entries())
    {
      var n, m, k, l, marks;
      reactionSeen, marks := SweepTimes(reactionSeen, now - SIGNATURE_TTL);
      typingSeen, n := SweepTimes(typingSeen, now - TYPING_DEDUP_WINDOW);
      threadActive, m := SweepTimes(threadActive, now - THREAD_ACTIVE_WINDOW);
      receiptPoll, k := SweepTimes(receiptPoll, now - RECEIPT_IDLE_POLL_INTERVAL);
      nameLookupMiss, l := SweepTimes(nameLookupMiss, now - NAME_LOOKUP_MISS_TTL);
      removed := marks + n + m + k + l;
    }
  }
}
