/** Queueing one fetched page: which messages advance the cursor, which events
    count towards saving it, and where it goes. */
module PollThread {
  import opened Text
  import opened SequenceOrder
  import opened ThreadState
  import opened CursorSaving

  // What the page loop makes of a message: a typing control, bookkeeping
  // (worth a notice or not), or a user's deletion, edit or new message.
  datatype Kind = Typing | NonUser(notice: bool) | Deletion | Edit | NewMessage

  datatype RemoteMessage = RemoteMessage(id: string, sequenceID: string, ts: int, kind: Kind) {
    function Seq(): string {
      TrimSpace(sequenceID)
    }

    // Above the cursor, so the cursor moves past it.
    predicate Advances(lastSeq: string) {
      TrimSpace(id) != "" && kind != Typing && (lastSeq == "" || Compare(Seq(), lastSeq) > 0)
    }

    // Queued with a hook that counts towards the page's commit.
    predicate Tracked() {
      kind != Typing && kind != NonUser(false)
    }

    predicate Ingested() {
      kind == NonUser(true) || kind == NewMessage
    }
  }

  // The page loop's variables: the newest position met, the events ingested,
  // the places of the messages whose events the portal queue took, the commit.
  datatype Progress = Progress(maxSeq: string, maxTS: int, ingested: nat, queued: seq<nat>, commit: Commit)

  function Consider(p: Progress, i: nat, msg: RemoteMessage, lastSeq: string, accepted: bool): Progress {
    if !msg.Advances(lastSeq) then p
    else
      var tracked := p.commit.Track();
      Progress(
        if p.maxSeq == "" || Compare(msg.Seq(), p.maxSeq) > 0 then msg.Seq() else p.maxSeq,
        if msg.ts > p.maxTS then msg.ts else p.maxTS,
        if msg.Ingested() then p.ingested + 1 else p.ingested,
        if msg.Tracked() && accepted then p.queued + [i] else p.queued,
        if !msg.Tracked() then p.commit
        else if accepted then tracked
        else tracked.CallHook(|p.commit.fired|))
  }

  function Scan(msgs: seq<RemoteMessage>, accepts: seq<bool>, lastSeq: string): Progress
    requires |accepts| == |msgs|
  {
    if msgs == [] then Progress("", 0, 0, [], NEW_COMMIT)
    else
      var n := |msgs| - 1;
      Consider(Scan(msgs[..n], accepts[..n], lastSeq), n, msgs[n], lastSeq, accepts[n])
  }

  lemma ScanOneMore(msgs: seq<RemoteMessage>, accepts: seq<bool>, lastSeq: string, i: nat)
    requires i < |msgs| == |accepts|
    ensures Scan(msgs[..i + 1], accepts[..i + 1], lastSeq) ==
            Consider(Scan(msgs[..i], accepts[..i], lastSeq), i, msgs[i], lastSeq, accepts[i])
  {
    assert msgs[..i + 1][..i] == msgs[..i] && accepts[..i + 1][..i] == accepts[..i];
  }

  // For each message, whether its event goes into the queue.
  function Taken(msgs: seq<RemoteMessage>, accepts: seq<bool>, lastSeq: string): (taken: seq<bool>)
    requires |accepts| == |msgs|
    ensures |taken| == |msgs|
  {
    if msgs == [] then []
    else
      var n := |msgs| - 1;
      Taken(msgs[..n], accepts[..n], lastSeq) + [msgs[n].Advances(lastSeq) && msgs[n].Tracked() && accepts[n]]
  }

  // The places of the true ones.
  function Places(taken: seq<bool>): seq<nat> {
    if taken == [] then []
    else
      var n := |taken| - 1;
      Places(taken[..n]) + if taken[n] then [n] else []
  }

  lemma {:induction false} PlacesExactly(taken: seq<bool>)
    ensures var places := Places(taken);
            && (forall i | 0 <= i < |taken| :: i in places <==> taken[i])
            && (forall k | 0 <= k < |places| :: places[k] < |taken|)
            && (forall j, k | 0 <= j < k < |places| :: places[j] < places[k])
  {
    if taken != [] {
      var n := |taken| - 1;
      PlacesExactly(taken[..n]);
      assert n !in Places(taken[..n]);
    }
  }

  lemma {:induction false} TakenAt(msgs: seq<RemoteMessage>, accepts: seq<bool>, lastSeq: string, i: nat)
    requires i < |msgs| == |accepts|
    ensures Taken(msgs, accepts, lastSeq)[i] <==> msgs[i].Advances(lastSeq) && msgs[i].Tracked() && accepts[i]
  {
    var n := |msgs| - 1;
    if i < n {
      TakenAt(msgs[..n], accepts[..n], lastSeq, i);
    }
  }

  lemma {:induction false} ScanTakes(msgs: seq<RemoteMessage>, accepts: seq<bool>, lastSeq: string)
    requires |accepts| == |msgs|
    ensures Scan(msgs, accepts, lastSeq).queued == Places(Taken(msgs, accepts, lastSeq))
  {
    if msgs != [] {
      var n := |msgs| - 1;
      var before := Taken(msgs[..n], accepts[..n], lastSeq);
      ScanTakes(msgs[..n], accepts[..n], lastSeq);
      assert Taken(msgs, accepts, lastSeq)[..n] == before;
    }
  }

  // Exactly the accepted events of the advancing messages are in the queue, in
  // page order.
  lemma ScanQueues(msgs: seq<RemoteMessage>, accepts: seq<bool>, lastSeq: string)
    requires |accepts| == |msgs|
    ensures var queued := Scan(msgs, accepts, lastSeq).queued;
            && (forall i | 0 <= i < |msgs| ::
                  i in queued <==> msgs[i].Advances(lastSeq) && msgs[i].Tracked() && accepts[i])
            && (forall k | 0 <= k < |queued| :: queued[k] < |msgs|)
            && (forall j, k | 0 <= j < k < |queued| :: queued[j] < queued[k])
  {
    ScanTakes(msgs, accepts, lastSeq);
    PlacesExactly(Taken(msgs, accepts, lastSeq));
    forall i | 0 <= i < |msgs|
      ensures i in Scan(msgs, accepts, lastSeq).queued <==> msgs[i].Advances(lastSeq) && msgs[i].Tracked() && accepts[i]
    {
      TakenAt(msgs, accepts, lastSeq, i);
    }
  }

  // And exactly their hooks are still to be called.
  lemma {:induction false} ScanCounts(msgs: seq<RemoteMessage>, accepts: seq<bool>, lastSeq: string)
    requires |accepts| == |msgs|
    ensures var p := Scan(msgs, accepts, lastSeq);
            && p.commit.Valid() && !p.commit.armed && !p.commit.released
            && Unfired(p.commit.fired) == |p.queued|
  {
    if msgs != [] {
      var n := |msgs| - 1;
      var before := Scan(msgs[..n], accepts[..n], lastSeq).commit;
      ScanCounts(msgs[..n], accepts[..n], lastSeq);
      ActKeepsValid(before, Action.Track);
      ActKeepsValid(before.Track(), Action.CallHook(|before.fired|));
      UnfiredAppend(before.fired);
      UnfiredUpdate(before.fired + [false], |before.fired|);
    }
  }

  ghost predicate NumberedPage(msgs: seq<RemoteMessage>, lastSeq: string) {
    IsSequenceID(lastSeq) && forall m | m in msgs :: IsSequenceID(m.Seq())
  }

  // pos is the newest position among the advancing messages, if there is one.
  ghost predicate IsPageEnd(msgs: seq<RemoteMessage>, lastSeq: string, maxSeq: string) {
    && (maxSeq == "" || exists m :: m in msgs && m.Advances(lastSeq) && m.Seq() == maxSeq)
    && (NumberedPage(msgs, lastSeq) ==>
          forall m | m in msgs && m.Advances(lastSeq) :: Compare(m.Seq(), maxSeq) <= 0)
  }

  // ----- what a page amounts to -----

  // A message with an ID that lies above the cursor; without one, any does.
  predicate IsFresh(m: RemoteMessage, lastSeq: string) {
    TrimSpace(m.id) != "" && (lastSeq == "" || Key(TrimSpace(m.sequenceID)) > Key(lastSeq))
  }

  lemma FreshAdvances(m: RemoteMessage, lastSeq: string)
    requires IsSequenceID(lastSeq) && IsSequenceID(m.Seq())
    ensures m.Advances(lastSeq) <==> IsFresh(m, lastSeq) && m.kind != Typing
  {
    CompareIsKeyOrder(m.Seq(), lastSeq);
  }

  // Every new message, edit, deletion and notice above the cursor is queued
  // where the queue takes it, in page order, and nothing else is.
  lemma FreshEventsAreQueued(msgs: seq<RemoteMessage>, accepts: seq<bool>, lastSeq: string)
    requires |accepts| == |msgs| && NumberedPage(msgs, lastSeq)
    ensures forall i | 0 <= i < |msgs| ::
              i in Scan(msgs, accepts, lastSeq).queued <==>
              IsFresh(msgs[i], lastSeq) && accepts[i] && msgs[i].kind in {NewMessage, Edit, Deletion, NonUser(true)}
    ensures var queued := Scan(msgs, accepts, lastSeq).queued;
            && (forall k | 0 <= k < |queued| :: queued[k] < |msgs|)
            && (forall j, k | 0 <= j < k < |queued| :: queued[j] < queued[k])
  {
    ScanQueues(msgs, accepts, lastSeq);
    forall i | 0 <= i < |msgs|
      ensures i in Scan(msgs, accepts, lastSeq).queued <==>
              IsFresh(msgs[i], lastSeq) && accepts[i] && msgs[i].kind in {NewMessage, Edit, Deletion, NonUser(true)}
    {
      assert msgs[i] in msgs;
      FreshAdvances(msgs[i], lastSeq);
    }
  }

  // The places of the messages that make the next poll come soon: new messages
  // and notices, accepted or not.
  ghost function NewsIn(msgs: seq<RemoteMessage>, lastSeq: string): set<nat> {
    set i: nat | i < |msgs| && IsFresh(msgs[i], lastSeq) && msgs[i].kind in {NewMessage, NonUser(true)}
  }

  lemma OneMoreNews(msgs: seq<RemoteMessage>, lastSeq: string)
    requires msgs != []
    ensures var n, m := |msgs| - 1, msgs[|msgs| - 1];
            && n !in NewsIn(msgs[..n], lastSeq)
            && NewsIn(msgs, lastSeq) ==
               NewsIn(msgs[..n], lastSeq) + if IsFresh(m, lastSeq) && m.kind in {NewMessage, NonUser(true)} then {n} else {}
  {
  }

  lemma {:induction false} NewsAreIngested(msgs: seq<RemoteMessage>, accepts: seq<bool>, lastSeq: string)
    requires |accepts| == |msgs| && NumberedPage(msgs, lastSeq)
    ensures Scan(msgs, accepts, lastSeq).ingested == |NewsIn(msgs, lastSeq)|
  {
    if msgs != [] {
      var n := |msgs| - 1;
      NewsAreIngested(msgs[..n], accepts[..n], lastSeq);
      assert msgs[n] in msgs;
      FreshAdvances(msgs[n], lastSeq);
      OneMoreNews(msgs, lastSeq);
    }
  }

  // The greatest time among the messages above the cursor, 0 if none is greater.
  ghost predicate IsLatest(msgs: seq<RemoteMessage>, lastSeq: string, ts: int) {
    && ts >= 0
    && (forall m | m in msgs && IsFresh(m, lastSeq) && m.kind != Typing :: m.ts <= ts)
    && (ts == 0 || exists m :: m in msgs && IsFresh(m, lastSeq) && m.kind != Typing && m.ts == ts)
  }

  lemma {:induction false} ScanKeepsLatest(msgs: seq<RemoteMessage>, accepts: seq<bool>, lastSeq: string)
    requires |accepts| == |msgs| && NumberedPage(msgs, lastSeq)
    ensures IsLatest(msgs, lastSeq, Scan(msgs, accepts, lastSeq).maxTS)
  {
    if msgs != [] {
      var n := |msgs| - 1;
      ScanKeepsLatest(msgs[..n], accepts[..n], lastSeq);
      assert msgs == msgs[..n] + [msgs[n]] && msgs[n] in msgs;
      FreshAdvances(msgs[n], lastSeq);
    }
  }

  // Once the cursor is at a page's end, no message of that page advances it
  // again, and the position counts as newer than where the page started.
  lemma PageEndPassesPage(msgs: seq<RemoteMessage>, lastSeq: string, pos: CursorPos)
    requires NumberedPage(msgs, lastSeq) && IsPageEnd(msgs, lastSeq, pos.seqID) && pos.seqID != ""
    ensures NewerThan(pos, lastSeq)
    ensures forall m | m in msgs :: m.Advances(pos.seqID) ==> !m.Advances(lastSeq)
    ensures forall m | m in msgs :: !m.Advances(pos.seqID)
  {
    var end :| end in msgs && end.Advances(lastSeq) && end.Seq() == pos.seqID;
    NewerThanIsKeyOrder(pos, lastSeq);
    CompareIsKeyOrder(pos.seqID, lastSeq);
    forall m | m in msgs
      ensures !m.Advances(pos.seqID)
    {
      CompareIsKeyOrder(m.Seq(), pos.seqID);
      CompareIsKeyOrder(m.Seq(), lastSeq);
    }
  }

  lemma {:induction false} ScanEndsPage(msgs: seq<RemoteMessage>, accepts: seq<bool>, lastSeq: string)
    requires |accepts| == |msgs|
    ensures IsPageEnd(msgs, lastSeq, Scan(msgs, accepts, lastSeq).maxSeq)
  {
    if msgs != [] {
      var n := |msgs| - 1;
      ScanEndsPage(msgs[..n], accepts[..n], lastSeq);
      LastEndsPage(msgs, accepts, lastSeq);
    }
  }

  lemma LastMaxSeq(msgs: seq<RemoteMessage>, accepts: seq<bool>, lastSeq: string)
    requires |accepts| == |msgs| > 0
    ensures var n := |msgs| - 1;
            var maxSeq := Scan(msgs[..n], accepts[..n], lastSeq).maxSeq;
            Scan(msgs, accepts, lastSeq).maxSeq ==
            if msgs[n].Advances(lastSeq) && (maxSeq == "" || Compare(msgs[n].Seq(), maxSeq) > 0) then msgs[n].Seq() else maxSeq
  {
  }

  lemma LastEndsPage(msgs: seq<RemoteMessage>, accepts: seq<bool>, lastSeq: string)
    requires |accepts| == |msgs| > 0
    ensures var n := |msgs| - 1;
            IsPageEnd(msgs[..n], lastSeq, Scan(msgs[..n], accepts[..n], lastSeq).maxSeq) ==>
              IsPageEnd(msgs, lastSeq, Scan(msgs, accepts, lastSeq).maxSeq)
  {
    var n := |msgs| - 1;
    var init, maxSeq := msgs[..n], Scan(msgs[..n], accepts[..n], lastSeq).maxSeq;
    if IsPageEnd(init, lastSeq, maxSeq) {
      LastMaxSeq(msgs, accepts, lastSeq);
      PageEndExtends(init, lastSeq, maxSeq, msgs[n]);
      assert msgs == init + [msgs[n]];
    }
  }

  lemma PageEndExtends(msgs: seq<RemoteMessage>, lastSeq: string, maxSeq: string, msg: RemoteMessage)
    requires IsPageEnd(msgs, lastSeq, maxSeq)
    ensures IsPageEnd(msgs + [msg], lastSeq,
                      if msg.Advances(lastSeq) && (maxSeq == "" || Compare(msg.Seq(), maxSeq) > 0)
                      then msg.Seq() else maxSeq)
  {
    var all := msgs + [msg];
    var next := if msg.Advances(lastSeq) && (maxSeq == "" || Compare(msg.Seq(), maxSeq) > 0)
                then msg.Seq() else maxSeq;
    assert msg in all && forall m | m in msgs :: m in all;
    if NumberedPage(all, lastSeq) {
      CompareIsKeyOrder(msg.Seq(), maxSeq);
      forall m | m in all && m.Advances(lastSeq)
        ensures Compare(m.Seq(), next) <= 0
      {
        CompareIsKeyOrder(m.Seq(), maxSeq);
        CompareIsKeyOrder(m.Seq(), next);
      }
    }
  }

  // pollThread's loop and advancePageCursor. accepts[i] is whether bridgev2
  // queued message i's event; the hook of one it did not is called at once. A
  // page with no new message leaves the cursors alone and is never released.
  method QueuePage(cursors: ThreadCursors, threadID: string, lastSequenceID: string,
                   msgs: seq<RemoteMessage>, accepts: seq<bool>)
    returns (commit: CursorCommit, queued: seq<nat>, ingested: nat, pos: CursorPos)
    requires |accepts| == |msgs|
    modifies cursors
    ensures fresh(commit)
    ensures var p := Scan(msgs, accepts, TrimSpace(lastSequenceID));
            && pos == CursorPos(p.maxSeq, p.maxTS) && queued == p.queued && ingested == p.ingested
            && commit.Value() == (if p.maxSeq == "" then p.commit else p.commit.Arm().GiveUp())
            && cursors.Value() == (if p.maxSeq == "" then old(cursors.Value())
                                   else old(cursors.Value()).NoteQueued(threadID, pos))
  {
    var lastSeq := TrimSpace(lastSequenceID);
    var maxSeq, maxTS := "", 0;
    ingested, queued := 0, [];
    commit := new CursorCommit();
    for i := 0 to |msgs|
      invariant fresh(commit) && cursors.Value() == old(cursors.Value())
      invariant Progress(maxSeq, maxTS, ingested, queued, commit.Value()) == Scan(msgs[..i], accepts[..i], lastSeq)
    {
      var msg := msgs[i];
      ScanOneMore(msgs, accepts, lastSeq, i);
      if !msg.Advances(lastSeq) {
        continue;
      }
      if maxSeq == "" || Compare(msg.Seq(), maxSeq) > 0 {
        maxSeq := msg.Seq();
      }
      if msg.ts > maxTS {
        maxTS := msg.ts;
      }
      if msg.Tracked() {
        var hook := commit.Track();
        if accepts[i] {
          queued := queued + [i];
        } else {
          commit.CallHook(hook);
        }
      }
      if msg.Ingested() {
        ingested := ingested + 1;
      }
    }
    assert msgs[..|msgs|] == msgs && accepts[..|msgs|] == accepts;
    pos := CursorPos(maxSeq, maxTS);
    if maxSeq != "" {
      cursors.NoteQueued(threadID, pos);
      commit.Release();
    }
  }

  // So a released page's save has run at once exactly when the queue took
  // none of its events, and a page not released never saves.
  lemma SaveWaitsForQueuedEvents(msgs: seq<RemoteMessage>, accepts: seq<bool>, lastSeq: string)
    requires |accepts| == |msgs|
    ensures var p := Scan(msgs, accepts, lastSeq);
            && p.commit.saves == 0
            && (p.commit.Arm().GiveUp().saves == 1 <==>
                forall i | 0 <= i < |msgs| && msgs[i].Advances(lastSeq) && msgs[i].Tracked() :: !accepts[i])
  {
    ScanQueues(msgs, accepts, lastSeq);
    ScanCounts(msgs, accepts, lastSeq);
    var p := Scan(msgs, accepts, lastSeq);
    ActKeepsValid(p.commit, Arm);
    ActKeepsValid(p.commit.Arm(), GiveUp);
    if p.queued != [] {
      assert p.queued[0] in p.queued;
    }
  }
}
