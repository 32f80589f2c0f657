/** The page loop as a run of the delivery protocol. */
module PageSteps {
  import opened Text
  import opened SequenceOrder
  import opened ThreadState
  import opened CursorSaving
  import opened PollThread
  import Protocol = DeliveryProtocol

  // What becomes of a new message: bookkeeping without a notice is skipped; an
  // event the portal's queue did not take was handled at once, or refused.
  function OutcomeOf(msg: RemoteMessage, accepted: bool, inline: bool): Protocol.Outcome {
    if !msg.Tracked() then Protocol.Skip
    else if accepted then Protocol.Accepted
    else if inline then Protocol.Inline
    else Protocol.Refused
  }

  // Only Teams' bookkeeping is skipped; of the rest, what the queue did not take
  // was handled at once or turned away.
  lemma OutcomesExactly(msg: RemoteMessage, accepted: bool, inline: bool)
    requires msg.kind != Typing
    ensures OutcomeOf(msg, accepted, inline) == Protocol.Skip <==> msg.kind == NonUser(false)
    ensures OutcomeOf(msg, accepted, inline) == Protocol.Accepted <==> msg.kind != NonUser(false) && accepted
    ensures OutcomeOf(msg, accepted, inline) == Protocol.Inline <==> msg.kind != NonUser(false) && !accepted && inline
  {
  }

  // The positions of the page's new messages.
  function NewPositions(msgs: seq<RemoteMessage>, lastSeq: string): seq<int> {
    if msgs == [] then []
    else
      var n := |msgs| - 1;
      NewPositions(msgs[..n], lastSeq) + if msgs[n].Advances(lastSeq) then [Key(msgs[n].Seq())] else []
  }

  function QueueSteps(msgs: seq<RemoteMessage>, accepts: seq<bool>, inline: seq<bool>, lastSeq: string): seq<Protocol.Step>
    requires |accepts| == |inline| == |msgs|
  {
    if msgs == [] then []
    else
      var n := |msgs| - 1;
      QueueSteps(msgs[..n], accepts[..n], inline[..n], lastSeq)
      + if msgs[n].Advances(lastSeq) then [Protocol.Queue(OutcomeOf(msgs[n], accepts[n], inline[n]))] else []
  }

  // The positions of the events the portal's queue takes.
  function QueuedPositions(msgs: seq<RemoteMessage>, accepts: seq<bool>, lastSeq: string): seq<int>
    requires |accepts| == |msgs|
  {
    if msgs == [] then []
    else
      var n := |msgs| - 1;
      QueuedPositions(msgs[..n], accepts[..n], lastSeq)
      + if msgs[n].Advances(lastSeq) && msgs[n].Tracked() && accepts[n] then [Key(msgs[n].Seq())] else []
  }

  function Positions(fifo: seq<Protocol.Event>): seq<int> {
    if fifo == [] then [] else Positions(fifo[..|fifo| - 1]) + [fifo[|fifo| - 1].pos]
  }

  lemma PositionsAppend(fifo: seq<Protocol.Event>, e: Protocol.Event)
    ensures Positions(fifo + [e]) == Positions(fifo) + [e.pos]
  {
    assert (fifo + [e])[..|fifo|] == fifo;
  }

  // They are those of the messages the loop says it queued.
  lemma {:induction false} QueuedAsScanned(msgs: seq<RemoteMessage>, accepts: seq<bool>, lastSeq: string)
    requires |accepts| == |msgs|
    ensures var queued, positions := Scan(msgs, accepts, lastSeq).queued, QueuedPositions(msgs, accepts, lastSeq);
            && |positions| == |queued|
            && forall k | 0 <= k < |queued| :: queued[k] < |msgs| && positions[k] == Key(msgs[queued[k]].Seq())
  {
    if msgs != [] {
      var n := |msgs| - 1;
      QueuedAsScanned(msgs[..n], accepts[..n], lastSeq);
      assert forall i | 0 <= i < n :: msgs[..n][i] == msgs[i];
    }
  }

  // t is s with a page's messages queued: that page has the loop's commit, and
  // behind what was queued stand exactly these events.
  ghost predicate PageQueued(s: Protocol.State, t: Protocol.State, p: Progress, queued: seq<int>, more: seq<int>)
    requires s.pages != []
  {
    var at := |s.pages| - 1;
    && t.poll == Protocol.Queueing(more) && t.cursors == s.cursors && t.log == s.log && t.db == s.db && t.row == s.row
    && t.pages == s.pages[at := s.pages[at].(commit := p.commit, accepted := p.queued != [])]
    && Positions(t.fifo) == Positions(s.fifo) + queued
  }

  ghost predicate Opened(s: Protocol.State, todo: seq<int>) {
    && s.poll == Protocol.Queueing(todo) && s.pages != []
    && s.pages[|s.pages| - 1].commit == NEW_COMMIT && !s.pages[|s.pages| - 1].accepted
  }

  // What queueing one message does to the page, as the loop's Consider does it.
  lemma QueuedCommit(p: Progress, i: nat, msg: RemoteMessage, accepted: bool, inline: bool, lastSeq: string)
    requires msg.Advances(lastSeq)
    ensures var q, hook := Consider(p, i, msg, lastSeq, accepted), |p.commit.fired|;
            && (q.queued != [] <==> p.queued != [] || (msg.Tracked() && accepted))
            && q.commit == match OutcomeOf(msg, accepted, inline)
                           case Skip => p.commit
                           case Accepted => p.commit.Track()
                           case _ => p.commit.Track().CallHook(hook)
  {
  }

  lemma QueuedPage(t: Protocol.State, outcome: Protocol.Outcome, pos: int, more: seq<int>, page: Protocol.Page, commit: Commit)
    requires t.poll == Protocol.Queueing([pos] + more) && t.pages != [] && page == t.pages[|t.pages| - 1]
    requires var hook := |page.commit.fired|;
             commit == match outcome
                       case Skip => page.commit
                       case Accepted => page.commit.Track()
                       case _ => page.commit.Track().CallHook(hook)
    ensures var step := Protocol.Queue(outcome);
            && Protocol.Enabled(t, step) && var next := Protocol.Next(t, step);
               && next.poll == Protocol.Queueing(more) && next.cursors == t.cursors
               && next.log == t.log && next.db == t.db && next.row == t.row
               && next.pages == t.pages[|t.pages| - 1 := page.(commit := commit, accepted := page.accepted || outcome.Accepted?)]
               && Positions(next.fifo) == Positions(t.fifo) + if outcome.Accepted? then [pos] else []
  {
    assert ([pos] + more)[1..] == more;
    PositionsAppend(t.fifo, Protocol.Event(pos, |t.pages| - 1, |page.commit.fired|));
    assert t.pages == t.pages[|t.pages| - 1 := page];
    assert Positions(t.fifo) + [] == Positions(t.fifo);
  }

  // One new message more.
  lemma QueueOneMore(s: Protocol.State, t: Protocol.State, p: Progress, queued: seq<int>, i: nat, msg: RemoteMessage,
                     accepted: bool, inline: bool, lastSeq: string, more: seq<int>)
    requires s.pages != [] && msg.Advances(lastSeq) && PageQueued(s, t, p, queued, [Key(msg.Seq())] + more)
    ensures var step := Protocol.Queue(OutcomeOf(msg, accepted, inline));
            && Protocol.Enabled(t, step)
            && PageQueued(s, Protocol.Next(t, step), Consider(p, i, msg, lastSeq, accepted),
                          queued + (if msg.Tracked() && accepted then [Key(msg.Seq())] else []), more)
  {
    var q, pos := Consider(p, i, msg, lastSeq, accepted), Key(msg.Seq());
    QueuedCommit(p, i, msg, accepted, inline, lastSeq);
    QueuedPage(t, OutcomeOf(msg, accepted, inline), pos, more, t.pages[|t.pages| - 1], q.commit);
    PositionsRegroup(Positions(s.fifo), queued, if msg.Tracked() && accepted then [pos] else []);
  }

  lemma PositionsRegroup(a: seq<int>, b: seq<int>, c: seq<int>)
    ensures a + b + c == a + (b + c)
  {
  }

  lemma {:induction false} QueueingRefines(s: Protocol.State, msgs: seq<RemoteMessage>, accepts: seq<bool>,
                                           inline: seq<bool>, lastSeq: string, more: seq<int>)
    requires |accepts| == |inline| == |msgs| && Opened(s, NewPositions(msgs, lastSeq) + more)
    ensures var steps := QueueSteps(msgs, accepts, inline, lastSeq);
            && Protocol.Run(s, steps)
            && PageQueued(s, Protocol.After(s, steps), Scan(msgs, accepts, lastSeq),
                          QueuedPositions(msgs, accepts, lastSeq), more)
  {
    if msgs == [] {
      assert NewPositions(msgs, lastSeq) + more == more && Positions(s.fifo) + [] == Positions(s.fifo);
      assert s.pages == s.pages[|s.pages| - 1 := s.pages[|s.pages| - 1].(commit := NEW_COMMIT, accepted := false)];
    } else {
      var n := |msgs| - 1;
      var first := QueueSteps(msgs[..n], accepts[..n], inline[..n], lastSeq);
      if msgs[n].Advances(lastSeq) {
        var pos, step := Key(msgs[n].Seq()), Protocol.Queue(OutcomeOf(msgs[n], accepts[n], inline[n]));
        assert NewPositions(msgs, lastSeq) + more == NewPositions(msgs[..n], lastSeq) + ([pos] + more);
        QueueingRefines(s, msgs[..n], accepts[..n], inline[..n], lastSeq, [pos] + more);
        var t := Protocol.After(s, first);
        QueueOneMore(s, t, Scan(msgs[..n], accepts[..n], lastSeq), QueuedPositions(msgs[..n], accepts[..n], lastSeq),
                     n, msgs[n], accepts[n], inline[n], lastSeq, more);
        OneStep(t, step);
        Protocol.RunConcat(s, first, [step]);
      } else {
        assert NewPositions(msgs, lastSeq) == NewPositions(msgs[..n], lastSeq);
        QueueingRefines(s, msgs[..n], accepts[..n], inline[..n], lastSeq, more);
        assert QueueSteps(msgs, accepts, inline, lastSeq) == first;
        assert QueuedPositions(msgs, accepts, lastSeq) == QueuedPositions(msgs[..n], accepts[..n], lastSeq);
      }
    }
  }

  lemma OneStep(s: Protocol.State, step: Protocol.Step)
    requires Protocol.Enabled(s, step)
    ensures Protocol.Run(s, [step]) && Protocol.After(s, [step]) == Protocol.Next(s, step)
  {
    assert [step][1..] == [];
  }

  lemma {:induction false} NewPositionMembers(msgs: seq<RemoteMessage>, lastSeq: string, p: int)
    ensures p in NewPositions(msgs, lastSeq) <==> exists m :: m in msgs && m.Advances(lastSeq) && Key(m.Seq()) == p
  {
    if msgs != [] {
      var n := |msgs| - 1;
      NewPositionMembers(msgs[..n], lastSeq, p);
      assert msgs == msgs[..n] + [msgs[n]];
    }
  }

  // The page's end is its newest position.
  lemma EndIsNewest(msgs: seq<RemoteMessage>, accepts: seq<bool>, lastSeq: string)
    requires |accepts| == |msgs| && NumberedPage(msgs, lastSeq)
    requires NewPositions(msgs, lastSeq) != [] && forall p | p in NewPositions(msgs, lastSeq) :: p >= 0
    ensures Scan(msgs, accepts, lastSeq).maxSeq != ""
    ensures Protocol.MaxOf(NewPositions(msgs, lastSeq)) == Key(Scan(msgs, accepts, lastSeq).maxSeq)
  {
    var end, max := Scan(msgs, accepts, lastSeq).maxSeq, Protocol.MaxOf(NewPositions(msgs, lastSeq));
    ScanEndsPage(msgs, accepts, lastSeq);
    Protocol.MaxOfBounds(NewPositions(msgs, lastSeq));
    NewPositionMembers(msgs, lastSeq, max);
    NewPositionMembers(msgs, lastSeq, Key(end));
    var m :| m in msgs && m.Advances(lastSeq) && Key(m.Seq()) == max;
    assert IsSequenceID(end) by {
      if end != "" {
        var e :| e in msgs && e.Advances(lastSeq) && e.Seq() == end;
      }
    }
    CompareIsKeyOrder(m.Seq(), end);
  }

  // A page is fetched and its messages queued.
  lemma FetchAndQueue(s: Protocol.State, msgs: seq<RemoteMessage>, accepts: seq<bool>, inline: seq<bool>, lastSeq: string)
    requires |accepts| == |inline| == |msgs|
    requires Protocol.Enabled(s, Protocol.Fetched(NewPositions(msgs, lastSeq)))
    ensures var got, p := NewPositions(msgs, lastSeq), Scan(msgs, accepts, lastSeq);
            var steps := [Protocol.Fetched(got)] + QueueSteps(msgs, accepts, inline, lastSeq);
            && Protocol.Run(s, steps) && var t := Protocol.After(s, steps);
               && t.poll == Protocol.Queueing([]) && t.db == s.db && t.cursors == s.cursors
               && t.pages == s.pages + [Protocol.Page(Protocol.MaxOf(got), p.commit, p.queued != [], false)]
               && Positions(t.fifo) == Positions(s.fifo) + QueuedPositions(msgs, accepts, lastSeq)
  {
    var got, p := NewPositions(msgs, lastSeq), Scan(msgs, accepts, lastSeq);
    var s1 := Protocol.Next(s, Protocol.Fetched(got));
    OneStep(s, Protocol.Fetched(got));
    assert got + [] == got;
    QueueingRefines(s1, msgs, accepts, inline, lastSeq, []);
    Protocol.RunConcat(s, [Protocol.Fetched(got)], QueueSteps(msgs, accepts, inline, lastSeq));
    PageAtEnd(s.pages, s1.pages[|s.pages|], p);
  }

  lemma PageAtEnd(pages: seq<Protocol.Page>, page: Protocol.Page, p: Progress)
    ensures (pages + [page])[|pages| := page.(commit := p.commit, accepted := p.queued != [])] ==
            pages + [page.(commit := p.commit, accepted := p.queued != [])]
  {
  }

  // A page with new messages, queued by the loop, is the protocol's fetch of
  // their positions, one step for each, the note and the release: the same
  // commit, the same queued position, the same events in the portal's queue.
  lemma PageIsProtocolRun(s: Protocol.State, msgs: seq<RemoteMessage>, accepts: seq<bool>, inline: seq<bool>, lastSeq: string)
    requires |accepts| == |inline| == |msgs| && NumberedPage(msgs, lastSeq)
    requires Protocol.Enabled(s, Protocol.Fetched(NewPositions(msgs, lastSeq)))
    requires forall p | p in s.log :: p >= 0
    ensures var p := Scan(msgs, accepts, lastSeq);
            var steps := [Protocol.Fetched(NewPositions(msgs, lastSeq))] + QueueSteps(msgs, accepts, inline, lastSeq)
                         + [Protocol.Note, Protocol.Release];
            && Protocol.Run(s, steps) && var t := Protocol.After(s, steps);
               && t.poll.Idle? && t.db == s.db && t.cursors == s.cursors.NoteQueued(Key(p.maxSeq))
               && t.pages == s.pages + [Protocol.Page(Key(p.maxSeq), p.commit.Arm().GiveUp(), p.queued != [], false)]
               && Positions(t.fifo) == Positions(s.fifo) + QueuedPositions(msgs, accepts, lastSeq)
  {
    var steps := [Protocol.Fetched(NewPositions(msgs, lastSeq))] + QueueSteps(msgs, accepts, inline, lastSeq);
    EndIsNewest(msgs, accepts, lastSeq);
    FetchAndQueue(s, msgs, accepts, inline, lastSeq);
    var t := Protocol.After(s, steps);
    NoteAndRelease(t);
    Protocol.RunConcat(s, steps, [Protocol.Note, Protocol.Release]);
    LastPage(s.pages, t.pages[|s.pages|]);
  }

  lemma LastPage(pages: seq<Protocol.Page>, page: Protocol.Page)
    ensures (pages + [page])[|pages| := page.(commit := page.commit.Arm().GiveUp())] ==
            pages + [page.(commit := page.commit.Arm().GiveUp())]
  {
  }

  // The positions are above the base the fetch starts from.
  lemma NewPositionsAreNew(msgs: seq<RemoteMessage>, lastSeq: string)
    requires NumberedPage(msgs, lastSeq)
    ensures forall p | p in NewPositions(msgs, lastSeq) && p >= 0 :: p > Key(lastSeq)
  {
    forall p | p in NewPositions(msgs, lastSeq) && p >= 0
      ensures p > Key(lastSeq)
    {
      NewPositionMembers(msgs, lastSeq, p);
      var m :| m in msgs && m.Advances(lastSeq) && Key(m.Seq()) == p;
      CompareIsKeyOrder(m.Seq(), lastSeq);
    }
  }

  lemma NoteAndRelease(s: Protocol.State)
    requires s.poll == Protocol.Queueing([]) && s.pages != []
    ensures Protocol.Run(s, [Protocol.Note, Protocol.Release])
    ensures var page, at := s.pages[|s.pages| - 1], |s.pages| - 1;
            Protocol.After(s, [Protocol.Note, Protocol.Release]) ==
            s.(poll := Protocol.Idle, cursors := s.cursors.NoteQueued(page.hi),
               pages := s.pages[at := page.(commit := page.commit.Arm().GiveUp())])
  {
    var s1 := Protocol.Next(s, Protocol.Note);
    OneStep(s, Protocol.Note);
    OneStep(s1, Protocol.Release);
    assert [Protocol.Note, Protocol.Release] == [Protocol.Note] + [Protocol.Release];
    Protocol.RunConcat(s, [Protocol.Note], [Protocol.Release]);
  }
}
