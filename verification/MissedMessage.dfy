/** A run in which a poll misses a message for good, though its pages meet the release guard. */
module MissedMessage {
  import opened Text
  import CursorSaving
  import opened CatchUp
  import opened DeliveryProtocol
  import opened CompleteFetches

  // A run with fetches of ListMessages, events handled in order and pages that
  // meet the release guard leads from one state to the other.
  ghost predicate Leads(s: State, steps: seq<Step>, t: State) {
    Run(s, steps) && OrderedRun(s, steps) && ListedRun(s, steps) && After(s, steps) == t
  }

  ghost predicate CanLead(s: State, t: State) {
    exists steps :: Leads(s, steps, t)
  }

  ghost predicate IsListed(s: State, got: seq<int>) {
    exists h, pageSize, refused, first :: Listed(s, got, h, pageSize, refused, first)
  }

  lemma OneStep(s: State, step: Step, t: State)
    requires Enabled(s, step) && Next(s, step) == t && InOrder(s, step) && (step.Fetched? ==> IsListed(s, step.got))
    ensures CanLead(s, t)
  {
    var steps := [step];
    var rest := steps[1..];
    assert rest == [];
    assert Run(t, rest) && OrderedRun(t, rest) && ListedRun(t, rest) && After(t, rest) == t;
    assert Leads(s, steps, t);
  }

  lemma {:induction false} LeadsOn(s: State, first: seq<Step>, t: State, second: seq<Step>, u: State)
    requires Leads(s, first, t) && Leads(t, second, u)
    ensures Leads(s, first + second, u)
    decreases first
  {
    if first == [] {
      assert first + second == second;
    } else {
      LeadsOn(Next(s, first[0]), first[1..], t, second, u);
      assert (first + second)[1..] == first[1..] + second;
    }
  }

  lemma GoOn(s: State, t: State, u: State)
    requires CanLead(s, t) && CanLead(t, u)
    ensures CanLead(s, u)
  {
    var first :| Leads(s, first, t);
    var second :| Leads(t, second, u);
    LeadsOn(s, first, t, second, u);
  }

  lemma NextStep(s: State, t: State, step: Step, u: State)
    requires CanLead(s, t) && Enabled(t, step) && Next(t, step) == u && InOrder(t, step)
    requires step.Fetched? ==> IsListed(t, step.got)
    ensures CanLead(s, u)
  {
    OneStep(t, step, u);
    GoOn(s, t, u);
  }

  // ----- what is fetched -----

  // Messages 1 to 3; the third comes at 3 ms, the second by then.
  function Three(second: nat): seq<Message> {
    [Message(1, 1, 1, true), Message(2, 2, second, true), Message(3, 3, 3, true)]
  }

  // Read in pages of one, the second is not asked for if it is of the same
  // millisecond as the third, nor returned if its page is refused.
  ghost predicate SecondIsMissed(second: nat, refused: set<nat>) {
    1 < second <= 3 && 0 !in refused && (second == 3 || 1 in refused)
  }

  lemma ThirdIsListed(second: nat, refused: set<nat>)
    requires SecondIsMissed(second, refused)
    ensures Listing(Three(second), 1, 1, refused, 0) ==
            if 1 in refused then [Three(second)[2]] else [Three(second)[0], Three(second)[2]]
  {
    var h := Three(second);
    var w1, w2 := Walk(if second == 3 then 1 else 2, false, [h[2]]),
                  if 1 in refused then Walk(if second == 3 then 1 else 2, true, [h[2]]) else Walk(0, true, [h[0], h[2]]);
    PageEndExactly(h, 2);
    assert h[2..3] + [] == [h[2]] && h[0..1] + [h[2]] == [h[0], h[2]];
    OnePageMore(h, 1, 1, refused, 0, 0, 0, Walk(3, false, []), w1);
    OnePageMore(h, 1, 1, refused, 0, 1, 1, w1, w2);
    DoneIsFinal(h, 1, 1, refused, 0, 2, MAX_CATCHUP_PAGES);
  }

  lemma AboveOne(first: Message, third: Message)
    requires first.pos == 1 && third.pos == 3
    ensures Above([third], 1) == [3] && Above([first, third], 1) == [3]
  {
    assert [first, third][..1] == [first] && [third][..0] == [] && [first][..0] == [];
    assert Above([first], 1) == [];
  }

  lemma HoldsOneToThree(second: nat)
    ensures forall p :: p in {1, 2, 3} <==> HasPosition(Three(second), p)
  {
    var h := Three(second);
    assert h[0].pos == 1 && h[1].pos == 2 && h[2].pos == 3;
  }

  lemma ThirdAlone(s: State, second: nat, refused: set<nat>)
    requires SecondIsMissed(second, refused) && s.poll == Fetching(1) && s.log == {1, 2, 3}
    ensures IsListed(s, [3])
  {
    ThirdIsListed(second, refused);
    AboveOne(Three(second)[0], Three(second)[2]);
    HoldsOneToThree(second);
    assert Listed(s, [3], Three(second), 1, refused, 0);
  }

  lemma FirstAlone(s: State)
    requires s.poll == Fetching(NO_CURSOR) && s.log == {1}
    ensures IsListed(s, [1])
  {
    var h := [Message(1, 1, 1, true)];
    CollectedNewestExactly(h, 1, {}, 0);
    assert h[PageStart(1, 1)..] == h && h[..0] == [] && h[0].pos == 1;
    assert Above(h, NO_CURSOR) == Above([], NO_CURSOR) + [1] == [1];
    assert Listed(s, [1], h, 1, {}, 0);
  }

  // ----- the run -----

  // Message 1 is fetched, queued and its page released.
  lemma QueuesOne()
    ensures CanLead(INITIAL, ONE_QUEUED)
  {
    FirstIsFetched();
    FirstIsQueued();
    GoOn(INITIAL, ONE_FETCHED, ONE_QUEUED);
  }

  lemma FirstIsFetched()
    ensures CanLead(INITIAL, ONE_FETCHED)
  {
    var s1 := INITIAL.(log := {1});
    OneStep(INITIAL, Append(1), s1);
    NextStep(INITIAL, s1, Lookup, FETCHING_ONE);
    FirstAlone(FETCHING_ONE);
    FetchesOne();
    NextStep(INITIAL, FETCHING_ONE, Fetched([1]), ONE_FETCHED);
  }

  const FETCHING_ONE := INITIAL.(log := {1}, poll := Fetching(NO_CURSOR))

  lemma FetchesOne()
    ensures Enabled(FETCHING_ONE, Fetched([1])) && Next(FETCHING_ONE, Fetched([1])) == ONE_FETCHED
  {
    assert MaxOf([1]) == 1;
  }

  lemma FirstIsQueued()
    ensures CanLead(ONE_FETCHED, ONE_QUEUED)
  {
    var s1 := ONE_FETCHED.(poll := Queueing([]), fifo := [Event(1, 0, 0)],
                           pages := [Page(1, CursorSaving.Commit(2, [false], false, false, 0, false), true, false)]);
    var s2 := s1.(poll := Noted, cursors := CursorSaving.CursorView(Some(1), -1));
    assert [1][1..] == [] && CursorSaving.NEW_COMMIT.fired + [false] == [false];
    assert ONE_FETCHED.fifo + [Event(1, 0, 0)] == s1.fifo && ONE_FETCHED.pages[0 := s1.pages[0]] == s1.pages;
    assert QueueNext(ONE_FETCHED, Accepted) == s1;
    OneStep(ONE_FETCHED, Queue(Accepted), s1);
    NextStep(ONE_FETCHED, s1, Note, s2);
    NextStep(ONE_FETCHED, s2, Release, ONE_QUEUED);
  }

  // Messages 2 and 3 arrive, and the fetch returns the third alone.
  const THREE_FETCHED := ONE_QUEUED.(log := {1, 2, 3}, poll := Queueing([3]), missed := {2},
                                     pages := [ONE_QUEUED.pages[0], Page(3, CursorSaving.NEW_COMMIT, false, false)])

  const FETCHING_THREE := ONE_QUEUED.(log := {1, 2, 3}, poll := Fetching(1))

  lemma ThreeArrive()
    ensures CanLead(ONE_QUEUED, FETCHING_THREE)
  {
    var s1, s2 := ONE_QUEUED.(log := {1, 2}), ONE_QUEUED.(log := {1, 2, 3});
    assert ONE_QUEUED.log + {2} == s1.log && s1.log + {3} == s2.log;
    OneStep(ONE_QUEUED, Append(2), s1);
    NextStep(ONE_QUEUED, s1, Append(3), s2);
    NextStep(ONE_QUEUED, s2, Lookup, FETCHING_THREE);
  }

  lemma PassesTwo()
    ensures Enabled(FETCHING_THREE, Fetched([3])) && Next(FETCHING_THREE, Fetched([3])) == THREE_FETCHED
  {
    assert MaxOf([3]) == 3;
  }

  lemma FetchesThree(second: nat, refused: set<nat>)
    requires SecondIsMissed(second, refused)
    ensures CanLead(FETCHING_THREE, THREE_FETCHED)
  {
    ThirdAlone(FETCHING_THREE, second, refused);
    PassesTwo();
    OneStep(FETCHING_THREE, Fetched([3]), THREE_FETCHED);
  }

  // Its event is queued and the page released.
  const THREE_QUEUED := THREE_FETCHED.(poll := Idle, cursors := CursorSaving.CursorView(Some(3), -1),
                                       fifo := [Event(1, 0, 0), Event(3, 1, 0)],
                                       pages := [ONE_QUEUED.pages[0], Page(3, ONE_QUEUED.pages[0].commit, true, false)])

  lemma QueuesThree()
    ensures CanLead(THREE_FETCHED, THREE_QUEUED)
  {
    var s1 := THREE_FETCHED.(poll := Queueing([]), fifo := THREE_QUEUED.fifo,
                             pages := [ONE_QUEUED.pages[0],
                                       Page(3, CursorSaving.Commit(2, [false], false, false, 0, false), true, false)]);
    var s2 := s1.(poll := Noted, cursors := CursorSaving.CursorView(Some(3), -1));
    assert [3][1..] == [] && CursorSaving.NEW_COMMIT.fired + [false] == [false];
    assert THREE_FETCHED.fifo + [Event(3, 1, 0)] == s1.fifo && THREE_FETCHED.pages[1 := s1.pages[1]] == s1.pages;
    assert QueueNext(THREE_FETCHED, Accepted) == s1;
    OneStep(THREE_FETCHED, Queue(Accepted), s1);
    NextStep(THREE_FETCHED, s1, Note, s2);
    NextStep(THREE_FETCHED, s2, Release, THREE_QUEUED);
  }

  // Both events are handled, the third's page is saved, and the bridge restarts.
  const TWO_MISSED := INITIAL.(log := {1, 2, 3}, db := 3, start := 3, row := 3, handled := {1, 3}, missed := {2})

  lemma SavesThree()
    ensures CanLead(THREE_QUEUED, TWO_MISSED)
  {
    HandlesBoth();
    var s1 := BOTH_HANDLED.(db := 3, saver := Some(1),
                            pages := [BOTH_HANDLED.pages[0], BOTH_HANDLED.pages[1].(tried := true)]);
    OneStep(BOTH_HANDLED, SaveWrite(1), s1);
    NextStep(BOTH_HANDLED, s1, Crash, TWO_MISSED);
    GoOn(THREE_QUEUED, BOTH_HANDLED, TWO_MISSED);
  }

  const SAVE_DUE := CursorSaving.Commit(0, [true], true, true, 1, false)
  const BOTH_HANDLED := THREE_QUEUED.(fifo := [], handled := {1, 3},
                                      pages := [Page(1, SAVE_DUE, true, false), Page(3, SAVE_DUE, true, false)])

  lemma HandlesBoth()
    ensures CanLead(THREE_QUEUED, BOTH_HANDLED)
  {
    var s1 := THREE_QUEUED.(fifo := [Event(3, 1, 0)], handled := {1},
                            pages := [Page(1, SAVE_DUE, true, false), THREE_QUEUED.pages[1]]);
    assert THREE_QUEUED.fifo[..0] + THREE_QUEUED.fifo[1..] == s1.fifo && s1.fifo[..0] + s1.fifo[1..] == [];
    assert [false][0 := true] == [true];
    assert Next(THREE_QUEUED, HandleAt(0)) == s1 && Next(s1, HandleAt(0)) == BOTH_HANDLED;
    OneStep(THREE_QUEUED, HandleAt(0), s1);
    NextStep(THREE_QUEUED, s1, HandleAt(0), BOTH_HANDLED);
  }

  lemma RunMissesTwo(second: nat, refused: set<nat>)
    requires SecondIsMissed(second, refused)
    ensures CanLead(INITIAL, TWO_MISSED)
  {
    QueuesOne();
    ThreeArrive();
    GoOn(INITIAL, ONE_QUEUED, FETCHING_THREE);
    FetchesThree(second, refused);
    GoOn(INITIAL, FETCHING_THREE, THREE_FETCHED);
    QueuesThree();
    GoOn(INITIAL, THREE_FETCHED, THREE_QUEUED);
    SavesThree();
    GoOn(INITIAL, THREE_QUEUED, TWO_MISSED);
  }

  // The saved cursor has passed message 2, which is never taken up, whatever
  // happens later: because it came in the same millisecond as the next one,
  // or because the second page was refused.
  lemma MissedForGood(second: nat, refused: set<nat>, later: seq<Step>)
    requires SecondIsMissed(second, refused) && Run(TWO_MISSED, later)
    ensures CanLead(INITIAL, TWO_MISSED) && 2 in TWO_MISSED.log && 2 <= TWO_MISSED.db
    ensures var end := After(TWO_MISSED, later); 2 !in end.handled + end.dropped + end.skipped
  {
    RunMissesTwo(second, refused);
    LeftOutForGood(TWO_MISSED, later, 2);
  }
}
