/** When a poll takes up messages this client has taken up before: rows are
    read once per pass, and may be stale by the time a thread's turn comes. */
module QueuedOnce {
  import opened Text
  import opened DeliveryProtocol

  // ----- what a lookup can have passed -----

  // A page that has been noted: any but the one being queued.
  predicate IsNoted(s: State, g: nat) {
    g < |s.pages| && !(s.poll.Queueing? && g == |s.pages| - 1)
  }

  // What is saved is some page's end, and a noted page's end is no newer than
  // what is saved or queued.
  ghost predicate EndsInv(s: State) {
    && (s.cursors.saved == -1 || exists g :: 0 <= g < |s.pages| && s.pages[g].hi == s.cursors.saved)
    && (forall g: nat | IsNoted(s, g) ::
          s.pages[g].hi <= s.cursors.saved ||
          (s.cursors.queued.Some? && s.pages[g].hi <= s.cursors.queued.value))
  }

  predicate SameEnds(pages: seq<Page>, more: seq<Page>) {
    |more| >= |pages| && forall g | 0 <= g < |pages| :: more[g].hi == pages[g].hi
  }

  // Steps that leave what is saved and queued alone and note no page.
  lemma EndsKept(s: State, t: State)
    requires EndsInv(s) && t.cursors == s.cursors && SameEnds(s.pages, t.pages)
    requires forall g: nat | IsNoted(t, g) :: IsNoted(s, g)
    ensures EndsInv(t)
  {
    if s.cursors.saved != -1 {
      var g :| 0 <= g < |s.pages| && s.pages[g].hi == s.cursors.saved;
      assert t.pages[g].hi == t.cursors.saved;
    }
  }

  lemma KeepsPages(s: State, step: Step)
    requires Enabled(s, step) && !step.Fetched? && !step.Crash?
    ensures |Next(s, step).pages| == |s.pages| && SameEnds(s.pages, Next(s, step).pages)
  {
  }

  lemma EndsNote(s: State)
    requires EndsInv(s) && Enabled(s, Note)
    ensures EndsInv(Next(s, Note))
  {
    var t := Next(s, Note);
    forall g: nat | IsNoted(t, g)
      ensures t.pages[g].hi <= t.cursors.saved || t.pages[g].hi <= t.cursors.queued.value
    {
      assert g < |s.pages| - 1 ==> IsNoted(s, g);
    }
  }

  lemma EndsSaveEnd(s: State)
    requires CursorInv(s) && EndsInv(s) && Enabled(s, SaveEnd)
    ensures EndsInv(Next(s, SaveEnd))
  {
    var t := Next(s, SaveEnd);
    assert t.pages[s.saver.value].hi == t.cursors.saved;
    assert forall g: nat | IsNoted(t, g) :: IsNoted(s, g);
  }

  lemma EndsOther(s: State, step: Step)
    requires EndsInv(s) && Enabled(s, step)
    requires !step.Fetched? && !step.Note? && !step.SaveEnd? && !step.Crash?
    ensures EndsInv(Next(s, step))
  {
    var t := Next(s, step);
    KeepsPages(s, step);
    assert t.poll.Queueing? == s.poll.Queueing?;
    EndsKept(s, t);
  }

  lemma EndsStep(s: State, step: Step)
    requires CursorInv(s) && EndsInv(s) && Enabled(s, step)
    ensures EndsInv(Next(s, step))
  {
    match step
    case Note => EndsNote(s);
    case SaveEnd => EndsSaveEnd(s);
    case Crash =>
    case Fetched(_) => EndsKept(s, Next(s, step));
    case _ => EndsOther(s, step);
  }

  // The fetch after a lookup starts at or past the end of every page this
  // client has queued, exactly if it starts at or past the one last saved. A
  // row read fresh meets that.
  lemma LookupPassesEveryPageExactly(s: State)
    requires CursorInv(s) && EndsInv(s) && Enabled(s, Lookup)
    ensures (forall g | 0 <= g < |s.pages| :: s.pages[g].hi <= s.Base()) <==> s.cursors.saved <= s.Base()
    ensures s.row == s.db ==> s.cursors.saved <= s.Base() == s.Front()
  {
    assert forall g | 0 <= g < |s.pages| :: IsNoted(s, g);
  }

  // ----- messages taken up in this client's life -----

  // The positions the page loop has taken up since the last start.
  function TakenNext(s: State, step: Step, taken: set<int>): set<int>
    requires Enabled(s, step)
  {
    if step.Queue? then taken + {s.poll.todo[0]}
    else if step.Crash? then {}
    else taken
  }

  function Taken(s: State, steps: seq<Step>, taken: set<int>): set<int>
    requires Run(s, steps)
    decreases steps
  {
    if steps == [] then taken else Taken(Next(s, steps[0]), steps[1..], TakenNext(s, steps[0], taken))
  }

  // Nothing taken up is newer than every page's end.
  ghost predicate Bounded(pages: seq<Page>, taken: set<int>) {
    forall p | p in taken :: exists g :: 0 <= g < |pages| && p <= pages[g].hi
  }

  // A page that has been noted has been taken up to its end.
  ghost predicate EndsTaken(s: State, taken: set<int>) {
    forall g: nat | IsNoted(s, g) :: s.pages[g].hi in taken
  }

  // The end of the page being queued is taken up, or still to be.
  ghost predicate OpenEnd(s: State, taken: set<int>) {
    s.poll.Queueing? && s.pages != [] ==> EndsAt(s.pages[|s.pages| - 1].hi, s.poll.todo, taken)
  }

  ghost predicate EndsAt(hi: int, todo: seq<int>, taken: set<int>) {
    (hi in taken || hi in todo) && forall p | p in todo :: p <= hi
  }

  ghost predicate TakenInv(s: State, taken: set<int>) {
    Bounded(s.pages, taken) && EndsTaken(s, taken) && OpenEnd(s, taken)
  }

  lemma BoundedKept(pages: seq<Page>, more: seq<Page>, taken: set<int>)
    requires Bounded(pages, taken) && SameEnds(pages, more)
    ensures Bounded(more, taken)
  {
    forall p | p in taken
      ensures exists g :: 0 <= g < |more| && p <= more[g].hi
    {
      var g :| 0 <= g < |pages| && p <= pages[g].hi;
      assert p <= more[g].hi;
    }
  }

  lemma BoundedMore(pages: seq<Page>, taken: set<int>, p0: int)
    requires Bounded(pages, taken) && pages != [] && p0 <= pages[|pages| - 1].hi
    ensures Bounded(pages, taken + {p0})
  {
  }

  lemma TakenKept(s: State, t: State, taken: set<int>)
    requires TakenInv(s, taken) && |t.pages| == |s.pages| && SameEnds(s.pages, t.pages)
    requires forall g: nat | IsNoted(t, g) :: IsNoted(s, g)
    requires t.poll.Queueing? ==> t.poll == s.poll
    ensures TakenInv(t, taken)
  {
    BoundedKept(s.pages, t.pages, taken);
  }

  lemma TakenFetched(s: State, got: seq<int>, taken: set<int>)
    requires TakenInv(s, taken) && Enabled(s, Fetched(got))
    ensures TakenInv(Next(s, Fetched(got)), taken)
  {
    var t := Next(s, Fetched(got));
    MaxOfBounds(got);
    BoundedKept(s.pages, t.pages, taken);
    assert forall g: nat | IsNoted(t, g) :: IsNoted(s, g) && t.pages[g] == s.pages[g];
  }

  lemma EndsAtRest(hi: int, todo: seq<int>, taken: set<int>)
    requires todo != [] && EndsAt(hi, todo, taken)
    ensures EndsAt(hi, todo[1..], taken + {todo[0]}) && todo[0] <= hi
  {
    var first, rest := todo[0], todo[1..];
    assert todo == [first] + rest && first in todo;
    assert forall p :: p in todo <==> p == first || p in rest;
  }

  lemma BoundedFirst(pages: seq<Page>, more: seq<Page>, taken: set<int>, p0: int)
    requires Bounded(pages, taken) && |more| == |pages| && SameEnds(pages, more)
    requires pages != [] && p0 <= pages[|pages| - 1].hi
    ensures Bounded(more, taken + {p0})
  {
    BoundedKept(pages, more, taken);
    assert more[|pages| - 1].hi == pages[|pages| - 1].hi;
    BoundedMore(more, taken, p0);
  }

  lemma EndsTakenFirst(s: State, t: State, taken: set<int>, p0: int)
    requires EndsTaken(s, taken) && |t.pages| == |s.pages| && SameEnds(s.pages, t.pages)
    requires t.poll.Queueing? == s.poll.Queueing?
    ensures EndsTaken(t, taken + {p0})
  {
    assert forall g: nat | IsNoted(t, g) :: IsNoted(s, g) && t.pages[g].hi in taken;
  }

  // The first message of the page being queued is taken up.
  lemma TakenFirst(s: State, t: State, taken: set<int>)
    requires TakenInv(s, taken) && s.poll.Queueing? && s.poll.todo != [] && s.pages != []
    requires t.poll == Queueing(s.poll.todo[1..]) && |t.pages| == |s.pages| && SameEnds(s.pages, t.pages)
    ensures TakenInv(t, taken + {s.poll.todo[0]})
  {
    var at, todo := |s.pages| - 1, s.poll.todo;
    assert t.pages[at].hi == s.pages[at].hi;
    EndsAtRest(s.pages[at].hi, todo, taken);
    BoundedFirst(s.pages, t.pages, taken, todo[0]);
    EndsTakenFirst(s, t, taken, todo[0]);
  }

  lemma QueueTakesFirst(s: State, outcome: Outcome)
    requires Enabled(s, Queue(outcome))
    ensures Next(s, Queue(outcome)).poll == Queueing(s.poll.todo[1..])
  {
  }

  lemma TakenNote(s: State, taken: set<int>)
    requires TakenInv(s, taken) && Enabled(s, Note)
    ensures TakenInv(Next(s, Note), taken)
  {
    var t := Next(s, Note);
    assert s.pages[|s.pages| - 1].hi in taken;
    forall g: nat | IsNoted(t, g)
      ensures t.pages[g].hi in taken
    {
      assert g < |s.pages| - 1 ==> IsNoted(s, g);
    }
  }

  // No other step takes a message up, adds a page or notes one.
  lemma TakenOther(s: State, step: Step, taken: set<int>)
    requires TakenInv(s, taken) && Enabled(s, step)
    requires !step.Fetched? && !step.Queue? && !step.Note? && !step.Crash?
    ensures TakenInv(Next(s, step), taken)
  {
    var t := Next(s, step);
    KeepsPages(s, step);
    assert t.poll == s.poll || (!t.poll.Queueing? && !s.poll.Queueing?);
    TakenKept(s, t, taken);
  }

  lemma TakenStep(s: State, step: Step, taken: set<int>)
    requires TakenInv(s, taken) && Enabled(s, step)
    ensures TakenInv(Next(s, step), TakenNext(s, step, taken))
  {
    match step
    case Fetched(got) => TakenFetched(s, got, taken);
    case Queue(outcome) =>
      KeepsPages(s, step);
      QueueTakesFirst(s, outcome);
      TakenFirst(s, Next(s, step), taken);
    case Note => TakenNote(s, taken);
    case Crash =>
    case _ => TakenOther(s, step, taken);
  }

  ghost predicate LifeInv(s: State, taken: set<int>) {
    CursorInv(s) && EndsInv(s) && TakenInv(s, taken)
  }

  lemma LifeStep(s: State, step: Step, taken: set<int>)
    requires LifeInv(s, taken) && Enabled(s, step)
    ensures LifeInv(Next(s, step), TakenNext(s, step, taken))
  {
    CursorInvStep(s, step);
    EndsStep(s, step);
    TakenStep(s, step, taken);
  }

  lemma {:induction false} LifeHolds(s: State, steps: seq<Step>, taken: set<int>)
    requires LifeInv(s, taken) && Run(s, steps)
    ensures LifeInv(After(s, steps), Taken(s, steps, taken))
    decreases steps
  {
    if steps != [] {
      LifeStep(s, steps[0], taken);
      LifeHolds(Next(s, steps[0]), steps[1..], TakenNext(s, steps[0], taken));
    }
  }

  lemma LifeBegins()
    ensures LifeInv(INITIAL, {})
  {
  }

  // A fetch that starts at or past what is saved returns no message taken up before.
  lemma FetchIsNew(s: State, taken: set<int>, got: seq<int>, p: int)
    requires LifeInv(s, taken) && Enabled(s, Lookup) && s.cursors.saved <= s.Base()
    requires Enabled(Next(s, Lookup), Fetched(got)) && p in got
    ensures p !in taken
  {
    LookupPassesEveryPageExactly(s);
  }

  ghost predicate ReturnsAll(s: State, got: seq<int>) {
    forall p | p in s.log && p > s.Base() :: p in got
  }

  // After every run, however its pages were saved and its rows read: a lookup
  // can lead to a message of this client's life being taken up again exactly
  // if what it starts from is older than what was saved last; and then every
  // fetch that returns all there is above does so.
  lemma TakesUpAgainExactly(steps: seq<Step>)
    requires Run(INITIAL, steps) && Enabled(After(INITIAL, steps), Lookup)
    ensures var s, taken := After(INITIAL, steps), Taken(INITIAL, steps, {});
            && ((exists got, p :: Enabled(Next(s, Lookup), Fetched(got)) && p in got && p in taken) <==>
                s.cursors.saved > s.Base())
            && (s.cursors.saved > s.Base() ==>
                forall got | ReturnsAll(s, got) :: exists p :: p in got && p in taken)
  {
    var s, taken := After(INITIAL, steps), Taken(INITIAL, steps, {});
    LifeBegins();
    LifeHolds(INITIAL, steps, {});
    if s.cursors.saved > s.Base() {
      SavedIsTaken(s, taken);
      assert Enabled(Next(s, Lookup), Fetched([s.cursors.saved]));
      assert s.cursors.saved in [s.cursors.saved];
    } else {
      forall got, p | Enabled(Next(s, Lookup), Fetched(got)) && p in got
        ensures p !in taken
      {
        FetchIsNew(s, taken, got, p);
      }
    }
  }

  lemma SavedIsTaken(s: State, taken: set<int>)
    requires LifeInv(s, taken) && Enabled(s, Lookup) && s.cursors.saved > s.Base()
    ensures s.cursors.saved in taken && s.cursors.saved in s.log
  {
    var g :| 0 <= g < |s.pages| && s.pages[g].hi == s.cursors.saved;
    assert IsNoted(s, g);
  }

  // ----- whole runs -----

  ghost predicate NoRepeats(s: seq<int>) {
    forall i, j | 0 <= i < j < |s| :: s[i] != s[j]
  }

  // Every lookup of the run meets the guard, and no fetch returns a message twice.
  ghost predicate GuardedRun(s: State, steps: seq<Step>)
    requires Run(s, steps)
    decreases steps
  {
    steps == [] || (
      && (steps[0].Lookup? ==> s.cursors.saved <= s.Base())
      && (steps[0].Fetched? ==> NoRepeats(steps[0].got))
      && GuardedRun(Next(s, steps[0]), steps[1..]))
  }

  // No message is taken up that was taken up before in the same client's life.
  ghost predicate TakenOnce(s: State, steps: seq<Step>, taken: set<int>)
    requires Run(s, steps)
    decreases steps
  {
    steps == [] || (
      && (steps[0].Queue? ==> s.poll.todo[0] !in taken)
      && TakenOnce(Next(s, steps[0]), steps[1..], TakenNext(s, steps[0], taken)))
  }

  // The fetch under way starts past what was taken up, and what a page still
  // holds is new.
  ghost predicate AheadInv(s: State, taken: set<int>) {
    && (s.poll.Fetching? ==> forall p | p in taken :: p <= s.poll.base)
    && (s.poll.Queueing? ==> NoRepeats(s.poll.todo) && forall p | p in s.poll.todo :: p !in taken)
  }

  lemma AheadLookup(s: State, taken: set<int>)
    requires LifeInv(s, taken) && Enabled(s, Lookup) && s.cursors.saved <= s.Base()
    ensures AheadInv(Next(s, Lookup), taken)
  {
    LookupPassesEveryPageExactly(s);
  }

  lemma AheadFirst(s: State, t: State, taken: set<int>)
    requires AheadInv(s, taken) && s.poll.Queueing? && s.poll.todo != [] && t.poll == Queueing(s.poll.todo[1..])
    ensures AheadInv(t, taken + {s.poll.todo[0]})
  {
    assert s.poll.todo == [s.poll.todo[0]] + s.poll.todo[1..];
  }

  lemma AheadStep(s: State, step: Step, taken: set<int>)
    requires LifeInv(s, taken) && AheadInv(s, taken) && Enabled(s, step)
    requires step.Lookup? ==> s.cursors.saved <= s.Base()
    requires step.Fetched? ==> NoRepeats(step.got)
    ensures AheadInv(Next(s, step), TakenNext(s, step, taken))
    ensures step.Queue? ==> s.poll.todo[0] !in taken
  {
    match step
    case Lookup => AheadLookup(s, taken);
    case Queue(outcome) =>
      QueueTakesFirst(s, outcome);
      AheadFirst(s, Next(s, step), taken);
    case _ =>
  }

  lemma {:induction false} AheadHolds(s: State, steps: seq<Step>, taken: set<int>)
    requires LifeInv(s, taken) && AheadInv(s, taken) && Run(s, steps) && GuardedRun(s, steps)
    ensures TakenOnce(s, steps, taken)
    decreases steps
  {
    if steps != [] {
      LifeStep(s, steps[0], taken);
      AheadStep(s, steps[0], taken);
      AheadHolds(Next(s, steps[0]), steps[1..], TakenNext(s, steps[0], taken));
    }
  }

  // If every lookup of a run meets the guard, no message is queued twice in a
  // client's life, in any order of handling, saving and failing.
  lemma GuardedRunsQueueOnce(steps: seq<Step>)
    requires Run(INITIAL, steps) && GuardedRun(INITIAL, steps)
    ensures TakenOnce(INITIAL, steps, {})
  {
    LifeBegins();
    AheadHolds(INITIAL, steps, {});
  }
}
