/** One thread's messages from Teams through the portal queue to the saved
    cursor, across crashes: a step system over integer positions. */
module DeliveryProtocol {
  import opened Text
  import opened CursorSaving

  // A queued event: the message's position, the page it came on and its hook there.
  datatype Event = Event(pos: int, page: nat, hook: nat)

  // A page with its newest position and its commit; accepted says that an
  // event of it went into the portal queue, tried that its save has run.
  datatype Page = Page(hi: int, commit: Commit, accepted: bool, tried: bool)

  // Where the poll loop is in this thread's poll. The page being queued is the newest.
  datatype Poll = Idle | Fetching(base: int) | Queueing(todo: seq<int>) | Noted

  datatype State = State(
    log: set<int>,             // the thread on Teams
    db: int,                   // the row's cursor; -1 is ""
    start: int,                // the row's cursor when this client started
    row: int,                  // the cursor as the poll loop last read it
    cursors: CursorView,
    poll: Poll,
    pages: seq<Page>,
    fifo: seq<Event>,          // the portal queue
    saver: Option<nat>,        // page whose cursor is written but not noted yet
    handled: set<int>, dropped: set<int>, skipped: set<int>,
    missed: set<int>           // passed by a fetch that did not return them
  ) {
    function Settled(): set<int> {
      handled + dropped + skipped + missed
    }

    // Where the next fetch starts.
    function Base(): int {
      if cursors.queued.Some? && cursors.queued.value > row then cursors.queued.value else row
    }

    function Front(): int {
      if cursors.queued.Some? && cursors.queued.value > db then cursors.queued.value else db
    }

    // Everything the saved cursor has passed is dealt with.
    ghost predicate Safe() {
      forall p | p in log && p <= db :: p in Settled()
    }
  }

  const INITIAL := State({}, -1, -1, -1, CursorView(None, -1), Idle, [], [], None, {}, {}, {}, {})

  // What becomes of a message in the page loop. Inline and Refused are the
  // results that are not Queued: handled within the call, or turned away.
  datatype Outcome = Skip | Accepted | Inline | Refused

  datatype Step =
    | Append(pos: int)
    | ReadRow
    | Lookup                      // ask for the queued position, start the fetch
    | Fetched(got: seq<int>)
    | FetchedNothing              // the fetch failed, or no message is new
    | Queue(outcome: Outcome)
    | Note
    | Release
    | HandleAt(i: nat)            // a handler ran and its hook was called
    | DropAt(i: nat)              // bridgev2 dropped the event, hook never called
    | SaveSkip(page: nat)
    | SaveFail(page: nat)
    | SaveWrite(page: nat)
    | SaveEnd
    | Discover                    // an upsert of the existing row
    | Crash

  function MaxOf(s: seq<int>): int
    requires s != []
  {
    if |s| == 1 then s[0] else var m := MaxOf(s[1..]); if s[0] > m then s[0] else m
  }

  lemma {:induction false} MaxOfBounds(s: seq<int>)
    requires s != []
    ensures MaxOf(s) in s && forall p | p in s :: p <= MaxOf(s)
  {
    if |s| > 1 {
      MaxOfBounds(s[1..]);
      assert s == [s[0]] + s[1..];
    }
  }

  predicate SaveDue(s: State, page: nat) {
    page < |s.pages| && s.pages[page].commit.saves > 0 && !s.pages[page].tried && s.saver.None?
  }

  predicate Enabled(s: State, step: Step) {
    match step
    case Append(pos) => pos >= 0 && forall q | q in s.log :: q < pos
    case ReadRow => s.poll.Idle?
    case Lookup => s.poll.Idle?
    case Fetched(got) => s.poll.Fetching? && got != [] && forall p | p in got :: p in s.log && p > s.poll.base
    case FetchedNothing => s.poll.Fetching?
    case Queue(_) => s.poll.Queueing? && s.poll.todo != [] && s.pages != []
    case Note => s.poll.Queueing? && s.poll.todo == [] && s.pages != []
    case Release => s.poll.Noted? && s.pages != []
    case HandleAt(i) =>
      i < |s.fifo| && s.fifo[i].page < |s.pages| && s.fifo[i].hook < |s.pages[s.fifo[i].page].commit.fired|
    case DropAt(i) => i < |s.fifo|
    case SaveSkip(page) => SaveDue(s, page) && s.pages[page].hi <= s.cursors.saved
    case SaveFail(page) => SaveDue(s, page) && s.pages[page].hi > s.cursors.saved
    case SaveWrite(page) => SaveDue(s, page) && s.pages[page].hi > s.cursors.saved
    case SaveEnd => s.saver.Some? && s.saver.value < |s.pages|
    case Discover => true
    case Crash => true
  }

  function Next(s: State, step: Step): State
    requires Enabled(s, step)
  {
    match step
    case Append(pos) => s.(log := s.log + {pos})
    case ReadRow => s.(row := s.db)
    case Lookup => s.(poll := Fetching(s.Base()))
    case Fetched(got) =>
      var hi := MaxOf(got);
      s.(poll := Queueing(got),
         pages := s.pages + [Page(hi, NEW_COMMIT, false, false)],
         missed := s.missed + set p | p in s.log && s.poll.base < p < hi && p !in got)
    case FetchedNothing => s.(poll := Idle)
    case Queue(outcome) => QueueNext(s, outcome)
    case Note => s.(poll := Noted, cursors := s.cursors.NoteQueued(s.pages[|s.pages| - 1].hi))
    case Release =>
      var page := s.pages[|s.pages| - 1];
      s.(poll := Idle, pages := s.pages[|s.pages| - 1 := page.(commit := page.commit.Arm().GiveUp())])
    case HandleAt(i) =>
      var e := s.fifo[i];
      var page := s.pages[e.page];
      s.(fifo := s.fifo[..i] + s.fifo[i + 1..], handled := s.handled + {e.pos},
         pages := s.pages[e.page := page.(commit := page.commit.CallHook(e.hook))])
    case DropAt(i) =>
      s.(fifo := s.fifo[..i] + s.fifo[i + 1..], dropped := s.dropped + {s.fifo[i].pos})
    case SaveSkip(page) => s.(pages := s.pages[page := s.pages[page].(tried := true)])
    case SaveFail(page) => s.(pages := s.pages[page := s.pages[page].(tried := true)])
    case SaveWrite(page) =>
      s.(pages := s.pages[page := s.pages[page].(tried := true)], db := s.pages[page].hi, saver := Some(page))
    case SaveEnd => s.(cursors := s.cursors.NoteSaved(s.pages[s.saver.value].hi), saver := None)
    case Discover => s
    case Crash =>
      s.(start := s.db, row := s.db, cursors := CursorView(None, -1), poll := Idle, pages := [], fifo := [],
         saver := None)
  }

  function QueueNext(s: State, outcome: Outcome): State
    requires s.poll.Queueing? && s.poll.todo != [] && s.pages != []
  {
    var pos, at := s.poll.todo[0], |s.pages| - 1;
    var page := s.pages[at];
    var hook := |page.commit.fired|;
    var s1 := s.(poll := Queueing(s.poll.todo[1..]));
    match outcome
    case Skip => s1.(skipped := s.skipped + {pos})
    case Accepted =>
      s1.(fifo := s.fifo + [Event(pos, at, hook)],
          pages := s.pages[at := page.(commit := page.commit.Track(), accepted := true)])
    case Inline =>
      s1.(handled := s.handled + {pos},
          pages := s.pages[at := page.(commit := page.commit.Track().CallHook(hook))])
    case Refused =>
      s1.(dropped := s.dropped + {pos},
          pages := s.pages[at := page.(commit := page.commit.Track().CallHook(hook))])
  }

  // What the poll loop does; the portal's event loop and saves run beside it.
  predicate PollerStep(step: Step) {
    || step.ReadRow? || step.Lookup? || step.Fetched? || step.FetchedNothing? || step.Queue? || step.Note? || step.Release?
  }

  predicate Run(s: State, steps: seq<Step>)
    decreases steps
  {
    steps == [] || (Enabled(s, steps[0]) && Run(Next(s, steps[0]), steps[1..]))
  }

  function After(s: State, steps: seq<Step>): State
    requires Run(s, steps)
    decreases steps
  {
    if steps == [] then s else After(Next(s, steps[0]), steps[1..])
  }

  // ----- the cursor never moves back, in any order of handling -----

  function Max(a: int, b: int): int {
    if a > b then a else b
  }

  ghost predicate OpenPage(s: State) {
    s.poll.Queueing? || s.poll.Noted?
  }

  // A position taken from the thread since this client started.
  ghost predicate Fresh(s: State, p: int) {
    p in s.log && p > s.start
  }

  // A cursor value: none, or a message's position.
  ghost predicate Mark(s: State, p: int) {
    p == -1 || p in s.log
  }

  ghost predicate CursorInv(s: State) {
    && (forall p | p in s.log :: p >= 0)
    && Mark(s, s.start) && Mark(s, s.row) && Mark(s, s.db) && s.start <= s.row <= s.db
    && (s.cursors.saved == -1 || Fresh(s, s.cursors.saved))
    && (s.cursors.queued.Some? ==> Fresh(s, s.cursors.queued.value))
    && (forall g | 0 <= g < |s.pages| :: Fresh(s, s.pages[g].hi))
    && (forall e | e in s.fifo :: Fresh(s, e.pos))
    && (s.poll.Fetching? ==> Mark(s, s.poll.base) && s.start <= s.poll.base <= s.Front())
    && (s.poll.Queueing? ==> forall p | p in s.poll.todo :: Fresh(s, p))
    && (OpenPage(s) ==> s.pages != [])
    && (forall g | 0 <= g < |s.pages| && !(s.poll.Queueing? && g == |s.pages| - 1) :: s.pages[g].hi <= s.Front())
    && match s.saver
       case None => s.db == Max(s.start, s.cursors.saved)
       case Some(g) => g < |s.pages| && s.db == s.pages[g].hi && s.db > s.cursors.saved
  }

  // Steps that move no cursor and queue nothing new.
  lemma CursorInvKept(s: State, t: State)
    requires CursorInv(s)
    requires t.log == s.log && t.start == s.start && t.db == s.db && t.cursors == s.cursors && t.saver == s.saver
    requires t.row == s.row || t.row == s.db
    requires t.poll == s.poll || (t.poll.Idle? && !s.poll.Queueing?)
    requires forall e | e in t.fifo :: e in s.fifo
    requires |t.pages| == |s.pages| && forall g | 0 <= g < |s.pages| :: t.pages[g].hi == s.pages[g].hi
    ensures CursorInv(t)
  {
  }

  lemma CursorInvFetched(s: State, got: seq<int>)
    requires CursorInv(s) && Enabled(s, Fetched(got))
    ensures CursorInv(Next(s, Fetched(got)))
  {
    MaxOfBounds(got);
    assert Fresh(s, MaxOf(got));
    assert forall g | 0 <= g < |s.pages| :: s.pages[g].hi <= s.Front();
  }

  // What the page loop's step leaves alone.
  lemma QueueKeeps(s: State, outcome: Outcome)
    requires Enabled(s, Queue(outcome))
    ensures var t := Next(s, Queue(outcome));
            && t.log == s.log && t.start == s.start && t.row == s.row && t.db == s.db && t.cursors == s.cursors
            && t.saver == s.saver && t.poll == Queueing(s.poll.todo[1..])
            && (forall e | e in t.fifo :: e in s.fifo || e.pos == s.poll.todo[0])
            && |t.pages| == |s.pages| && forall g | 0 <= g < |s.pages| :: t.pages[g].hi == s.pages[g].hi
  {
  }

  lemma CursorInvFirst(s: State, t: State)
    requires CursorInv(s) && s.poll.Queueing? && s.poll.todo != [] && t.poll == Queueing(s.poll.todo[1..])
    requires t.log == s.log && t.start == s.start && t.row == s.row && t.db == s.db && t.cursors == s.cursors
    requires t.saver == s.saver
    requires forall e | e in t.fifo :: e in s.fifo || e.pos == s.poll.todo[0]
    requires |t.pages| == |s.pages| && forall g | 0 <= g < |s.pages| :: t.pages[g].hi == s.pages[g].hi
    ensures CursorInv(t)
  {
    assert s.poll.todo[0] in s.poll.todo && forall p | p in t.poll.todo :: p in s.poll.todo;
  }

  lemma CursorInvQueue(s: State, outcome: Outcome)
    requires CursorInv(s) && Enabled(s, Queue(outcome))
    ensures CursorInv(Next(s, Queue(outcome)))
  {
    QueueKeeps(s, outcome);
    CursorInvFirst(s, Next(s, Queue(outcome)));
  }

  lemma CursorInvNote(s: State)
    requires CursorInv(s) && Enabled(s, Note)
    ensures CursorInv(Next(s, Note)) && Next(s, Note).Front() >= s.Front()
  {
  }

  lemma CursorInvSaveWrite(s: State, page: nat)
    requires CursorInv(s) && Enabled(s, SaveWrite(page))
    ensures var t := Next(s, SaveWrite(page)); CursorInv(t) && t.db >= s.db && t.Front() >= s.Front()
  {
    assert s.pages[page].hi > s.db by {
      assert Fresh(s, s.pages[page].hi);
    }
  }

  lemma CursorInvSaveEnd(s: State)
    requires CursorInv(s) && Enabled(s, SaveEnd)
    ensures var t := Next(s, SaveEnd); CursorInv(t) && t.db >= s.db && t.Front() >= s.Front()
  {
  }

  lemma CursorInvAppend(s: State, pos: int)
    requires CursorInv(s) && Enabled(s, Append(pos))
    ensures var t := Next(s, Append(pos)); CursorInv(t) && t.db == s.db && t.Front() == s.Front()
  {
  }

  lemma CursorInvLookup(s: State)
    requires CursorInv(s) && Enabled(s, Lookup)
    ensures var t := Next(s, Lookup); CursorInv(t) && t.db == s.db && t.Front() == s.Front()
  {
  }

  lemma CursorInvCrash(s: State)
    requires CursorInv(s)
    ensures CursorInv(Next(s, Crash)) && Next(s, Crash).db == s.db
  {
  }

  lemma CursorInvPoller(s: State, step: Step)
    requires CursorInv(s) && Enabled(s, step) && PollerStep(step)
    ensures CursorInv(Next(s, step)) && Next(s, step).db == s.db && Next(s, step).Front() >= s.Front()
  {
    match step
    case ReadRow => CursorInvKept(s, Next(s, step));
    case Lookup => CursorInvLookup(s);
    case Fetched(got) => CursorInvFetched(s, got);
    case FetchedNothing => CursorInvKept(s, Next(s, step));
    case Queue(outcome) => CursorInvQueue(s, outcome);
    case Note => CursorInvNote(s);
    case Release => CursorInvKept(s, Next(s, step));
  }

  lemma CursorInvOther(s: State, step: Step)
    requires CursorInv(s) && Enabled(s, step)
    requires !PollerStep(step) && !step.SaveWrite? && !step.SaveEnd?
    ensures CursorInv(Next(s, step)) && Next(s, step).db == s.db
    ensures !step.Crash? ==> Next(s, step).Front() == s.Front()
  {
    if step.Append? {
      CursorInvAppend(s, step.pos);
    } else if step.Crash? {
      CursorInvCrash(s);
    } else {
      CursorInvKept(s, Next(s, step));
    }
  }

  lemma CursorInvStep(s: State, step: Step)
    requires CursorInv(s) && Enabled(s, step)
    ensures CursorInv(Next(s, step))
    ensures !step.Crash? ==> Next(s, step).db >= s.db && Next(s, step).Front() >= s.Front()
    ensures step.Crash? ==> Next(s, step).db == s.db
  {
    if PollerStep(step) {
      CursorInvPoller(s, step);
    } else if step.SaveWrite? {
      CursorInvSaveWrite(s, step.page);
    } else if step.SaveEnd? {
      CursorInvSaveEnd(s);
    } else {
      CursorInvOther(s, step);
    }
  }

  // Over every run from any reachable state: pages finishing out of order,
  // upserts and stale rows included, the saved cursor never moves back, and
  // within one client's life neither does what is saved or queued.
  lemma {:induction false} CursorNeverMovesBack(s: State, steps: seq<Step>)
    requires CursorInv(s) && Run(s, steps)
    ensures CursorInv(INITIAL) && CursorInv(After(s, steps))
    ensures After(s, steps).db >= s.db
    ensures Crash !in steps ==> After(s, steps).Front() >= s.Front()
    decreases steps
  {
    if steps != [] {
      CursorInvStep(s, steps[0]);
      CursorNeverMovesBack(Next(s, steps[0]), steps[1..]);
    }
  }

  // ----- nothing is lost, handling in queue order -----

  function Queued(fifo: seq<Event>): set<int> {
    set e | e in fifo :: e.pos
  }

  // The positions of the events up to the last one of a page.
  function UpToPage(fifo: seq<Event>, page: nat): set<int> {
    if fifo == [] then {}
    else if fifo[|fifo| - 1].page == page then Queued(fifo)
    else UpToPage(fifo[..|fifo| - 1], page)
  }

  ghost predicate Covers(s: State, upTo: int, more: set<int>) {
    forall p | p in s.log && p <= upTo :: p in s.Settled() || p in more
  }

  // Each queued event has an uncalled hook of its own.
  ghost predicate HooksInv(s: State) {
    && (forall i | 0 <= i < |s.fifo| ::
          var e := s.fifo[i];
          e.page < |s.pages| && e.hook < |s.pages[e.page].commit.fired| && !s.pages[e.page].commit.fired[e.hook])
    && (forall i, j | 0 <= i < j < |s.fifo| :: s.fifo[i].page != s.fifo[j].page || s.fifo[i].hook != s.fifo[j].hook)
  }

  ghost predicate CommitsInv(s: State) {
    forall g | 0 <= g < |s.pages| ::
      && s.pages[g].commit.Valid()
      && (s.pages[g].commit.released <==> !(OpenPage(s) && g == |s.pages| - 1))
      && (s.pages[g].commit.armed <==> s.pages[g].commit.released)
  }

  // While a page is being queued, nothing comes into the queue behind its events.
  ghost predicate LastInv(s: State) {
    OpenPage(s) && s.pages != [] && s.pages[|s.pages| - 1].accepted && s.fifo != [] ==>
      s.fifo[|s.fifo| - 1].page == |s.pages| - 1
  }

  // Everything up to a position the poller has passed is settled or still queued.
  ghost predicate CoverInv(s: State) {
    && Covers(s, s.db, {})
    && (s.cursors.queued.Some? ==> Covers(s, s.cursors.queued.value, Queued(s.fifo)))
    && (s.poll.Fetching? ==> Covers(s, s.poll.base, Queued(s.fifo)))
    && (s.poll.Queueing? && s.pages != [] ==>
          Covers(s, s.pages[|s.pages| - 1].hi, Queued(s.fifo) + set p | p in s.poll.todo))
    && (s.poll.Noted? && s.pages != [] ==> Covers(s, s.pages[|s.pages| - 1].hi, Queued(s.fifo)))
    && (forall g | 0 <= g < |s.pages| && s.pages[g].commit.released ::
          Covers(s, s.pages[g].hi, UpToPage(s.fifo, g)))
  }

  ghost predicate Inv(s: State) {
    CursorInv(s) && HooksInv(s) && CommitsInv(s) && LastInv(s) && CoverInv(s)
  }

  // What a page must meet when it gives up its own count: an event of it went
  // into the queue, or no earlier message is left there unhandled.
  ghost predicate ReleaseGuard(s: State)
    requires s.pages != []
  {
    var page := s.pages[|s.pages| - 1];
    page.accepted || forall e | e in s.fifo :: e.pos <= page.hi ==> e.pos in s.Settled()
  }

  ghost predicate InOrder(s: State, step: Step)
    requires Enabled(s, step)
  {
    && (step.HandleAt? || step.DropAt? ==> step.i == 0)
    && (step.Release? ==> ReleaseGuard(s))
  }

  ghost predicate OrderedRun(s: State, steps: seq<Step>)
    decreases steps
  {
    steps == [] || (Enabled(s, steps[0]) && InOrder(s, steps[0]) && OrderedRun(Next(s, steps[0]), steps[1..]))
  }

  lemma {:induction false} TakeFront(fifo: seq<Event>, page: nat)
    requires fifo != []
    ensures UpToPage(fifo, page) <= UpToPage(fifo[1..], page) + {fifo[0].pos}
    ensures Queued(fifo) == Queued(fifo[1..]) + {fifo[0].pos}
  {
    assert fifo == [fifo[0]] + fifo[1..];
    if |fifo| > 1 && fifo[|fifo| - 1].page != page {
      TakeFront(fifo[..|fifo| - 1], page);
      assert fifo[..|fifo| - 1][1..] == fifo[1..][..|fifo| - 2];
    }
  }

  lemma QueueMore(fifo: seq<Event>, e: Event, page: nat)
    ensures Queued(fifo + [e]) == Queued(fifo) + {e.pos}
    ensures e.page != page ==> UpToPage(fifo + [e], page) == UpToPage(fifo, page)
  {
    assert (fifo + [e])[..|fifo|] == fifo;
  }

  lemma {:induction false} NoEventOfPage(fifo: seq<Event>, page: nat)
    requires forall e | e in fifo :: e.page != page
    ensures UpToPage(fifo, page) == {}
  {
    if fifo != [] {
      assert fifo[|fifo| - 1] in fifo;
      NoEventOfPage(fifo[..|fifo| - 1], page);
    }
  }

  // A page whose save is due has no event left in the queue, so everything up
  // to its newest position is settled.
  lemma DueSaveIsCovered(s: State, g: nat)
    requires HooksInv(s) && CommitsInv(s) && CoverInv(s) && SaveDue(s, g)
    ensures Covers(s, s.pages[g].hi, {})
  {
    UnfiredZero(s.pages[g].commit.fired);
    NoEventOfPage(s.fifo, g);
  }

  // Taking the front of the queue, with or without calling its hook.
  lemma HooksTake(s: State, t: State, called: bool)
    requires HooksInv(s) && s.fifo != [] && t.fifo == s.fifo[1..]
    requires var e := s.fifo[0];
             t.pages == if called
                        then s.pages[e.page := s.pages[e.page].(commit := s.pages[e.page].commit.CallHook(e.hook))]
                        else s.pages
    ensures HooksInv(t)
  {
    assert forall i | 0 <= i < |t.fifo| :: t.fifo[i] == s.fifo[i + 1];
  }

  lemma HooksAccept(s: State)
    requires HooksInv(s) && Enabled(s, Queue(Accepted))
    ensures HooksInv(Next(s, Queue(Accepted)))
  {
    var t := Next(s, Queue(Accepted));
    assert t.fifo[|s.fifo|].hook == |s.pages[|s.pages| - 1].commit.fired|;
    forall i, j | 0 <= i < j < |t.fifo|
      ensures t.fifo[i].page != t.fifo[j].page || t.fifo[i].hook != t.fifo[j].hook
    {
      assert t.fifo[i] == s.fifo[i];
      assert j < |s.fifo| ==> t.fifo[j] == s.fifo[j];
    }
  }

  // Every other step leaves the queue alone and no page loses an uncalled hook.
  lemma HooksKept(s: State, t: State)
    requires HooksInv(s) && t.fifo == s.fifo && |t.pages| >= |s.pages|
    requires forall g | 0 <= g < |s.pages| :: s.pages[g].commit.fired <= t.pages[g].commit.fired
    ensures HooksInv(t)
  {
  }

  lemma HooksOther(s: State, step: Step)
    requires HooksInv(s) && Enabled(s, step)
    requires step != Queue(Accepted) && !step.HandleAt? && !step.DropAt? && !step.Crash?
    ensures HooksInv(Next(s, step))
  {
    HooksKept(s, Next(s, step));
  }

  lemma HooksStep(s: State, step: Step)
    requires HooksInv(s) && Enabled(s, step)
    requires step.HandleAt? || step.DropAt? ==> step.i == 0
    ensures HooksInv(Next(s, step))
  {
    match step
    case HandleAt(_) => HooksTake(s, Next(s, step), true);
    case DropAt(_) => HooksTake(s, Next(s, step), false);
    case Crash =>
    case _ =>
      if step == Queue(Accepted) { HooksAccept(s); } else { HooksOther(s, step); }
  }

  lemma CommitsQueue(s: State, outcome: Outcome)
    requires CommitsInv(s) && Enabled(s, Queue(outcome))
    ensures CommitsInv(Next(s, Queue(outcome)))
  {
    var commit := s.pages[|s.pages| - 1].commit;
    ActKeepsValid(commit, Action.Track);
    ActKeepsValid(commit.Track(), Action.CallHook(|commit.fired|));
  }

  lemma CommitsRelease(s: State)
    requires CommitsInv(s) && Enabled(s, Release)
    ensures CommitsInv(Next(s, Release))
  {
    var commit := s.pages[|s.pages| - 1].commit;
    ActKeepsValid(commit, Arm);
    ActKeepsValid(commit.Arm(), GiveUp);
  }

  lemma CommitsHandle(s: State, i: nat)
    requires CommitsInv(s) && Enabled(s, HandleAt(i))
    ensures CommitsInv(Next(s, HandleAt(i)))
  {
    ActKeepsValid(s.pages[s.fifo[i].page].commit, Action.CallHook(s.fifo[i].hook));
  }

  lemma CommitsKept(s: State, t: State)
    requires CommitsInv(s) && |t.pages| == |s.pages|
    requires forall g | 0 <= g < |s.pages| :: t.pages[g].commit == s.pages[g].commit
    requires s.pages != [] ==> (OpenPage(t) <==> OpenPage(s))
    ensures CommitsInv(t)
  {
  }

  lemma CommitsStep(s: State, step: Step)
    requires CommitsInv(s) && Enabled(s, step)
    ensures CommitsInv(Next(s, step))
  {
    match step
    case Fetched(_) =>
    case Queue(outcome) => CommitsQueue(s, outcome);
    case Release => CommitsRelease(s);
    case HandleAt(i) => CommitsHandle(s, i);
    case Crash =>
    case _ => CommitsKept(s, Next(s, step));
  }

  lemma LastStep(s: State, step: Step)
    requires LastInv(s) && Enabled(s, step)
    requires step.HandleAt? || step.DropAt? ==> step.i == 0
    ensures LastInv(Next(s, step))
  {
  }

  lemma CoversKept(s: State, t: State, upTo: int, more: set<int>, more': set<int>)
    requires Covers(s, upTo, more) && t.log == s.log
    requires s.Settled() + more <= t.Settled() + more'
    ensures Covers(t, upTo, more')
  {
  }

  // Taking the front of the queue, handled or dropped, moves its position
  // from the queue to the settled ones.
  lemma TakeCovers(s: State, t: State)
    requires CoverInv(s) && s.fifo != [] && t.fifo == s.fifo[1..]
    requires t.log == s.log && t.db == s.db && t.cursors == s.cursors && t.poll == s.poll
    requires t.Settled() == s.Settled() + {s.fifo[0].pos}
    requires |t.pages| == |s.pages|
    requires forall g | 0 <= g < |s.pages| ::
               t.pages[g].hi == s.pages[g].hi && t.pages[g].commit.released == s.pages[g].commit.released
    ensures CoverInv(t)
  {
    var all, all' := Queued(s.fifo), Queued(t.fifo);
    TakeFront(s.fifo, 0);
    CoversKept(s, t, s.db, {}, {});
    if s.cursors.queued.Some? {
      CoversKept(s, t, s.cursors.queued.value, all, all');
    }
    if s.poll.Fetching? {
      CoversKept(s, t, s.poll.base, all, all');
    }
    if s.poll.Queueing? && s.pages != [] {
      var todo := set p | p in s.poll.todo;
      CoversKept(s, t, s.pages[|s.pages| - 1].hi, all + todo, all' + todo);
    }
    if s.poll.Noted? && s.pages != [] {
      CoversKept(s, t, s.pages[|s.pages| - 1].hi, all, all');
    }
    forall g | 0 <= g < |t.pages| && t.pages[g].commit.released
      ensures Covers(t, t.pages[g].hi, UpToPage(t.fifo, g))
    {
      TakeFront(s.fifo, g);
      CoversKept(s, t, s.pages[g].hi, UpToPage(s.fifo, g), UpToPage(t.fifo, g));
    }
  }

  lemma QueueMoves(s: State, outcome: Outcome)
    requires Enabled(s, Queue(outcome))
    ensures var t := Next(s, Queue(outcome));
            && s.Settled() <= t.Settled()
            && s.Settled() + Queued(s.fifo) <= t.Settled() + Queued(t.fifo)
            && s.Settled() + (Queued(s.fifo) + set p | p in s.poll.todo)
            <= t.Settled() + (Queued(t.fifo) + set p | p in t.poll.todo)
            && forall g: nat | g != |s.pages| - 1 :: UpToPage(t.fifo, g) == UpToPage(s.fifo, g)
  {
    var at, todo := |s.pages| - 1, s.poll.todo;
    assert todo == [todo[0]] + todo[1..];
    if outcome.Accepted? {
      forall g: nat { QueueMore(s.fifo, Event(todo[0], at, |s.pages[at].commit.fired|), g); }
    }
  }

  lemma QueueCovers(s: State, outcome: Outcome)
    requires CoverInv(s) && CommitsInv(s) && Enabled(s, Queue(outcome))
    ensures CoverInv(Next(s, Queue(outcome)))
  {
    var t := Next(s, Queue(outcome));
    var at := |s.pages| - 1;
    QueueMoves(s, outcome);
    CoversKept(s, t, s.db, {}, {});
    if s.cursors.queued.Some? {
      CoversKept(s, t, s.cursors.queued.value, Queued(s.fifo), Queued(t.fifo));
    }
    CoversKept(s, t, s.pages[at].hi, Queued(s.fifo) + (set p | p in s.poll.todo),
               Queued(t.fifo) + (set p | p in t.poll.todo));
    forall g | 0 <= g < |t.pages| && t.pages[g].commit.released
      ensures Covers(t, t.pages[g].hi, UpToPage(t.fifo, g))
    {
      assert g != at && t.pages[g] == s.pages[g];
      CoversKept(s, t, s.pages[g].hi, UpToPage(s.fifo, g), UpToPage(t.fifo, g));
    }
  }

  // What a fetch passes without returning is recorded as missed; the rest of
  // what lies between the base and the newest position is on the page.
  lemma FetchedCovers(s: State, got: seq<int>)
    requires Inv(s) && Enabled(s, Fetched(got))
    ensures CoverInv(Next(s, Fetched(got)))
  {
    var t := Next(s, Fetched(got));
    MaxOfBounds(got);
    assert Covers(t, MaxOf(got), Queued(t.fifo) + set p | p in got);
    forall g | 0 <= g < |t.pages| && t.pages[g].commit.released
      ensures Covers(t, t.pages[g].hi, UpToPage(t.fifo, g))
    {
      assert t.pages[g] == s.pages[g];
      assert Covers(s, s.pages[g].hi, UpToPage(s.fifo, g));
    }
  }

  lemma ReleaseCovers(s: State)
    requires CoverInv(s) && LastInv(s) && Enabled(s, Release) && ReleaseGuard(s)
    ensures CoverInv(Next(s, Release))
  {
    var t := Next(s, Release);
    var at := |s.pages| - 1;
    var page := s.pages[at];
    assert forall g | 0 <= g < at :: t.pages[g] == s.pages[g];
    if page.accepted {
      assert Queued(s.fifo) == UpToPage(s.fifo, at);
    } else {
      assert Covers(s, page.hi, {});
    }
    CoversKept(s, t, page.hi, if page.accepted then Queued(s.fifo) else {}, UpToPage(t.fifo, at));
  }

  // A new message is newer than every position the poller knows.
  lemma AppendCovers(s: State, pos: int)
    requires Inv(s) && Enabled(s, Append(pos))
    ensures CoverInv(Next(s, Append(pos)))
  {
    var t := Next(s, Append(pos));
    assert forall upTo, more | Mark(s, upTo) && Covers(s, upTo, more) :: Covers(t, upTo, more);
  }

  // Steps that settle and queue nothing, and pass only what is covered.
  lemma CoverKept(s: State, t: State)
    requires CoverInv(s)
    requires t.log == s.log && t.db == s.db && t.fifo == s.fifo
    requires t.Settled() == s.Settled()
    requires var queued := Queued(s.fifo);
             && (t.cursors.queued == s.cursors.queued || t.cursors.queued.None? ||
                 Covers(s, t.cursors.queued.value, queued))
             && (t.poll == s.poll || t.poll.Idle? || (t.poll.Fetching? && Covers(s, t.poll.base, queued)) ||
                 (t.poll.Noted? && s.pages != [] && Covers(s, s.pages[|s.pages| - 1].hi, queued)))
    requires |t.pages| == |s.pages|
    requires forall g | 0 <= g < |s.pages| ::
               t.pages[g].hi == s.pages[g].hi && t.pages[g].commit.released == s.pages[g].commit.released
    ensures CoverInv(t)
  {
    assert forall upTo, more | Covers(s, upTo, more) :: Covers(t, upTo, more);
  }

  lemma NoteCovers(s: State)
    requires CoverInv(s) && Enabled(s, Note)
    ensures CoverInv(Next(s, Note))
  {
    assert (set p | p in s.poll.todo) == {};
    CoversKept(s, s, s.pages[|s.pages| - 1].hi, Queued(s.fifo) + (set p | p in s.poll.todo),
               Queued(s.fifo));
    CoverKept(s, Next(s, Note));
  }

  lemma LookupCovers(s: State)
    requires CoverInv(s) && s.row <= s.db && Enabled(s, Lookup)
    ensures CoverInv(Next(s, Lookup))
  {
    assert Covers(s, s.row, {});
    CoversKept(s, s, s.row, {}, Queued(s.fifo));
    CoverKept(s, Next(s, Lookup));
  }

  lemma SaveWriteCovers(s: State, g: nat)
    requires Inv(s) && Enabled(s, SaveWrite(g))
    ensures CoverInv(Next(s, SaveWrite(g)))
  {
    var t := Next(s, SaveWrite(g));
    DueSaveIsCovered(s, g);
    assert forall upTo, more | Covers(s, upTo, more) :: Covers(t, upTo, more);
  }

  lemma CoverPoller(s: State, step: Step)
    requires Inv(s) && Enabled(s, step) && InOrder(s, step) && PollerStep(step)
    ensures CoverInv(Next(s, step))
  {
    match step
    case ReadRow => CoverKept(s, Next(s, step));
    case Lookup => LookupCovers(s);
    case Fetched(got) => FetchedCovers(s, got);
    case FetchedNothing => CoverKept(s, Next(s, step));
    case Queue(outcome) => QueueCovers(s, outcome);
    case Note => NoteCovers(s);
    case Release => ReleaseCovers(s);
  }

  lemma CrashCovers(s: State)
    requires CoverInv(s)
    ensures CoverInv(Next(s, Crash))
  {
    CoversKept(s, Next(s, Crash), s.db, {}, {});
  }

  lemma CoverPortal(s: State, step: Step)
    requires CoverInv(s) && Enabled(s, step) && (step == HandleAt(0) || step == DropAt(0))
    ensures CoverInv(Next(s, step))
  {
    var t := Next(s, step);
    assert t.fifo == s.fifo[1..];
    TakeCovers(s, t);
  }

  lemma CoverUntouched(s: State, step: Step)
    requires CoverInv(s) && Enabled(s, step)
    requires step.SaveSkip? || step.SaveFail? || step.SaveEnd? || step.Discover?
    ensures CoverInv(Next(s, step))
  {
    CoverKept(s, Next(s, step));
  }

  lemma CoverOther(s: State, step: Step)
    requires Inv(s) && Enabled(s, step) && !PollerStep(step) && !step.HandleAt? && !step.DropAt?
    ensures CoverInv(Next(s, step))
  {
    match step
    case Append(pos) => AppendCovers(s, pos);
    case SaveWrite(page) => SaveWriteCovers(s, page);
    case Crash => CrashCovers(s);
    case _ => CoverUntouched(s, step);
  }

  lemma CoverStep(s: State, step: Step)
    requires Inv(s) && Enabled(s, step) && InOrder(s, step)
    ensures CoverInv(Next(s, step))
  {
    if PollerStep(step) {
      CoverPoller(s, step);
    } else if step.HandleAt? || step.DropAt? {
      CoverPortal(s, step);
    } else {
      CoverOther(s, step);
    }
  }

  lemma InvStep(s: State, step: Step)
    requires Inv(s) && Enabled(s, step) && InOrder(s, step)
    ensures Inv(Next(s, step))
  {
    CursorInvStep(s, step);
    HooksStep(s, step);
    CommitsStep(s, step);
    LastStep(s, step);
    CoverStep(s, step);
  }

  lemma {:induction false} InvHolds(s: State, steps: seq<Step>)
    requires Inv(s) && OrderedRun(s, steps)
    ensures Run(s, steps) && Inv(After(s, steps))
    decreases steps
  {
    if steps != [] {
      InvStep(s, steps[0]);
      InvHolds(Next(s, steps[0]), steps[1..]);
    }
  }

  lemma InvInitially()
    ensures Inv(INITIAL)
  {
  }

  lemma SafeAfter(steps: seq<Step>)
    requires OrderedRun(INITIAL, steps)
    ensures Run(INITIAL, steps) && Covers(After(INITIAL, steps), After(INITIAL, steps).db, {})
  {
    InvInitially();
    InvHolds(INITIAL, steps);
  }

  lemma RestartSeesTheRest(s: State)
    requires Covers(s, s.db, {})
    ensures s.Safe()
    ensures var restarted := Next(s, Crash);
            && restarted.Base() == restarted.db
            && forall p | p in restarted.log && p !in restarted.Settled() :: p > restarted.Base()
  {
  }

  // The main result. In every run from a thread never polled, with events
  // handled in queue order, crashes anywhere, and every page meeting the guard
  // when it is released: each message at or below the saved cursor has been
  // handled, dropped, skipped, or passed over by a fetch that missed it. So a
  // client starting now fetches from below every message still to be settled.
  lemma NothingIsLost(steps: seq<Step>)
    requires OrderedRun(INITIAL, steps)
    ensures Run(INITIAL, steps) && After(INITIAL, steps).Safe()
    ensures var restarted := Next(After(INITIAL, steps), Crash);
            && restarted.Base() == restarted.db
            && forall p | p in restarted.log && p !in restarted.Settled() :: p > restarted.Base()
  {
    SafeAfter(steps);
    RestartSeesTheRest(After(INITIAL, steps));
  }

  lemma ReleaseMakesSaveDue(s: State)
    requires CommitsInv(s) && Enabled(s, Release) && s.saver.None?
    requires Unfired(s.pages[|s.pages| - 1].commit.fired) == 0 && !s.pages[|s.pages| - 1].tried
    ensures SaveDue(Next(s, Release), |s.pages| - 1) && CommitsInv(Next(s, Release))
  {
    CommitsRelease(s);
  }

  lemma SaveWriteIsSafe(s: State, g: nat)
    requires Enabled(s, SaveWrite(g))
    ensures Next(s, SaveWrite(g)).Safe() <==> Covers(s, s.pages[g].hi, {})
  {
  }

  // The guard is exact: when a page's save falls due as it is released, writing
  // its cursor keeps the thread safe if and only if the guard held.
  lemma ReleaseGuardIsExact(s: State)
    requires Inv(s) && Enabled(s, Release) && s.saver.None?
    requires var page := s.pages[|s.pages| - 1];
             Unfired(page.commit.fired) == 0 && page.hi > s.cursors.saved && !page.tried
    ensures var released, at := Next(s, Release), |s.pages| - 1;
            && Enabled(released, SaveWrite(at))
            && (Next(released, SaveWrite(at)).Safe() <==> ReleaseGuard(s))
  {
    ReleaseMakesSaveDue(s);
    SaveWriteIsSafe(Next(s, Release), |s.pages| - 1);
    if ReleaseGuard(s) {
      GuardedReleaseCovers(s);
    } else {
      var e :| e in s.fifo && e.pos <= s.pages[|s.pages| - 1].hi && e.pos !in s.Settled();
      assert Fresh(s, e.pos);
    }
  }

  lemma GuardedReleaseCovers(s: State)
    requires HooksInv(s) && CommitsInv(s) && LastInv(s) && CoverInv(s)
    requires Enabled(s, Release) && ReleaseGuard(s) && SaveDue(Next(s, Release), |s.pages| - 1)
    ensures var released := Next(s, Release);
            Covers(released, released.pages[|s.pages| - 1].hi, {})
  {
    GuardedReleaseKeeps(s);
    DueSaveIsCovered(Next(s, Release), |s.pages| - 1);
  }

  lemma GuardedReleaseKeeps(s: State)
    requires HooksInv(s) && CommitsInv(s) && LastInv(s) && CoverInv(s)
    requires Enabled(s, Release) && ReleaseGuard(s)
    ensures HooksInv(Next(s, Release)) && CommitsInv(Next(s, Release)) && CoverInv(Next(s, Release))
  {
    CommitsRelease(s);
    ReleaseCovers(s);
    HooksOther(s, Release);
  }

  // A message the saved cursor has passed is never settled once a client has
  // restarted, whatever happens afterwards and in whatever order.
  lemma {:induction false} PassedIsGoneForGood(s: State, steps: seq<Step>, p: int)
    requires CursorInv(s) && Run(s, steps)
    requires p <= s.start && p !in s.Settled()
    ensures p !in After(s, steps).Settled()
    decreases steps
  {
    if steps != [] {
      CursorInvStep(s, steps[0]);
      PassedStaysOut(s, steps[0], p);
      PassedIsGoneForGood(Next(s, steps[0]), steps[1..], p);
    }
  }

  lemma PassedStaysOut(s: State, step: Step, p: int)
    requires CursorInv(s) && Enabled(s, step)
    requires p <= s.start && p !in s.Settled()
    ensures p <= Next(s, step).start && p !in Next(s, step).Settled()
  {
    match step
    case Queue(_) => assert Fresh(s, s.poll.todo[0]);
    case HandleAt(i) => assert Fresh(s, s.fifo[i].pos);
    case DropAt(i) => assert Fresh(s, s.fifo[i].pos);
    case _ =>
  }

  // A message that is not taken up before a client starts past it never is.
  ghost predicate LeftOut(s: State, p: int) {
    p <= s.start && p !in s.handled + s.dropped + s.skipped
  }

  lemma {:induction false} LeftOutForGood(s: State, steps: seq<Step>, p: int)
    requires CursorInv(s) && Run(s, steps) && LeftOut(s, p)
    ensures LeftOut(After(s, steps), p)
    decreases steps
  {
    if steps != [] {
      CursorInvStep(s, steps[0]);
      StaysLeftOut(s, steps[0], p);
      LeftOutForGood(Next(s, steps[0]), steps[1..], p);
    }
  }

  lemma StaysLeftOut(s: State, step: Step, p: int)
    requires CursorInv(s) && Enabled(s, step) && LeftOut(s, p)
    ensures LeftOut(Next(s, step), p)
  {
    match step
    case Queue(_) => assert Fresh(s, s.poll.todo[0]);
    case HandleAt(i) => assert Fresh(s, s.fifo[i].pos);
    case DropAt(i) => assert Fresh(s, s.fifo[i].pos);
    case _ =>
  }

  // ----- runs that show the limits -----

  lemma RunFrom(s: State, steps: seq<Step>, n: nat, t: State)
    requires n < |steps| && Enabled(s, steps[n]) && Next(s, steps[n]) == t
    requires Run(t, steps[n + 1..])
    ensures Run(s, steps[n..]) && After(s, steps[n..]) == After(t, steps[n + 1..])
  {
    assert steps[n..][1..] == steps[n + 1..];
  }

  lemma {:induction false} RunConcat(s: State, first: seq<Step>, second: seq<Step>)
    requires Run(s, first) && Run(After(s, first), second)
    ensures Run(s, first + second) && After(s, first + second) == After(After(s, first), second)
    decreases first
  {
    if first == [] {
      assert first + second == second;
    } else {
      RunConcat(Next(s, first[0]), first[1..], second);
      assert (first + second)[1..] == first[1..] + second;
    }
  }

  // Message 1 is fetched and queued, and its page released.
  const ONE_FETCHED := INITIAL.(log := {1}, poll := Queueing([1]), pages := [Page(1, NEW_COMMIT, false, false)])
  const ONE_QUEUED := INITIAL.(log := {1}, cursors := CursorView(Some(1), -1), fifo := [Event(1, 0, 0)],
                               pages := [Page(1, Commit(1, [false], true, true, 0, false), true, false)])
  const FETCH_ONE: seq<Step> := [Append(1), Lookup, Fetched([1])]
  const QUEUE_ONE: seq<Step> := [Queue(Accepted), Note, Release]

  lemma FetchOne()
    ensures Run(INITIAL, FETCH_ONE) && After(INITIAL, FETCH_ONE) == ONE_FETCHED
  {
    var s1 := INITIAL.(log := {1});
    var s2 := s1.(poll := Fetching(-1));
    assert Next(s2, Fetched([1])) == ONE_FETCHED;
    RunFrom(s2, FETCH_ONE, 2, ONE_FETCHED);
    RunFrom(s1, FETCH_ONE, 1, s2);
    RunFrom(INITIAL, FETCH_ONE, 0, s1);
    assert FETCH_ONE[0..] == FETCH_ONE;
  }

  lemma QueueOne()
    ensures Run(ONE_FETCHED, QUEUE_ONE) && After(ONE_FETCHED, QUEUE_ONE) == ONE_QUEUED
  {
    var s1 := ONE_FETCHED.(poll := Queueing([]), fifo := [Event(1, 0, 0)],
                           pages := [Page(1, Commit(2, [false], false, false, 0, false), true, false)]);
    var s2 := s1.(poll := Noted, cursors := CursorView(Some(1), -1));
    assert [1][1..] == [] && NEW_COMMIT.fired + [false] == [false];
    assert ONE_FETCHED.fifo + [Event(1, 0, 0)] == s1.fifo && ONE_FETCHED.pages[0 := s1.pages[0]] == s1.pages;
    assert QueueNext(ONE_FETCHED, Accepted) == s1;
    RunFrom(s2, QUEUE_ONE, 2, ONE_QUEUED);
    RunFrom(s1, QUEUE_ONE, 1, s2);
    RunFrom(ONE_FETCHED, QUEUE_ONE, 0, s1);
    assert QUEUE_ONE[0..] == QUEUE_ONE;
  }

  // A page holding only bookkeeping, message 2, is released and saved while
  // message 1 still waits; then the bridge crashes.
  const TWO_FETCHED := ONE_QUEUED.(log := {1, 2}, poll := Queueing([2]),
                                   pages := [ONE_QUEUED.pages[0], Page(2, NEW_COMMIT, false, false)])
  const TWO_RELEASED := ONE_QUEUED.(log := {1, 2}, skipped := {2}, cursors := CursorView(Some(2), -1),
                                    pages := [ONE_QUEUED.pages[0],
                                              Page(2, Commit(0, [], true, true, 1, false), false, false)])
  const ONE_LOST := INITIAL.(log := {1, 2}, db := 2, start := 2, row := 2, skipped := {2})
  const FETCH_TWO: seq<Step> := [Append(2), Lookup, Fetched([2])]
  const SKIP_TWO: seq<Step> := [Queue(Skip), Note, Release]
  const SAVE_TWO: seq<Step> := [SaveWrite(1), Crash]

  lemma FetchTwo()
    ensures Run(ONE_QUEUED, FETCH_TWO) && After(ONE_QUEUED, FETCH_TWO) == TWO_FETCHED
  {
    var s1 := ONE_QUEUED.(log := {1, 2});
    var s2 := s1.(poll := Fetching(1));
    assert s1.log == ONE_QUEUED.log + {2};
    assert Next(s2, Fetched([2])) == TWO_FETCHED;
    RunFrom(s2, FETCH_TWO, 2, TWO_FETCHED);
    RunFrom(s1, FETCH_TWO, 1, s2);
    RunFrom(ONE_QUEUED, FETCH_TWO, 0, s1);
    assert FETCH_TWO[0..] == FETCH_TWO;
  }

  lemma SkipTwo()
    ensures Run(TWO_FETCHED, SKIP_TWO) && After(TWO_FETCHED, SKIP_TWO) == TWO_RELEASED
  {
    var s1 := TWO_FETCHED.(poll := Queueing([]), skipped := {2});
    var s2 := s1.(poll := Noted, cursors := CursorView(Some(2), -1));
    assert [2][1..] == [];
    assert QueueNext(TWO_FETCHED, Skip) == s1;
    RunFrom(s2, SKIP_TWO, 2, TWO_RELEASED);
    RunFrom(s1, SKIP_TWO, 1, s2);
    RunFrom(TWO_FETCHED, SKIP_TWO, 0, s1);
    assert SKIP_TWO[0..] == SKIP_TWO;
  }

  lemma SaveTwo()
    ensures Run(TWO_RELEASED, SAVE_TWO) && After(TWO_RELEASED, SAVE_TWO) == ONE_LOST
  {
    var s1 := TWO_RELEASED.(db := 2, saver := Some(1), pages := [TWO_RELEASED.pages[0],
                            TWO_RELEASED.pages[1].(tried := true)]);
    RunFrom(s1, SAVE_TWO, 1, ONE_LOST);
    RunFrom(TWO_RELEASED, SAVE_TWO, 0, s1);
    assert SAVE_TWO[0..] == SAVE_TWO;
  }

  const LOSING_RUN := FETCH_ONE + QUEUE_ONE + (FETCH_TWO + (SKIP_TWO + SAVE_TWO))

  lemma LosingRunHappens()
    ensures Run(INITIAL, LOSING_RUN) && After(INITIAL, LOSING_RUN) == ONE_LOST
  {
    FetchOne();
    QueueOne();
    RunConcat(INITIAL, FETCH_ONE, QUEUE_ONE);
    SaveTwo();
    SkipTwo();
    RunConcat(TWO_FETCHED, SKIP_TWO, SAVE_TWO);
    FetchTwo();
    RunConcat(ONE_QUEUED, FETCH_TWO, SKIP_TWO + SAVE_TWO);
    RunConcat(INITIAL, FETCH_ONE + QUEUE_ONE, FETCH_TWO + (SKIP_TWO + SAVE_TWO));
  }

  // The guard cannot be dropped: after that run message 1, though the saved
  // cursor has passed it, is never settled, whatever happens later.
  lemma BookkeepingPageLosesMessage(later: seq<Step>)
    requires Run(ONE_LOST, later)
    ensures Run(INITIAL, LOSING_RUN) && Run(INITIAL, LOSING_RUN + later)
    ensures var s := After(INITIAL, LOSING_RUN + later);
            1 in After(INITIAL, LOSING_RUN).log && 1 <= After(INITIAL, LOSING_RUN).db && 1 !in s.Settled()
  {
    LosingRunHappens();
    RunConcat(INITIAL, LOSING_RUN, later);
    PassedIsGoneForGood(ONE_LOST, later, 1);
  }

  // The row is read, then message 1 is handled and saved, and only then is the
  // queued position asked for.
  const ONE_SAVED := ONE_QUEUED.(cursors := CursorView(None, 1), db := 1, fifo := [], handled := {1},
                                 pages := [Page(1, Commit(0, [true], true, true, 1, false), true, true)])
  const ONE_AGAIN := ONE_SAVED.(poll := Queueing([]), fifo := [Event(1, 1, 0)],
                                pages := [ONE_SAVED.pages[0],
                                          Page(1, Commit(2, [false], false, false, 0, false), true, false)])
  const SAVE_ONE: seq<Step> := [ReadRow, HandleAt(0), SaveWrite(0), SaveEnd]
  const REQUEUE_ONE: seq<Step> := [Lookup, Fetched([1]), Queue(Accepted)]

  lemma SaveOne()
    ensures Run(ONE_QUEUED, SAVE_ONE) && After(ONE_QUEUED, SAVE_ONE) == ONE_SAVED
  {
    var s2 := ONE_SAVED.(cursors := ONE_QUEUED.cursors, db := -1, pages := [ONE_SAVED.pages[0].(tried := false)]);
    var s3 := ONE_SAVED.(cursors := ONE_QUEUED.cursors, saver := Some(0));
    assert ONE_QUEUED.fifo[..0] + ONE_QUEUED.fifo[1..] == [];
    assert [false][0 := true] == [true];
    assert Next(ONE_QUEUED, HandleAt(0)) == s2;
    RunFrom(s3, SAVE_ONE, 3, ONE_SAVED);
    RunFrom(s2, SAVE_ONE, 2, s3);
    RunFrom(ONE_QUEUED, SAVE_ONE, 1, s2);
    RunFrom(ONE_QUEUED, SAVE_ONE, 0, ONE_QUEUED);
    assert SAVE_ONE[0..] == SAVE_ONE;
  }

  lemma RequeueOne()
    ensures Run(ONE_SAVED, REQUEUE_ONE) && After(ONE_SAVED, REQUEUE_ONE) == ONE_AGAIN
  {
    var s1 := ONE_SAVED.(poll := Fetching(-1));
    var s2 := ONE_SAVED.(poll := Queueing([1]), pages := [ONE_SAVED.pages[0], Page(1, NEW_COMMIT, false, false)]);
    assert Next(s1, Fetched([1])) == s2;
    assert [1][1..] == [] && NEW_COMMIT.fired + [false] == [false];
    assert s2.fifo + [Event(1, 1, 0)] == ONE_AGAIN.fifo && s2.pages[1 := ONE_AGAIN.pages[1]] == ONE_AGAIN.pages;
    assert QueueNext(s2, Accepted) == ONE_AGAIN;
    RunFrom(s2, REQUEUE_ONE, 2, ONE_AGAIN);
    RunFrom(s1, REQUEUE_ONE, 1, s2);
    RunFrom(ONE_SAVED, REQUEUE_ONE, 0, s1);
    assert REQUEUE_ONE[0..] == REQUEUE_ONE;
  }

  const REQUEUEING_RUN := FETCH_ONE + QUEUE_ONE + (SAVE_ONE + REQUEUE_ONE)

  // A stale row queues a message that was handled and saved once more.
  lemma StaleRowQueuesTwice()
    ensures Run(INITIAL, REQUEUEING_RUN)
    ensures var s := After(INITIAL, REQUEUEING_RUN);
            1 <= s.db && 1 in s.handled && exists e :: e in s.fifo && e.pos == 1
  {
    FetchOne();
    QueueOne();
    RunConcat(INITIAL, FETCH_ONE, QUEUE_ONE);
    SaveOne();
    RequeueOne();
    RunConcat(ONE_QUEUED, SAVE_ONE, REQUEUE_ONE);
    RunConcat(INITIAL, FETCH_ONE + QUEUE_ONE, SAVE_ONE + REQUEUE_ONE);
    assert Event(1, 1, 0) in ONE_AGAIN.fifo;
  }
}
