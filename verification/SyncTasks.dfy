/** Stopping the sync loop: waiting until every goroutine it started has returned. */
module SyncTasks {
  import opened Text

  // A goroutine: counted but not begun; running; returned from its function
  // but still counted; counted out.
  datatype Phase = Added | Running | Returned | Out

  // The goroutine that waits for the others.
  datatype Waiter = Waiting | Woken | Closed

  // What one startSyncTasks makes: its goroutines, the root first; the
  // wait group's count; and the goroutine that closes done.
  datatype Generation = Generation(tasks: seq<Phase>, count: int, waiter: Waiter)

  // The client: every generation made, the one syncCancel and syncDone are of,
  // and the generations that stopSyncLoop waits or has waited for.
  datatype Client = Client(made: seq<Generation>, current: Option<nat>, stopping: set<nat>, stopped: set<nat>)

  datatype Step =
    | Start
    // Goroutine i of generation g starts another.
    | Go(g: nat, i: nat)
    | Begin(g: nat, i: nat)
    | Return(g: nat, i: nat)
    | CountOut(g: nat, i: nat)
    // The wait ends; done is closed.
    | Wake(g: nat)
    | Close(g: nat)
    // stopSyncLoop takes the generation over; it has seen done closed.
    | Stop
    | StopReturns(g: nat)

  function Phased(c: Client, g: nat, i: nat): Option<Phase> {
    if g < |c.made| && i < |c.made[g].tasks| then Some(c.made[g].tasks[i]) else None
  }

  // startSyncTasks does nothing while a generation is current, and
  // stopSyncLoop nothing while none is.
  predicate Enabled(c: Client, s: Step) {
    match s
    case Start => c.current.None?
    case Go(g, i) => Phased(c, g, i) == Some(Running)
    case Begin(g, i) => Phased(c, g, i) == Some(Added)
    case Return(g, i) => Phased(c, g, i) == Some(Running)
    case CountOut(g, i) => Phased(c, g, i) == Some(Returned)
    case Wake(g) => g < |c.made| && c.made[g].waiter == Waiting && c.made[g].count == 0
    case Close(g) => g < |c.made| && c.made[g].waiter == Woken
    case Stop => c.current.Some?
    case StopReturns(g) => g in c.stopping && g < |c.made| && c.made[g].waiter == Closed
  }

  function At(c: Client, g: nat, next: Generation): Client
    requires g < |c.made|
  {
    c.(made := c.made[g := next])
  }

  function Take(c: Client, s: Step): Client
    requires Enabled(c, s)
  {
    match s
    case Start => c.(made := c.made + [Generation([Added], 1, Waiting)], current := Some(|c.made|))
    case Go(g, i) => At(c, g, c.made[g].(tasks := c.made[g].tasks + [Added], count := c.made[g].count + 1))
    case Begin(g, i) => At(c, g, c.made[g].(tasks := c.made[g].tasks[i := Running]))
    case Return(g, i) => At(c, g, c.made[g].(tasks := c.made[g].tasks[i := Returned]))
    case CountOut(g, i) => At(c, g, c.made[g].(tasks := c.made[g].tasks[i := Out], count := c.made[g].count - 1))
    case Wake(g) => At(c, g, c.made[g].(waiter := Woken))
    case Close(g) => At(c, g, c.made[g].(waiter := Closed))
    case Stop => c.(current := None, stopping := c.stopping + {c.current.value})
    case StopReturns(g) => c.(stopping := c.stopping - {g}, stopped := c.stopped + {g})
  }

  predicate Possible(c: Client, steps: seq<Step>)
    decreases steps
  {
    steps == [] || (Enabled(c, steps[0]) && Possible(Take(c, steps[0]), steps[1..]))
  }

  function Run(c: Client, steps: seq<Step>): Client
    requires Possible(c, steps)
    decreases steps
  {
    if steps == [] then c else Run(Take(c, steps[0]), steps[1..])
  }

  const IDLE := Client([], None, {}, {})

  // ----- counting -----

  function Counted(tasks: seq<Phase>): nat {
    if tasks == [] then 0
    else Counted(tasks[..|tasks| - 1]) + if tasks[|tasks| - 1] == Out then 0 else 1
  }

  lemma CountedAppend(tasks: seq<Phase>, p: Phase)
    ensures Counted(tasks + [p]) == Counted(tasks) + if p == Out then 0 else 1
  {
    assert (tasks + [p])[..|tasks|] == tasks;
  }

  lemma {:induction false} CountedUpdate(tasks: seq<Phase>, i: nat, p: Phase)
    requires i < |tasks|
    ensures Counted(tasks[i := p]) ==
            Counted(tasks) + (if p == Out then 0 else 1) - (if tasks[i] == Out then 0 else 1)
  {
    var n := |tasks| - 1;
    if i < n {
      CountedUpdate(tasks[..n], i, p);
      assert tasks[i := p][..n] == tasks[..n][i := p];
    } else {
      assert tasks[i := p][..n] == tasks[..n];
    }
  }

  predicate AllOut(tasks: seq<Phase>) {
    forall i | 0 <= i < |tasks| :: tasks[i] == Out
  }

  lemma {:induction false} CountedZero(tasks: seq<Phase>)
    ensures Counted(tasks) == 0 <==> AllOut(tasks)
  {
    if tasks != [] {
      var n := |tasks| - 1;
      CountedZero(tasks[..n]);
      assert AllOut(tasks) <==> AllOut(tasks[..n]) && tasks[n] == Out by {
        if AllOut(tasks[..n]) && tasks[n] == Out {
          assert forall i | 0 <= i < n :: tasks[i] == tasks[..n][i];
        }
      }
    }
  }

  // ----- what every interleaving keeps -----

  ghost predicate GenerationInv(m: Generation) {
    m.count == Counted(m.tasks) && (m.waiter != Waiting ==> m.count == 0)
  }

  ghost predicate Inv(c: Client) {
    && (forall g | 0 <= g < |c.made| :: GenerationInv(c.made[g]))
    && (c.current.Some? ==> c.current.value < |c.made|)
    && (forall g | g in c.stopped :: g < |c.made| && c.made[g].count == 0)
  }

  lemma AtKeepsInv(c: Client, g: nat, next: Generation)
    requires Inv(c) && g < |c.made| && GenerationInv(next) && (c.made[g].count == 0 ==> next.count == 0)
    ensures Inv(At(c, g, next))
  {
  }

  // One goroutine of a generation moves on.
  lemma PhaseKeepsInv(m: Generation, i: nat, p: Phase)
    requires GenerationInv(m) && i < |m.tasks| && m.tasks[i] != Out
    ensures m.count > 0
    ensures GenerationInv(m.(tasks := m.tasks[i := p], count := if p == Out then m.count - 1 else m.count))
  {
    CountedZero(m.tasks);
    CountedUpdate(m.tasks, i, p);
  }

  lemma GoKeepsInv(m: Generation, i: nat)
    requires GenerationInv(m) && i < |m.tasks| && m.tasks[i] == Running
    ensures m.count > 0 && GenerationInv(m.(tasks := m.tasks + [Added], count := m.count + 1))
  {
    CountedZero(m.tasks);
    CountedAppend(m.tasks, Added);
  }

  lemma StartKeepsInv(c: Client)
    requires Inv(c) && Enabled(c, Start)
    ensures Inv(Take(c, Start))
  {
    assert [Added][..0] == [];
  }

  lemma StepKeepsInv(c: Client, s: Step)
    requires Inv(c) && Enabled(c, s)
    ensures Inv(Take(c, s))
  {
    match s
    case Start => StartKeepsInv(c);
    case Go(g, i) =>
      GoKeepsInv(c.made[g], i);
      AtKeepsInv(c, g, Take(c, s).made[g]);
    case Begin(g, i) =>
      PhaseKeepsInv(c.made[g], i, Running);
      AtKeepsInv(c, g, Take(c, s).made[g]);
    case Return(g, i) =>
      PhaseKeepsInv(c.made[g], i, Returned);
      AtKeepsInv(c, g, Take(c, s).made[g]);
    case CountOut(g, i) =>
      PhaseKeepsInv(c.made[g], i, Out);
      AtKeepsInv(c, g, Take(c, s).made[g]);
    case Wake(g) => AtKeepsInv(c, g, Take(c, s).made[g]);
    case Close(g) => AtKeepsInv(c, g, Take(c, s).made[g]);
    case Stop =>
    case StopReturns(g) =>
  }

  lemma {:induction false} RunKeepsInv(c: Client, steps: seq<Step>)
    requires Inv(c) && Possible(c, steps)
    ensures Inv(Run(c, steps))
    decreases steps
  {
    if steps != [] {
      StepKeepsInv(c, steps[0]);
      RunKeepsInv(Take(c, steps[0]), steps[1..]);
    }
  }

  // In every interleaving the count is that of the goroutines not yet counted
  // out; done is closed, and a stop returns, only once every goroutine its
  // generation ever started has been.
  lemma StopWaitsForEverything(steps: seq<Step>)
    requires Possible(IDLE, steps)
    ensures var c := Run(IDLE, steps);
            && (forall g | 0 <= g < |c.made| :: c.made[g].count == Counted(c.made[g].tasks))
            && (forall g | 0 <= g < |c.made| :: c.made[g].waiter != Waiting ==> AllOut(c.made[g].tasks))
            && (forall g | g in c.stopped :: g < |c.made| && AllOut(c.made[g].tasks))
  {
    RunKeepsInv(IDLE, steps);
    var c := Run(IDLE, steps);
    forall g | 0 <= g < |c.made| && c.made[g].count == 0
      ensures AllOut(c.made[g].tasks)
    {
      CountedZero(c.made[g].tasks);
    }
  }

  lemma ZeroStaysOneStep(c: Client, s: Step, g: nat)
    requires Inv(c) && Enabled(c, s) && g < |c.made| && c.made[g].count == 0
    ensures g < |Take(c, s).made| && Take(c, s).made[g].count == 0 && Take(c, s).made[g].tasks == c.made[g].tasks
  {
    CountedZero(c.made[g].tasks);
  }

  // Once a generation's count is zero no goroutine of it is started again.
  lemma {:induction false} ZeroStaysZero(c: Client, steps: seq<Step>, g: nat)
    requires Inv(c) && Possible(c, steps) && g < |c.made| && c.made[g].count == 0
    ensures var end := Run(c, steps);
            g < |end.made| && end.made[g].count == 0 && end.made[g].tasks == c.made[g].tasks
    decreases steps
  {
    if steps != [] {
      StepKeepsInv(c, steps[0]);
      ZeroStaysOneStep(c, steps[0], g);
      ZeroStaysZero(Take(c, steps[0]), steps[1..], g);
    }
  }

  // ----- one generation after the other -----

  // Every start comes after the stops before it have returned.
  predicate StartsAfterStops(c: Client, steps: seq<Step>)
    requires Possible(c, steps)
    decreases steps
  {
    steps == [] || (
      && (steps[0].Start? ==> c.stopping == {})
      && StartsAfterStops(Take(c, steps[0]), steps[1..]))
  }

  // The generations that are neither current nor being stopped have been.
  ghost predicate OneAtATime(c: Client) {
    && (forall g | 0 <= g < |c.made| :: g in c.stopped || g in c.stopping || c.current == Some(g))
    && (forall g, h | g in c.stopping && h in c.stopping :: g == h)
    && (c.current.Some? ==> c.stopping == {})
  }

  lemma StepKeepsOneAtATime(c: Client, s: Step)
    requires Inv(c) && OneAtATime(c) && Enabled(c, s) && (s.Start? ==> c.stopping == {})
    ensures OneAtATime(Take(c, s))
  {
  }

  lemma {:induction false} RunKeepsOneAtATime(c: Client, steps: seq<Step>)
    requires Inv(c) && OneAtATime(c) && Possible(c, steps) && StartsAfterStops(c, steps)
    ensures Inv(Run(c, steps)) && OneAtATime(Run(c, steps))
    decreases steps
  {
    if steps != [] {
      StepKeepsInv(c, steps[0]);
      StepKeepsOneAtATime(c, steps[0]);
      RunKeepsOneAtATime(Take(c, steps[0]), steps[1..]);
    }
  }

  // If each start waits for the stop before it, no two generations ever have
  // goroutines at the same time.
  lemma GenerationsNeverOverlap(steps: seq<Step>, g: nat, h: nat)
    requires Possible(IDLE, steps) && StartsAfterStops(IDLE, steps)
    requires var c := Run(IDLE, steps); g < h < |c.made|
    ensures AllOut(Run(IDLE, steps).made[g].tasks) || AllOut(Run(IDLE, steps).made[h].tasks)
  {
    RunKeepsOneAtATime(IDLE, steps);
    CountedZero(Run(IDLE, steps).made[g].tasks);
    CountedZero(Run(IDLE, steps).made[h].tasks);
  }
}
