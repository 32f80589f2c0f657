/** Chat pins kept the same on Teams and Matrix: discovery's announcements one way, room tags the other. */
module PinSync {
  import opened Text

  // What discovery compares before announcing a chat again: whether it is
  // pinned, and a number standing for the rest (name, topic, type, members, mute).
  datatype Signature = Signature(pinned: bool, rest: nat)

  // An m.tag event of the room: whether the room is a favourite now, and
  // whether it was before where the event says so.
  datatype TagEvent = TagEvent(prev: Option<bool>, cur: bool)

  function Tracked(tracker: Option<bool>): bool {
    tracker == Some(true)
  }

  // ----- the client's side, in place -----

  // stateTracker.changed: a chat that turned on, or is on and seen first, or
  // turned off.
  predicate Changed(tracker: Option<bool>, on: bool) {
    (on && tracker != Some(true)) || (!on && tracker == Some(true))
  }

  function Entry<T>(m: map<string, T>, key: string): Option<T> {
    if key in m then Some(m[key]) else None
  }

  class PinClient {
    // threadID -> pinned on Teams, as last seen
    var pins: map<string, bool>
    // threadID -> the chat-info signature last recorded
    var chatInfoSigs: map<string, Signature>
    // the chats pinned on Teams
    var teams: set<string>

    constructor (teams: set<string>)
      ensures this.teams == teams && pins == map[] && chatInfoSigs == map[]
    {
      this.teams, pins, chatInfoSigs := teams, map[], map[];
    }

    method Observe(threadID: string, pinned: bool) returns (tag: Option<bool>)
      modifies this`pins
      ensures tag == if Changed(Entry(old(pins), threadID), pinned) then Some(pinned) else None
      ensures pins == old(pins)[threadID := pinned]
    {
      var known, prev := threadID in pins, false;
      if known {
        prev := pins[threadID];
      }
      pins := pins[threadID := pinned];
      if (pinned && (!known || !prev)) || (!pinned && known && prev) {
        return Some(pinned);
      }
      return None;
    }

    // One discovery pass over one chat: the tag it queues, if any. pinsKnown
    // is false when the pinned chats could not be read.
    method Discover(threadID: string, rest: nat, pinsKnown: bool) returns (announced: Option<bool>)
      modifies this`pins, this`chatInfoSigs
      ensures var now, next := Pin(threadID in teams, Entry(old(pins), threadID), Entry(old(chatInfoSigs), threadID)),
                               Pin(threadID in teams, Entry(pins, threadID), Entry(chatInfoSigs, threadID));
              next == now.Discovered(rest, pinsKnown) && announced == now.Announced(rest, pinsKnown)
      ensures forall t | t != threadID ::
                Entry(pins, t) == Entry(old(pins), t) && Entry(chatInfoSigs, t) == Entry(old(chatInfoSigs), t)
    {
      var pinned, tag := threadID in pins && pins[threadID], None;
      if pinsKnown {
        pinned := threadID in teams;
        tag := Observe(threadID, pinned);
      }
      var sig := Signature(pinned, rest);
      var changed := threadID !in chatInfoSigs || chatInfoSigs[threadID] != sig;
      chatInfoSigs := chatInfoSigs[threadID := sig];
      if !changed {
        return None;
      }
      return tag;
    }

    method HandleRoomTag(threadID: string, e: TagEvent) returns (wrote: bool)
      modifies this`pins, this`teams
      ensures var now, next := Pin(threadID in old(teams), Entry(old(pins), threadID), Entry(chatInfoSigs, threadID)),
                               Pin(threadID in teams, Entry(pins, threadID), Entry(chatInfoSigs, threadID));
              next == now.Handled(e) && (!wrote ==> teams == old(teams) && pins == old(pins))
      ensures wrote <==> e.prev != Some(e.cur) && Entry(old(pins), threadID) != Some(e.cur)
      ensures wrote ==> (threadID in teams <==> e.cur) && Entry(pins, threadID) == Some(e.cur)
      ensures forall t | t != threadID ::
                Entry(pins, t) == Entry(old(pins), t) && (t in teams <==> t in old(teams))
    {
      if e.prev == Some(e.cur) {
        return false;
      }
      if threadID in pins && pins[threadID] == e.cur {
        return false;
      }
      teams := if e.cur then teams + {threadID} else teams - {threadID};
      pins := pins[threadID := e.cur];
      return true;
    }
  }

  // One chat's part of that: whether Teams pins it, what the tracker holds,
  // and the signature recorded.
  datatype Pin = Pin(teams: bool, tracker: Option<bool>, sig: Option<Signature>) {
    // The pin state a discovery pass goes by, and the signature it makes.
    function Seen(rest: nat, pinsKnown: bool): Signature {
      Signature(if pinsKnown then teams else Tracked(tracker), rest)
    }

    function Discovered(rest: nat, pinsKnown: bool): Pin {
      Pin(teams, if pinsKnown then Some(teams) else tracker, Some(Seen(rest, pinsKnown)))
    }

    // The tag is announced with the chat info, so not under an old signature.
    function Announced(rest: nat, pinsKnown: bool): Option<bool> {
      if pinsKnown && Changed(tracker, teams) && sig != Some(Seen(rest, pinsKnown)) then Some(teams) else None
    }

    // Discovery takes in a change of the pin and announces nothing.
    predicate Swallows(rest: nat, pinsKnown: bool) {
      pinsKnown && Changed(tracker, teams) && sig == Some(Seen(rest, pinsKnown))
    }

    // A tag event is ignored where it says nothing about the favourite, or
    // nothing the tracker does not hold.
    predicate Ignores(e: TagEvent) {
      e.prev == Some(e.cur) || tracker == Some(e.cur)
    }

    function Handled(e: TagEvent): Pin {
      if Ignores(e) then this else Pin(e.cur, Some(e.cur), sig)
    }
  }

  // ----- the whole system, for one chat -----

  // With the room's tag, the announcements queued for it, and its tag events
  // on their way back; both queues are handled in order.
  datatype State = State(pin: Pin, tag: bool, announced: seq<bool>, events: seq<TagEvent>)

  datatype Step =
    // Someone pins or unpins the chat on Teams.
    | ToggleOnTeams
    // Someone favourites or unfavourites the room, or changes another tag.
    | ToggleOnMatrix(withPrev: bool)
    | OtherTag(withPrev: bool)
    | Discover(rest: nat, pinsKnown: bool)
    // The signature's map entry expires.
    | ExpireSignature
    // bridgev2 sets the tag announced first; an unchanged tag may echo or not.
    | Apply(withPrev: bool, echo: bool)
    // The client handles the first tag event.
    | Handle

  function Event(tag: bool, withPrev: bool, next: bool): TagEvent {
    TagEvent(if withPrev then Some(tag) else None, next)
  }

  predicate Enabled(s: State, step: Step) {
    && (step.Apply? ==> s.announced != [])
    && (step.Handle? ==> s.events != [])
  }

  function Take(s: State, step: Step): State
    requires Enabled(s, step)
  {
    match step
    case ToggleOnTeams => s.(pin := s.pin.(teams := !s.pin.teams))
    case ToggleOnMatrix(withPrev) => s.(tag := !s.tag, events := s.events + [Event(s.tag, withPrev, !s.tag)])
    case OtherTag(withPrev) => s.(events := s.events + [Event(s.tag, withPrev, s.tag)])
    case Discover(rest, pinsKnown) =>
      var tag := s.pin.Announced(rest, pinsKnown);
      s.(pin := s.pin.Discovered(rest, pinsKnown),
         announced := if tag.Some? then s.announced + [tag.value] else s.announced)
    case ExpireSignature => s.(pin := s.pin.(sig := None))
    case Apply(withPrev, echo) =>
      var tag := s.announced[0];
      s.(tag := tag, announced := s.announced[1..],
         events := if tag != s.tag || echo then s.events + [Event(s.tag, withPrev, tag)] else s.events)
    case Handle => s.(pin := s.pin.Handled(s.events[0]), events := s.events[1..])
  }

  predicate Possible(s: State, steps: seq<Step>)
    decreases steps
  {
    steps == [] || (Enabled(s, steps[0]) && Possible(Take(s, steps[0]), steps[1..]))
  }

  function Run(s: State, steps: seq<Step>): State
    requires Possible(s, steps)
    decreases steps
  {
    if steps == [] then s else Run(Take(s, steps[0]), steps[1..])
  }

  // ----- when the two sides agree -----

  predicate Quiet(s: State) {
    s.announced == [] && s.events == []
  }

  predicate InAgreement(s: State) {
    Tracked(s.pin.tracker) == s.tag
  }

  // What the last event on its way that tells anything about the favourite tells.
  function LastTelling(events: seq<TagEvent>): Option<bool> {
    if events == [] then None
    else
      var last := events[|events| - 1];
      if last.prev != Some(last.cur) then Some(last.cur) else LastTelling(events[..|events| - 1])
  }

  predicate AnyOther(announced: seq<bool>, tag: bool) {
    exists i :: 0 <= i < |announced| && announced[i] != tag
  }

  // Nothing in the queues will change the tag or tell about it.
  predicate NothingPending(s: State) {
    LastTelling(s.events).None? && !AnyOther(s.announced, s.tag)
  }

  // A discovery pass swallows a change of the pin while nothing is pending.
  predicate Loses(s: State, step: Step) {
    step.Discover? && s.pin.Swallows(step.rest, step.pinsKnown) && NothingPending(s)
  }

  // A step that brings the sides together, or sends something that will: any
  // tag event without its previous content, any change of the favourite, and
  // any change of the pin that discovery announces or sees before the queues
  // are done.
  predicate Heals(s: State, step: Step) {
    match step
    case ToggleOnMatrix(_) => true
    case OtherTag(withPrev) => !withPrev
    case Apply(withPrev, echo) => echo && !withPrev
    case Discover(_, pinsKnown) => pinsKnown && Changed(s.pin.tracker, s.pin.teams)
    case ToggleOnTeams => false
    case ExpireSignature => false
    case Handle => false
  }

  // Whether the run's swallowed changes leave the sides apart: one does, the
  // next one turns the pin back, and a healing step ends it.
  predicate Lost(lost: bool, s: State, steps: seq<Step>)
    requires Possible(s, steps)
    decreases steps
  {
    if steps == [] then lost
    else
      Lost(if Loses(s, steps[0]) then !lost else lost && !Heals(s, steps[0]), Take(s, steps[0]), steps[1..])
  }

  // The queues will bring the tracker and the tag together, or need not.
  predicate Settling(s: State) {
    !NothingPending(s) || InAgreement(s)
  }

  // What the tag events tell last is the room's tag.
  predicate TellsTag(s: State) {
    LastTelling(s.events).None? || LastTelling(s.events) == Some(s.tag)
  }

  lemma LastTellingAppend(events: seq<TagEvent>, e: TagEvent)
    ensures LastTelling(events + [e]) == if e.prev != Some(e.cur) then Some(e.cur) else LastTelling(events)
  {
    assert (events + [e])[..|events|] == events;
  }

  lemma {:induction false} LastTellingRest(events: seq<TagEvent>)
    requires events != []
    ensures LastTelling(events) ==
            if LastTelling(events[1..]).Some? then LastTelling(events[1..])
            else if events[0].prev != Some(events[0].cur) then Some(events[0].cur) else None
  {
    var init, last := events[..|events| - 1], events[|events| - 1];
    if |events| > 1 && last.prev == Some(last.cur) {
      LastTellingRest(init);
      assert events[1..][..|events| - 2] == init[1..];
    }
  }

  lemma AnyOtherAppend(announced: seq<bool>, tag: bool, next: bool)
    ensures AnyOther(announced + [next], tag) <==> AnyOther(announced, tag) || next != tag
  {
    var all := announced + [next];
    if AnyOther(announced, tag) {
      var i :| 0 <= i < |announced| && announced[i] != tag;
      assert all[i] != tag;
    }
    assert all[|announced|] == next;
  }

  lemma AnyOtherRest(announced: seq<bool>, tag: bool)
    requires announced != [] && announced[0] == tag
    ensures AnyOther(announced[1..], tag) <==> AnyOther(announced, tag)
  {
    if AnyOther(announced, tag) {
      var i :| 0 <= i < |announced| && announced[i] != tag;
      assert announced[1..][i - 1] != tag;
    }
  }

  // What a step does to the tag's being told and to settling.
  ghost predicate Settles(s: State, step: Step)
    requires Enabled(s, step)
  {
    && TellsTag(Take(s, step))
    && (Settling(Take(s, step)) <==> if Loses(s, step) then !Settling(s) else Settling(s) || Heals(s, step))
  }

  lemma EventSettles(s: State, step: Step)
    requires TellsTag(s) && Enabled(s, step) && (step.ToggleOnMatrix? || step.OtherTag?)
    ensures Settles(s, step)
  {
    LastTellingAppend(s.events, Event(s.tag, step.withPrev, if step.OtherTag? then s.tag else !s.tag));
  }

  lemma HandleSettles(s: State)
    requires TellsTag(s) && Enabled(s, Handle)
    ensures Settles(s, Handle)
  {
    LastTellingRest(s.events);
  }

  lemma ApplySettles(s: State, withPrev: bool, echo: bool)
    requires TellsTag(s) && Enabled(s, Apply(withPrev, echo))
    ensures Settles(s, Apply(withPrev, echo))
  {
    LastTellingAppend(s.events, Event(s.tag, withPrev, s.announced[0]));
    if s.announced[0] == s.tag {
      AnyOtherRest(s.announced, s.tag);
    } else {
      assert AnyOther(s.announced, s.tag);
    }
  }

  // Every step keeps the events telling the tag, and settles or loses exactly
  // as the guards say.
  lemma StepSettles(s: State, step: Step)
    requires TellsTag(s) && Enabled(s, step)
    ensures TellsTag(Take(s, step))
    ensures Settling(Take(s, step)) <==>
            if Loses(s, step) then !Settling(s) else Settling(s) || Heals(s, step)
  {
    assert Settles(s, step) by {
      match step
      case ToggleOnTeams =>
      case ExpireSignature =>
      case ToggleOnMatrix(_) => EventSettles(s, step);
      case OtherTag(_) => EventSettles(s, step);
      case Handle => HandleSettles(s);
      case Discover(rest, pinsKnown) => DiscoverSettles(s, rest, pinsKnown);
      case Apply(withPrev, echo) => ApplySettles(s, withPrev, echo);
    }
  }

  lemma DiscoverSettles(s: State, rest: nat, pinsKnown: bool)
    requires TellsTag(s)
    ensures Settles(s, Discover(rest, pinsKnown))
  {
    AnyOtherAppend(s.announced, s.tag, s.pin.teams);
  }

  lemma {:induction false} SettlingUnlessLost(s: State, steps: seq<Step>)
    requires TellsTag(s) && Possible(s, steps)
    ensures TellsTag(Run(s, steps))
    ensures Settling(Run(s, steps)) <==> !Lost(!Settling(s), s, steps)
    decreases steps
  {
    if steps != [] {
      StepSettles(s, steps[0]);
      SettlingUnlessLost(Take(s, steps[0]), steps[1..]);
    }
  }

  // From agreement, over every interleaving: once the queues are done, the
  // tracker and the room's tag agree exactly if no swallowed change is left.
  lemma AgreesUnlessLost(s: State, steps: seq<Step>)
    requires Quiet(s) && InAgreement(s) && Possible(s, steps) && Quiet(Run(s, steps))
    ensures InAgreement(Run(s, steps)) <==> !Lost(false, s, steps)
  {
    SettlingUnlessLost(s, steps);
  }

  // In particular they agree after any run in which no discovery pass swallows a change.
  predicate NeverSwallows(s: State, steps: seq<Step>)
    requires Possible(s, steps)
    decreases steps
  {
    steps == [] || (
      && !(steps[0].Discover? && s.pin.Swallows(steps[0].rest, steps[0].pinsKnown))
      && NeverSwallows(Take(s, steps[0]), steps[1..]))
  }

  lemma {:induction false} NotLostWithoutSwallowing(s: State, steps: seq<Step>)
    requires Possible(s, steps) && NeverSwallows(s, steps)
    ensures !Lost(false, s, steps)
    decreases steps
  {
    if steps != [] {
      NotLostWithoutSwallowing(Take(s, steps[0]), steps[1..]);
    }
  }

  lemma AgreesWithoutSwallowing(s: State, steps: seq<Step>)
    requires Quiet(s) && InAgreement(s) && Possible(s, steps) && NeverSwallows(s, steps) && Quiet(Run(s, steps))
    ensures InAgreement(Run(s, steps))
  {
    NotLostWithoutSwallowing(s, steps);
    AgreesUnlessLost(s, steps);
  }

  // ----- Teams' side -----

  // The tracker holds what Teams does, if it holds anything.
  predicate TracksTeams(s: State) {
    s.pin.tracker.Some? ==> s.pin.tracker.value == s.pin.teams
  }

  // Whether the tracker is behind Teams at the end: a toggle there changes
  // that, a pass that reads the pins or an event that is not ignored ends it.
  predicate Behind(behind: bool, s: State, steps: seq<Step>)
    requires Possible(s, steps)
    decreases steps
  {
    if steps == [] then behind
    else
      Behind(match steps[0]
             case ToggleOnTeams => s.pin.tracker.Some? && !behind
             case Discover(_, pinsKnown) => behind && !pinsKnown
             case Handle => behind && s.pin.Ignores(s.events[0])
             case _ => behind,
             Take(s, steps[0]), steps[1..])
  }

  lemma {:induction false} BehindExactly(s: State, steps: seq<Step>)
    requires Possible(s, steps)
    ensures TracksTeams(Run(s, steps)) <==> !Behind(!TracksTeams(s), s, steps)
    decreases steps
  {
    if steps != [] {
      BehindExactly(Take(s, steps[0]), steps[1..]);
    }
  }

  predicate NoToggleOnTeams(steps: seq<Step>) {
    forall i | 0 <= i < |steps| :: !steps[i].ToggleOnTeams?
  }

  lemma {:induction false} StaysWithTeams(s: State, steps: seq<Step>)
    requires Possible(s, steps) && NoToggleOnTeams(steps) && TracksTeams(s)
    ensures TracksTeams(Run(s, steps))
    decreases steps
  {
    if steps != [] {
      StaysWithTeams(Take(s, steps[0]), steps[1..]);
    }
  }

  // Teams, tracker and the room's tag all agree.
  predicate AllAgree(s: State) {
    s.pin.tracker.Some? && s.pin.teams == s.pin.tracker.value == s.tag
  }

  // From agreement, over every interleaving: once the queues are done, the
  // three agree exactly if no swallowed change is left, the tracker is not
  // behind Teams, and Teams' pins have become known at all.
  lemma AllAgreeExactly(s: State, steps: seq<Step>)
    requires Quiet(s) && InAgreement(s) && Possible(s, steps) && Quiet(Run(s, steps))
    ensures AllAgree(Run(s, steps)) <==>
            && !Lost(false, s, steps) && !Behind(!TracksTeams(s), s, steps) && Run(s, steps).pin.tracker.Some?
  {
    AgreesUnlessLost(s, steps);
    BehindExactly(s, steps);
  }

  lemma {:induction false} TrackerStays(s: State, steps: seq<Step>)
    requires Possible(s, steps) && s.pin.tracker.Some?
    ensures Run(s, steps).pin.tracker.Some?
    decreases steps
  {
    if steps != [] {
      TrackerStays(Take(s, steps[0]), steps[1..]);
    }
  }

  // What is changed on Matrix alone thus reaches Teams, pinned or unpinned.
  lemma MatrixReachesTeams(s: State, steps: seq<Step>)
    requires Quiet(s) && AllAgree(s) && NoToggleOnTeams(steps)
    requires Possible(s, steps) && Quiet(Run(s, steps)) && !Lost(false, s, steps)
    ensures AllAgree(Run(s, steps))
  {
    TrackerStays(s, steps);
    StaysWithTeams(s, steps);
    BehindExactly(s, steps);
    AllAgreeExactly(s, steps);
  }

  // ----- a discovery pass, and what it sets off -----

  predicate Drains(steps: seq<Step>) {
    forall i | 0 <= i < |steps| :: steps[i].Apply? || steps[i].Handle?
  }

  // One pass from agreement, and its queues run dry: Teams is never written,
  // and Teams, tracker and tag all agree exactly if the pass swallowed nothing.
  lemma DiscoveryBringsAgreement(s: State, rest: nat, steps: seq<Step>)
    requires Quiet(s) && InAgreement(s)
    requires var next := Take(s, Discover(rest, true));
             Drains(steps) && Possible(next, steps) && Quiet(Run(next, steps))
    ensures var end := Run(Take(s, Discover(rest, true)), steps);
            && end.pin.teams == s.pin.teams == Tracked(end.pin.tracker)
            && (end.tag == end.pin.teams <==> !s.pin.Swallows(rest, true))
  {
    var next := Take(s, Discover(rest, true));
    if next.announced == [] {
      NothingToDrain(next, steps);
    } else {
      assert steps != [] && next.events == [] && |next.announced| == 1;
      var applied, later := Take(next, steps[0]), steps[1..];
      assert Enabled(next, steps[0]) && steps[0].Apply?;
      assert applied.announced == [] && |applied.events| == 1;
      assert Run(next, steps) == Run(applied, later) && !Quiet(applied);
      assert later != [] && Enabled(applied, later[0]) && later[0] == steps[1];
      var handled := Take(applied, later[0]);
      assert Possible(handled, later[1..]) && Run(applied, later) == Run(handled, later[1..]);
      NothingToDrain(handled, later[1..]);
    }
  }

  lemma NothingToDrain(s: State, steps: seq<Step>)
    requires Quiet(s) && Drains(steps) && Possible(s, steps)
    ensures steps == []
  {
  }

  // ----- a run that loses agreement -----

  const LOSING_RUN := [
    Discover(0, true),     // records the signature: not pinned
    ToggleOnMatrix(true),  // favourited on Matrix,
    Handle,                // so pinned on Teams,
    ToggleOnTeams,         // where it is unpinned
    Discover(0, true)      // before discovery has seen it pinned: the old signature
  ]

  // The room stays a favourite and the chat unpinned, however often discovery
  // looks again, until somebody changes something.
  lemma PinsCanStayApart()
    ensures var s := State(Pin(false, None, None), false, [], []);
            && Quiet(s) && InAgreement(s) && Possible(s, LOSING_RUN)
            && var end := Run(s, LOSING_RUN);
               && Quiet(end) && Apart(end)
               && forall steps | Possible(end, steps) && NobodyChanges(steps) ::
                    Apart(Run(end, steps)) && Run(end, steps).announced == []
  {
    var s0 := State(Pin(false, None, None), false, [], []);
    var s1 := State(Pin(false, Some(false), Some(Signature(false, 0))), false, [], []);
    var s2 := s1.(tag := true, events := [TagEvent(Some(false), true)]);
    var s3 := State(Pin(true, Some(true), Some(Signature(false, 0))), true, [], []);
    var s4 := s3.(pin := s3.pin.(teams := false));
    var s5 := s4.(pin := s4.pin.(tracker := Some(false)));
    assert Take(s0, LOSING_RUN[0]) == s1 && Take(s1, LOSING_RUN[1]) == s2 && Take(s2, LOSING_RUN[2]) == s3;
    assert Take(s3, LOSING_RUN[3]) == s4 && Take(s4, LOSING_RUN[4]) == s5;
    assert Run(s4, LOSING_RUN[4..]) == s5 by {
      assert LOSING_RUN[4..][1..] == [];
    }
    assert Run(s3, LOSING_RUN[3..]) == s5 by {
      assert LOSING_RUN[3..][1..] == LOSING_RUN[4..];
    }
    assert Run(s2, LOSING_RUN[2..]) == s5 by {
      assert LOSING_RUN[2..][1..] == LOSING_RUN[3..];
    }
    assert LOSING_RUN[1..][1..] == LOSING_RUN[2..];
    forall steps | Possible(s5, steps) && NobodyChanges(steps)
      ensures Apart(Run(s5, steps)) && Run(s5, steps).announced == []
    {
      StaysApart(s5, steps);
    }
  }

  // The room is a favourite; Teams does not pin the chat, and the tracker agrees with Teams.
  predicate Apart(s: State) {
    s.tag && s.pin.tracker == Some(false) && !s.pin.teams
  }

  // Nobody pins or favourites anything, and no other tag's event leaves out
  // what was before it; discovery goes on.
  predicate NobodyChanges(steps: seq<Step>) {
    forall i | 0 <= i < |steps| :: !steps[i].ToggleOnTeams? && !steps[i].ToggleOnMatrix? && steps[i] != OtherTag(false)
  }

  lemma {:induction false} StaysApart(s: State, steps: seq<Step>)
    requires Apart(s) && s.announced == [] && LastTelling(s.events) == None
    requires Possible(s, steps) && NobodyChanges(steps)
    ensures Apart(Run(s, steps)) && Run(s, steps).announced == []
    decreases steps
  {
    if steps != [] {
      var next := Take(s, steps[0]);
      LastTellingAppend(s.events, Event(s.tag, true, s.tag));
      if steps[0].Handle? {
        LastTellingRest(s.events);
      }
      assert next.announced == [] && LastTelling(next.events) == None;
      StaysApart(next, steps[1..]);
    }
  }
}
