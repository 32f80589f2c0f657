/** The delivery protocol's fetches, as ListMessages makes them. */
module CompleteFetches {
  import opened DeliveryProtocol
  import opened CatchUp

  ghost predicate HasPosition(h: seq<Message>, p: int) {
    exists i :: 0 <= i < |h| && h[i].pos == p
  }

  // What the poll keeps of the messages listed: the positions above its base.
  function Above(msgs: seq<Message>, base: int): seq<int> {
    if msgs == [] then []
    else
      var last := msgs[|msgs| - 1];
      Above(msgs[..|msgs| - 1], base) + if last.pos > base then [last.pos as int] else []
  }

  // The fetch under way returns what ListMessages does when Teams holds the
  // thread as h. The base of a poll without a cursor is NO_CURSOR.
  ghost predicate Listed(s: State, got: seq<int>, h: seq<Message>, pageSize: nat, refused: set<nat>, first: nat) {
    && s.poll.Fetching? && IsHistory(h) && pageSize > 0
    && (forall p :: p in s.log <==> HasPosition(h, p))
    && got == Above(Listing(h, s.poll.base, pageSize, refused, first), s.poll.base)
  }

  // What lies above the base fits into the pages answered, none of which begins
  // in the middle of a millisecond; without a cursor there is one page.
  ghost predicate Fits(h: seq<Message>, base: int, pageSize: nat, refused: set<nat>, first: nat)
    requires IsHistory(h) && pageSize > 0
  {
    if base == NO_CURSOR then first !in refused && |h| <= pageSize
    else
      var passed := Passed(h, base);
      && |h| - passed <= Capacity(pageSize, refused, first, MAX_CATCHUP_PAGES)
      && NoCuts(h, |h|, passed, pageSize)
  }

  lemma PositionAppend(msgs: seq<Message>, m: Message, p: int)
    ensures HasPosition(msgs + [m], p) <==> HasPosition(msgs, p) || m.pos == p
  {
    var all := msgs + [m];
    if HasPosition(msgs, p) {
      var i :| 0 <= i < |msgs| && msgs[i].pos == p;
      assert all[i].pos == p;
    }
    assert all[|msgs|] == m;
  }

  lemma {:induction false} AboveMembers(msgs: seq<Message>, base: int, p: int)
    ensures p in Above(msgs, base) <==> p > base && HasPosition(msgs, p)
  {
    if msgs != [] {
      var init, last := msgs[..|msgs| - 1], msgs[|msgs| - 1];
      assert msgs == init + [last];
      AboveMembers(init, base, p);
      PositionAppend(init, last, p);
    }
  }

  // The messages above the base are a suffix, and all listed exactly if they fit.
  lemma ListsAllExactly(h: seq<Message>, base: int, pageSize: nat, refused: set<nat>, first: nat) returns (passed: nat)
    requires IsHistory(h) && pageSize > 0 && base >= NO_CURSOR && h != []
    ensures passed <= |h| && forall i | 0 <= i < |h| :: h[i].pos > base <==> passed <= i
    ensures HasFrom(Listing(h, base, pageSize, refused, first), h, passed) <==> Fits(h, base, pageSize, refused, first)
  {
    if base == NO_CURSOR {
      passed := 0;
      CollectedNewestExactly(h, pageSize, refused, first);
    } else {
      passed := Passed(h, base);
      CollectedAllExactly(h, base, pageSize, refused, first);
    }
  }

  // The thread's message at a position is listed, or no message there is.
  lemma ListedPosition(h: seq<Message>, base: int, pageSize: nat, refused: set<nat>, first: nat, i: nat)
    requires IsHistory(h) && pageSize > 0 && i < |h| && h[i].pos > base
    ensures var listing := Listing(h, base, pageSize, refused, first);
            h[i] in listing <==> h[i].pos as int in Above(listing, base)
  {
    var listing := Listing(h, base, pageSize, refused, first);
    AboveMembers(listing, base, h[i].pos);
    KeptInOrder(h, base, pageSize, refused, first, MAX_CATCHUP_PAGES);
    if HasPosition(listing, h[i].pos) {
      var j :| 0 <= j < |listing| && listing[j].pos == h[i].pos;
      assert listing[j] in listing;
      var k :| 0 <= k < |h| && h[k] == listing[j];
      assert k == i;
    }
  }

  // The newest message returned is the thread's newest.
  lemma NewestIsLast(h: seq<Message>, base: int, pageSize: nat, refused: set<nat>, first: nat)
    requires IsHistory(h) && pageSize > 0 && Above(Listing(h, base, pageSize, refused, first), base) != []
    ensures h != [] && h[|h| - 1] in Listing(h, base, pageSize, refused, first)
    ensures h[|h| - 1].pos > base && MaxOf(Above(Listing(h, base, pageSize, refused, first), base)) == h[|h| - 1].pos
  {
    var listing := Listing(h, base, pageSize, refused, first);
    var got := Above(listing, base);
    var max := MaxOf(got);
    if h == [] || first in refused {
      RefusedListsNothing(h, base, pageSize, refused, first, MAX_CATCHUP_PAGES);
      assert false;
    }
    LaterIsKept(h, base, pageSize, refused, first, MAX_CATCHUP_PAGES);
    MaxOfBounds(got);
    AboveMembers(listing, base, max);
    KeptInOrder(h, base, pageSize, refused, first, MAX_CATCHUP_PAGES);
    var i :| 0 <= i < |listing| && listing[i].pos == max;
    assert listing[i] in listing;
    var k :| 0 <= k < |h| && h[k] == listing[i];
    ListedPosition(h, base, pageSize, refused, first, |h| - 1);
  }

  lemma {:induction false} RefusedListsNothing(h: seq<Message>, since: int, pageSize: nat, refused: set<nat>, first: nat,
                                               pages: nat)
    requires pageSize > 0 && (h == [] || first in refused)
    ensures WalkBack(h, since, pageSize, refused, first, pages).kept == []
    ensures pages > 0 ==> WalkBack(h, since, pageSize, refused, first, pages).done
  {
    if pages > 0 {
      RefusedListsNothing(h, since, pageSize, refused, first, pages - 1);
    }
  }

  ghost predicate NoGap(s: State, got: seq<int>)
    requires Enabled(s, Fetched(got))
  {
    forall p | p in s.log && s.poll.base < p < MaxOf(got) :: p in got
  }

  // A fetch passes no message without returning it exactly if what lies above
  // its base fits.
  lemma NoGapExactly(s: State, got: seq<int>, h: seq<Message>, pageSize: nat, refused: set<nat>, first: nat)
    requires CursorInv(s) && Enabled(s, Fetched(got)) && Listed(s, got, h, pageSize, refused, first)
    ensures NoGap(s, got) <==> Fits(h, s.poll.base, pageSize, refused, first)
  {
    var base := s.poll.base;
    var listing := Listing(h, base, pageSize, refused, first);
    NewestIsLast(h, base, pageSize, refused, first);
    var passed := ListsAllExactly(h, base, pageSize, refused, first);
    if HasFrom(listing, h, passed) {
      forall p | p in s.log && base < p < MaxOf(got)
        ensures p in got
      {
        var i :| 0 <= i < |h| && h[i].pos == p;
        ListedPosition(h, base, pageSize, refused, first, i);
      }
    } else {
      var i :| passed <= i < |h| && h[i] !in listing;
      ListedPosition(h, base, pageSize, refused, first, i);
      assert HasPosition(h, h[i].pos);
    }
  }

  // ----- whole runs -----

  ghost predicate ListedRun(s: State, steps: seq<Step>)
    decreases steps
  {
    steps == [] || (
      && Enabled(s, steps[0])
      && (steps[0].Fetched? ==>
            exists h, pageSize, refused, first :: Listed(s, steps[0].got, h, pageSize, refused, first))
      && ListedRun(Next(s, steps[0]), steps[1..]))
  }

  // Every fetch had room for what lay above its base.
  ghost predicate AllFit(s: State, steps: seq<Step>)
    requires Run(s, steps)
    decreases steps
  {
    steps == [] || (
      && (steps[0].Fetched? ==>
            exists h, pageSize, refused, first ::
              Listed(s, steps[0].got, h, pageSize, refused, first) && Fits(h, s.poll.base, pageSize, refused, first))
      && AllFit(Next(s, steps[0]), steps[1..]))
  }

  lemma MissedNothingExactly(s: State, got: seq<int>)
    requires CursorInv(s) && Enabled(s, Fetched(got))
    requires exists h, pageSize, refused, first :: Listed(s, got, h, pageSize, refused, first)
    ensures Next(s, Fetched(got)).missed == {} <==>
            s.missed == {} && exists h, pageSize, refused, first ::
              Listed(s, got, h, pageSize, refused, first) && Fits(h, s.poll.base, pageSize, refused, first)
  {
    var gap := set p | p in s.log && s.poll.base < p < MaxOf(got) && p !in got;
    assert Next(s, Fetched(got)).missed == s.missed + gap;
    assert gap == {} <==> NoGap(s, got) by {
      if gap == {} {
        forall p | p in s.log && s.poll.base < p < MaxOf(got)
          ensures p in got
        {
          assert p !in gap;
        }
      }
    }
    forall h, pageSize, refused, first | Listed(s, got, h, pageSize, refused, first)
      ensures NoGap(s, got) <==> Fits(h, s.poll.base, pageSize, refused, first)
    {
      NoGapExactly(s, got, h, pageSize, refused, first);
    }
  }

  lemma MissedKept(s: State, step: Step)
    requires Enabled(s, step) && !step.Fetched?
    ensures Next(s, step).missed == s.missed
  {
  }

  lemma {:induction false} MissedExactly(s: State, steps: seq<Step>)
    requires CursorInv(s) && Run(s, steps) && ListedRun(s, steps)
    ensures After(s, steps).missed == {} <==> s.missed == {} && AllFit(s, steps)
    decreases steps
  {
    if steps != [] {
      CursorInvStep(s, steps[0]);
      MissedExactly(Next(s, steps[0]), steps[1..]);
      if steps[0].Fetched? {
        MissedNothingExactly(s, steps[0].got);
      } else {
        MissedKept(s, steps[0]);
      }
    }
  }

  // Over every run whose fetches are ListMessages': nothing was missed exactly
  // if every fetch fitted; and then, with events handled in order and pages
  // meeting the release guard, each message at or below the saved cursor has
  // been handled, dropped or skipped.
  lemma NothingIsLostOrMissed(steps: seq<Step>)
    requires OrderedRun(INITIAL, steps) && ListedRun(INITIAL, steps)
    ensures Run(INITIAL, steps)
    ensures var s := After(INITIAL, steps);
            && (s.missed == {} <==> AllFit(INITIAL, steps))
            && (AllFit(INITIAL, steps) ==>
                  forall p | p in s.log && p <= s.db :: p in s.handled + s.dropped + s.skipped)
  {
    NothingIsLost(steps);
    MissedExactly(INITIAL, steps);
  }
}
