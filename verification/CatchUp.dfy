/** ListMessages: paging a thread's history backwards until a poll's cursor is reached. */
module CatchUp {
  import opened Text
  import opened Sorting

  const MAX_CATCHUP_PAGES := 10

  // pos is the number the message's sequence ID stands for: comparing IDs is
  // comparing numbers (SequenceOrder.CompareIsKeyOrder). id stands for its
  // trimmed ID, which is only ever compared, 0 for a blank one; ts is its time
  // in milliseconds, the precision of a page's startTime, 0 for none. Where the
  // raw sequence ID cannot be read, pos is the place Teams gave the message.
  datatype Message = Message(id: nat, pos: nat, ts: nat, readable: bool)

  // The cursor of a poll that has none; any other is a sequence number.
  const NO_CURSOR := -1

  // Whether a page that holds the message has come back to the cursor.
  predicate Reaches(m: Message, since: int) {
    since == NO_CURSOR || m.pos <= since
  }

  // A thread as Teams holds it, oldest first: positions rise, millisecond times
  // never fall, IDs are distinct and not blank.
  ghost predicate IsHistory(h: seq<Message>) {
    && (forall i | 0 <= i < |h| :: h[i].ts > 0 && h[i].id != 0)
    && (forall i, j | 0 <= i < j < |h| :: h[i].pos < h[j].pos && h[i].ts <= h[j].ts)
    && (forall i, j | 0 <= i < j < |h| :: h[i].id != h[j].id)
  }

  // How many messages are older than the given time.
  function OlderThan(h: seq<Message>, before: nat): (n: nat)
    ensures n <= |h|
  {
    if h == [] then 0
    else if h[|h| - 1].ts < before then |h|
    else OlderThan(h[..|h| - 1], before)
  }

  // Where the page of the newest `size` of h[..end] begins.
  function PageStart(end: nat, size: nat): nat {
    if end < size then 0 else end - size
  }

  // The thread's messages on Teams, which may refuse requests. A page comes in
  // no particular order.
  class MessageServer {
    const history: seq<Message>
    const refused: set<nat>
    var requests: nat

    constructor (history: seq<Message>, refused: set<nat>)
      ensures this.history == history && this.refused == refused && requests == 0
    {
      this.history, this.refused, this.requests := history, refused, 0;
    }

    // The newest pageSize messages before the given time; 0 is no time.
    method FetchPage(pageSize: nat, before: nat) returns (page: Option<seq<Message>>)
      modifies this
      ensures requests == old(requests) + 1
      ensures page.None? <==> old(requests) in refused
      ensures page.Some? ==>
                var end := if before == 0 then |history| else OlderThan(history, before);
                end <= |history| && multiset(page.value) == multiset(history[PageStart(end, pageSize)..end])
    {
      requests := requests + 1;
      if requests - 1 in refused {
        return None;
      }
      var end := if before == 0 then |history| else OlderThan(history, before);
      return Some(history[PageStart(end, pageSize)..end]);
    }
  }

  lemma {:induction false} OlderThanSplits(h: seq<Message>, before: nat)
    requires forall i, j | 0 <= i < j < |h| :: h[i].ts <= h[j].ts
    ensures forall i | 0 <= i < |h| :: h[i].ts < before <==> i < OlderThan(h, before)
  {
    if h != [] && h[|h| - 1].ts >= before {
      OlderThanSplits(h[..|h| - 1], before);
    }
  }

  // ----- sorting -----

  predicate Before(a: Message, b: Message) {
    a.pos < b.pos
  }

  ghost predicate Rising(msgs: seq<Message>) {
    forall i, j | 0 <= i < j < |msgs| :: msgs[i].pos < msgs[j].pos
  }

  // Among messages of rising positions the order is total.
  lemma RisingIsOrdered(msgs: seq<Message>)
    requires Rising(msgs)
    ensures Orders(Before, set m | m in msgs) && Separates(Before, set m | m in msgs) && SortedBy(msgs, Before)
  {
    forall a, b | a in msgs && b in msgs
      ensures a == b || a.pos != b.pos
    {
      var i, j :| 0 <= i < |msgs| && 0 <= j < |msgs| && msgs[i] == a && msgs[j] == b;
    }
  }

  // Sorting messages, in whatever order they came, gives the thread's own order.
  lemma SortRestores(s: seq<Message>, msgs: seq<Message>)
    requires Rising(msgs) && multiset(s) == multiset(msgs)
    ensures Sort(s, Before) == msgs
  {
    RisingIsOrdered(msgs);
    SameElements(s, msgs);
    SortResult(s, Before, set m | m in msgs);
    SameElements(Sort(s, Before), msgs);
    SortedUnique(Sort(s, Before), msgs, Before, set m | m in msgs);
  }

  // ----- how far back the pages reach -----

  // Where the paging stands: the messages kept so far, oldest first; how many
  // of the history may still come; and whether no further page is asked for.
  datatype Walk = Walk(end: nat, done: bool, kept: seq<Message>)

  // Where the page before the one from `start` on ends: messages of the same
  // millisecond as that one's oldest are not asked for.
  function PageEnd(h: seq<Message>, start: nat): (end: nat)
    requires start < |h|
    ensures end <= start
  {
    OlderThan(h[..start], h[start].ts)
  }

  // Asks for one more page. A refused or empty page ends the walk where it
  // stands; a page that reaches the cursor or comes short ends it there.
  function NextWalk(h: seq<Message>, since: int, pageSize: nat, refused: bool, w: Walk): (next: Walk)
    requires pageSize > 0 && w.end <= |h|
    ensures next.end <= w.end
  {
    if w.done || refused || w.end == 0 then w.(done := true)
    else
      var start := PageStart(w.end, pageSize);
      var done := Reaches(h[start], since) || w.end < pageSize;
      Walk(if done then start else PageEnd(h, start), done, h[start..w.end] + w.kept)
  }

  // The walk after so many pages, whose requests are numbered from `first`.
  function WalkBack(h: seq<Message>, since: int, pageSize: nat, refused: set<nat>, first: nat, pages: nat): (w: Walk)
    requires pageSize > 0
    ensures w.end <= |h|
  {
    if pages == 0 then Walk(|h|, false, [])
    else
      NextWalk(h, since, pageSize, first + pages - 1 in refused, WalkBack(h, since, pageSize, refused, first, pages - 1))
  }

  // The messages collected.
  function Listing(h: seq<Message>, since: int, pageSize: nat, refused: set<nat>, first: nat): seq<Message>
    requires pageSize > 0
  {
    WalkBack(h, since, pageSize, refused, first, MAX_CATCHUP_PAGES).kept
  }

  // What is kept is of the history from the walk's end on, in its order.
  ghost predicate KeptInv(h: seq<Message>, w: Walk) {
    && w.end <= |h| && Rising(w.kept)
    && forall m | m in w.kept :: HeldFrom(h, w.end, m)
  }

  ghost predicate HeldFrom(h: seq<Message>, from: nat, m: Message) {
    exists k :: from <= k < |h| && h[k] == m
  }

  lemma KeptNext(h: seq<Message>, since: int, pageSize: nat, refused: bool, w: Walk)
    requires IsHistory(h) && pageSize > 0 && KeptInv(h, w)
    ensures KeptInv(h, NextWalk(h, since, pageSize, refused, w))
  {
    if !w.done && !refused && w.end > 0 {
      var start := PageStart(w.end, pageSize);
      var next, page := NextWalk(h, since, pageSize, refused, w), h[start..w.end];
      PageThenKept(h, start, w);
      forall m | m in next.kept
        ensures HeldFrom(h, next.end, m)
      {
        if m in page {
          var i :| 0 <= i < |page| && page[i] == m;
          assert h[start + i] == m;
        } else {
          assert m in w.kept;
          var k :| w.end <= k < |h| && h[k] == m;
        }
      }
    }
  }

  lemma PageThenKept(h: seq<Message>, start: nat, w: Walk)
    requires IsHistory(h) && start <= w.end && KeptInv(h, w)
    ensures Rising(h[start..w.end] + w.kept)
  {
    var page := h[start..w.end];
    var all := page + w.kept;
    forall i, j | 0 <= i < j < |all|
      ensures all[i].pos < all[j].pos
    {
      if i < |page| <= j {
        assert all[j] in w.kept;
        var k :| w.end <= k < |h| && h[k] == all[j];
        assert all[i] == h[start + i];
      } else if j < |page| {
        assert all[i] == h[start + i] && all[j] == h[start + j];
      } else {
        assert all[i] == w.kept[i - |page|] && all[j] == w.kept[j - |page|];
      }
    }
  }

  // The messages listed are messages of the history, in its order.
  lemma {:induction false} KeptInOrder(h: seq<Message>, since: int, pageSize: nat, refused: set<nat>, first: nat, pages: nat)
    requires IsHistory(h) && pageSize > 0
    ensures KeptInv(h, WalkBack(h, since, pageSize, refused, first, pages))
  {
    if pages > 0 {
      KeptInOrder(h, since, pageSize, refused, first, pages - 1);
      KeptNext(h, since, pageSize, first + pages - 1 in refused, WalkBack(h, since, pageSize, refused, first, pages - 1));
    }
  }

  lemma {:induction false} DoneIsFinal(h: seq<Message>, since: int, pageSize: nat, refused: set<nat>, first: nat,
                                       pages: nat, more: nat)
    requires pageSize > 0 && pages <= more && WalkBack(h, since, pageSize, refused, first, pages).done
    ensures WalkBack(h, since, pageSize, refused, first, more) == WalkBack(h, since, pageSize, refused, first, pages)
  {
    if pages < more {
      DoneIsFinal(h, since, pageSize, refused, first, pages, more - 1);
    }
  }

  predicate AllAnswered(refused: set<nat>, first: nat, pages: nat) {
    forall r | first <= r < first + pages :: r !in refused
  }

  lemma AnsweredOneMore(refused: set<nat>, first: nat, pages: nat)
    requires pages > 0
    ensures AllAnswered(refused, first, pages) <==> AllAnswered(refused, first, pages - 1) && first + pages - 1 !in refused
  {
  }

  // What the pages answered before the first refusal can hold.
  function Capacity(pageSize: nat, refused: set<nat>, first: nat, pages: nat): nat {
    if pages == 0 then 0
    else Capacity(pageSize, refused, first, pages - 1) + if AllAnswered(refused, first, pages) then pageSize else 0
  }

  // How many messages of the history the cursor has passed.
  function Passed(h: seq<Message>, since: int): nat {
    if h == [] then 0
    else if h[|h| - 1].pos <= since then |h|
    else Passed(h[..|h| - 1], since)
  }

  lemma {:induction false} PassedSplits(h: seq<Message>, n: nat, since: int)
    requires n <= |h| && forall i, j | 0 <= i < j < n :: h[i].pos < h[j].pos
    ensures Passed(h[..n], since) <= n
    ensures forall i | 0 <= i < n :: h[i].pos <= since <==> i < Passed(h[..n], since)
  {
    if n > 0 {
      assert h[..n][..n - 1] == h[..n - 1];
      PassedSplits(h, n - 1, since);
    }
  }

  // The page from `start` on begins in the middle of a millisecond.
  predicate Cuts(h: seq<Message>, start: nat)
    requires start < |h|
  {
    start > 0 && h[start - 1].ts == h[start].ts
  }

  // No page of the history's first `end` messages, the newest first, begins
  // in the middle of a millisecond before a page begins at or below `passed`.
  predicate NoCuts(h: seq<Message>, end: nat, passed: nat, pageSize: nat)
    requires end <= |h| && pageSize > 0
    decreases end
  {
    var start := PageStart(end, pageSize);
    start <= passed || (!Cuts(h, start) && NoCuts(h, start, passed, pageSize))
  }

  // The first `passed` messages are those at which the paging comes back.
  ghost predicate ReachedBy(h: seq<Message>, since: int, passed: nat) {
    passed <= |h| && forall i | 0 <= i < |h| :: Reaches(h[i], since) <==> i < passed
  }

  // The next page ends where this one begins, exactly if it cuts nothing.
  lemma PageEndExactly(h: seq<Message>, start: nat)
    requires IsHistory(h) && start < |h|
    ensures PageEnd(h, start) == start <==> !Cuts(h, start)
    ensures forall i | 0 <= i < start :: i < PageEnd(h, start) <==> h[i].ts < h[start].ts
  {
    OlderThanSplits(h[..start], h[start].ts);
    assert forall i | 0 <= i < start :: h[..start][i] == h[i];
  }

  ghost predicate HasFrom(msgs: seq<Message>, h: seq<Message>, passed: nat) {
    forall i {:trigger h[i] in msgs} | passed <= i < |h| :: h[i] in msgs
  }

  // How a walk for the messages from `passed` on stands after so many pages:
  // it goes on, everything above its end collected; it has them all; a refusal
  // has stopped it short of them; or it has skipped one for good.
  ghost predicate GoesOn(h: seq<Message>, passed: nat, pageSize: nat, answered: bool, capacity: nat, w: Walk)
    requires pageSize > 0
  {
    && !w.done && answered && passed < w.end <= |h| && w.end == |h| - capacity && w.kept == h[w.end..]
    && (NoCuts(h, |h|, passed, pageSize) <==> NoCuts(h, w.end, passed, pageSize))
  }

  ghost predicate HasAll(h: seq<Message>, passed: nat, pageSize: nat, capacity: nat, w: Walk)
    requires pageSize > 0
  {
    HasFrom(w.kept, h, passed) && |h| - passed <= capacity && NoCuts(h, |h|, passed, pageSize)
  }

  ghost predicate StoppedShort(h: seq<Message>, passed: nat, answered: bool, capacity: nat, w: Walk) {
    w.done && !answered && passed < w.end <= |h| && |h| - passed > capacity && w.kept == h[w.end..]
  }

  ghost predicate Skipped(h: seq<Message>, passed: nat, pageSize: nat, w: Walk)
    requires pageSize > 0
  {
    && !NoCuts(h, |h|, passed, pageSize)
    && exists i :: passed <= i < |h| && w.end <= i && h[i] !in w.kept
  }

  ghost predicate Stands(h: seq<Message>, passed: nat, pageSize: nat, answered: bool, capacity: nat, w: Walk)
    requires pageSize > 0
  {
    || GoesOn(h, passed, pageSize, answered, capacity, w)
    || HasAll(h, passed, pageSize, capacity, w)
    || StoppedShort(h, passed, answered, capacity, w)
    || Skipped(h, passed, pageSize, w)
  }

  lemma NotFrom(h: seq<Message>, i: nat, start: nat)
    requires IsHistory(h) && i < start <= |h|
    ensures h[i] !in h[start..]
  {
    assert forall j | 0 <= j < |h| - start :: h[start..][j] == h[start + j];
  }

  lemma FromHolds(h: seq<Message>, passed: nat, start: nat)
    requires start <= passed <= |h|
    ensures HasFrom(h[start..], h, passed)
  {
    assert forall i | passed <= i < |h| :: h[i] == h[start..][i - start];
  }

  lemma OnePageOn(h: seq<Message>, since: int, passed: nat, pageSize: nat, capacity: nat, w: Walk)
    requires IsHistory(h) && pageSize > 0 && ReachedBy(h, since, passed)
    requires GoesOn(h, passed, pageSize, true, capacity, w)
    ensures Stands(h, passed, pageSize, true, capacity + pageSize, NextWalk(h, since, pageSize, false, w))
  {
    var start := PageStart(w.end, pageSize);
    var next := NextWalk(h, since, pageSize, false, w);
    assert h[start..w.end] + h[w.end..] == h[start..];
    PageEndExactly(h, start);
    if start <= passed {
      FromHolds(h, passed, start);
    } else if Cuts(h, start) {
      NotFrom(h, start - 1, start);
      assert next.end <= start - 1;
    }
  }

  lemma StandsLater(h: seq<Message>, since: int, passed: nat, pageSize: nat, capacity: nat, more: nat, w: Walk, refused: bool)
    requires IsHistory(h) && pageSize > 0 && capacity <= more && KeptInv(h, w)
    requires HasAll(h, passed, pageSize, capacity, w) || Skipped(h, passed, pageSize, w)
    ensures HasAll(h, passed, pageSize, more, NextWalk(h, since, pageSize, refused, w))
            || Skipped(h, passed, pageSize, NextWalk(h, since, pageSize, refused, w))
  {
    var next := NextWalk(h, since, pageSize, refused, w);
    if Skipped(h, passed, pageSize, w) && !w.done && !refused && w.end > 0 {
      var i :| passed <= i < |h| && w.end <= i && h[i] !in w.kept;
      var page := h[PageStart(w.end, pageSize)..w.end];
      assert forall j | 0 <= j < |page| :: page[j] == h[PageStart(w.end, pageSize) + j];
      assert h[i] !in page;
    }
  }

  // One more page, answered or refused.
  lemma StandsNext(h: seq<Message>, since: int, passed: nat, pageSize: nat, refused: bool, answered: bool, capacity: nat,
                   w: Walk)
    requires IsHistory(h) && pageSize > 0 && ReachedBy(h, since, passed) && KeptInv(h, w)
    requires Stands(h, passed, pageSize, answered, capacity, w)
    ensures Stands(h, passed, pageSize, answered && !refused, capacity + if answered && !refused then pageSize else 0,
                   NextWalk(h, since, pageSize, refused, w))
  {
    if GoesOn(h, passed, pageSize, answered, capacity, w) {
      if !refused { OnePageOn(h, since, passed, pageSize, capacity, w); }
    } else if !StoppedShort(h, passed, answered, capacity, w) {
      StandsLater(h, since, passed, pageSize, capacity, capacity + if answered && !refused then pageSize else 0, w, refused);
    }
  }

  ghost predicate StandsAfter(h: seq<Message>, since: int, passed: nat, pageSize: nat, refused: set<nat>, first: nat, pages: nat)
    requires pageSize > 0
  {
    var w := WalkBack(h, since, pageSize, refused, first, pages);
    && KeptInv(h, w)
    && Stands(h, passed, pageSize, AllAnswered(refused, first, pages), Capacity(pageSize, refused, first, pages), w)
  }

  lemma StandsAtStart(h: seq<Message>, since: int, passed: nat, pageSize: nat, refused: set<nat>, first: nat)
    requires IsHistory(h) && pageSize > 0 && passed < |h|
    ensures StandsAfter(h, since, passed, pageSize, refused, first, 0)
  {
    assert h[|h|..] == [];
  }

  lemma StandsAfterNext(h: seq<Message>, since: int, passed: nat, pageSize: nat, refused: set<nat>, first: nat, pages: nat)
    requires IsHistory(h) && pageSize > 0 && ReachedBy(h, since, passed) && pages > 0
    ensures StandsAfter(h, since, passed, pageSize, refused, first, pages - 1) ==>
              StandsAfter(h, since, passed, pageSize, refused, first, pages)
  {
    if StandsAfter(h, since, passed, pageSize, refused, first, pages - 1) {
      var w, last := WalkBack(h, since, pageSize, refused, first, pages - 1), first + pages - 1 in refused;
      AnsweredOneMore(refused, first, pages);
      KeptNext(h, since, pageSize, last, w);
      StandsNext(h, since, passed, pageSize, last, AllAnswered(refused, first, pages - 1),
                 Capacity(pageSize, refused, first, pages - 1), w);
    }
  }

  lemma {:induction false} WalkStands(h: seq<Message>, since: int, passed: nat, pageSize: nat, refused: set<nat>,
                                      first: nat, pages: nat)
    requires IsHistory(h) && pageSize > 0 && passed < |h| && ReachedBy(h, since, passed)
    ensures StandsAfter(h, since, passed, pageSize, refused, first, pages)
  {
    if pages == 0 {
      StandsAtStart(h, since, passed, pageSize, refused, first);
    } else {
      WalkStands(h, since, passed, pageSize, refused, first, pages - 1);
      StandsAfterNext(h, since, passed, pageSize, refused, first, pages);
    }
  }

  lemma StandingTells(h: seq<Message>, passed: nat, pageSize: nat, answered: bool, capacity: nat, w: Walk)
    requires IsHistory(h) && pageSize > 0 && passed < |h| && Stands(h, passed, pageSize, answered, capacity, w)
    ensures HasFrom(w.kept, h, passed) <==> |h| - passed <= capacity && NoCuts(h, |h|, passed, pageSize)
  {
    if GoesOn(h, passed, pageSize, answered, capacity, w) || StoppedShort(h, passed, answered, capacity, w) {
      NotFrom(h, passed, w.end);
    }
  }

  // With a cursor, everything above it is collected exactly when the messages
  // above it fit into the answered pages and no page above it begins in the
  // middle of a millisecond.
  lemma CollectedAllExactly(h: seq<Message>, since: nat, pageSize: nat, refused: set<nat>, first: nat)
    requires IsHistory(h) && pageSize > 0
    ensures var listing, passed := Listing(h, since, pageSize, refused, first), Passed(h, since);
            && passed <= |h|
            && (forall i | 0 <= i < |h| :: h[i].pos > since <==> passed <= i)
            && (HasFrom(listing, h, passed) <==>
                |h| - passed <= Capacity(pageSize, refused, first, MAX_CATCHUP_PAGES) && NoCuts(h, |h|, passed, pageSize))
  {
    var passed := Passed(h, since);
    assert h[..|h|] == h;
    PassedSplits(h, |h|, since);
    if passed < |h| {
      WalkStands(h, since, passed, pageSize, refused, first, MAX_CATCHUP_PAGES);
      StandingTells(h, passed, pageSize, AllAnswered(refused, first, MAX_CATCHUP_PAGES),
                    Capacity(pageSize, refused, first, MAX_CATCHUP_PAGES),
                    WalkBack(h, since, pageSize, refused, first, MAX_CATCHUP_PAGES));
    }
  }

  lemma NewestIsListed(h: seq<Message>, pageSize: nat, refused: set<nat>, first: nat)
    requires pageSize > 0
    ensures Listing(h, NO_CURSOR, pageSize, refused, first) ==
            if first in refused then [] else h[PageStart(|h|, pageSize)..]
  {
    var start, begin := PageStart(|h|, pageSize), Walk(|h|, false, []);
    var next := NextWalk(h, NO_CURSOR, pageSize, first in refused, begin);
    assert h[start..|h|] + [] == h[start..] == h[start..|h|];
    OnePageMore(h, NO_CURSOR, pageSize, refused, first, 0, first, begin, next);
    WalkEnds(h, NO_CURSOR, pageSize, refused, first, 1, next);
  }

  // Without one a single page is read, so everything is collected exactly when
  // that page is answered and the thread fits into it.
  lemma CollectedNewestExactly(h: seq<Message>, pageSize: nat, refused: set<nat>, first: nat)
    requires IsHistory(h) && pageSize > 0
    ensures var listing := Listing(h, NO_CURSOR, pageSize, refused, first);
            && listing == (if first in refused then [] else h[PageStart(|h|, pageSize)..])
            && (HasFrom(listing, h, 0) <==> h == [] || (first !in refused && |h| <= pageSize))
  {
    var start := PageStart(|h|, pageSize);
    NewestIsListed(h, pageSize, refused, first);
    FromHolds(h, start, start);
    if start > 0 {
      NotFrom(h, 0, start);
    }
    if h != [] && first in refused {
      assert h[0] !in [];
    }
  }

  // Of two messages of one millisecond, read in pages of one, the older is
  // never returned, though no page is refused.
  lemma SameMillisecondIsSkipped(later: Message, earlier: Message, before: Message, first: nat)
    requires IsHistory([before, earlier, later]) && earlier.ts == later.ts
    ensures earlier !in Listing([before, earlier, later], before.pos, 1, {}, first)
  {
    var h := [before, earlier, later];
    CollectedAllExactly(h, before.pos, 1, {}, first);
    assert h[0].pos == before.pos && h[0].pos < h[1].pos;
    assert Cuts(h, 2) && PageStart(3, 1) == 2;
    LaterIsKept(h, before.pos, 1, {}, first, MAX_CATCHUP_PAGES);
  }

  // The thread's newest message is in the first page.
  lemma {:induction false} LaterIsKept(h: seq<Message>, since: int, pageSize: nat, refused: set<nat>, first: nat, pages: nat)
    requires pageSize > 0 && pages > 0 && h != [] && first !in refused
    ensures h[|h| - 1] in WalkBack(h, since, pageSize, refused, first, pages).kept
  {
    if pages == 1 {
      var start := PageStart(|h|, pageSize);
      assert h[start..|h|][|h| - 1 - start] == h[|h| - 1];
    } else {
      LaterIsKept(h, since, pageSize, refused, first, pages - 1);
    }
  }

  // Without refusals the limit is ten pages; in general it is the answered ones.
  lemma {:induction false} CapacityIsAnsweredPages(pageSize: nat, refused: set<nat>, first: nat, pages: nat, answered: nat)
    requires answered <= pages && AllAnswered(refused, first, answered)
    requires answered < pages ==> first + answered in refused
    ensures Capacity(pageSize, refused, first, pages) == answered * pageSize
  {
    if pages > 0 {
      CapacityIsAnsweredPages(pageSize, refused, first, pages - 1, if answered < pages then answered else answered - 1);
    }
  }

  // ----- the loop -----

  // Collects pages until one reaches the cursor, comes short or is refused, or
  // the limit is hit; then sorts. The first page's refusal is an error, and so
  // is a message collected whose sequence ID cannot be read.
  method ListMessages(server: MessageServer, pageSize: nat, since: int) returns (result: Option<seq<Message>>)
    requires IsHistory(server.history) && since >= NO_CURSOR && pageSize > 0
    modifies server
    ensures old(server.requests) < server.requests <= old(server.requests) + MAX_CATCHUP_PAGES
    ensures var listing := Listing(server.history, since, pageSize, server.refused, old(server.requests));
            && (result.None? <==> old(server.requests) in server.refused || !AllReadable(listing))
            && (result.Some? ==> result.value == listing)
  {
    ghost var first := server.requests;
    var collected := Collect(server, pageSize, since);
    if collected.None? {
      return None;
    }
    KeptInOrder(server.history, since, pageSize, server.refused, first, MAX_CATCHUP_PAGES);
    SortRestores(collected.value, Listing(server.history, since, pageSize, server.refused, first));
    return Some(Sort(collected.value, Before));
  }

  // The page loop.
  method Collect(server: MessageServer, pageSize: nat, since: int) returns (result: Option<seq<Message>>)
    requires IsHistory(server.history) && pageSize > 0
    modifies server
    ensures old(server.requests) < server.requests <= old(server.requests) + MAX_CATCHUP_PAGES
    ensures var listing := Listing(server.history, since, pageSize, server.refused, old(server.requests));
            && (result.None? <==> old(server.requests) in server.refused || !AllReadable(listing))
            && (result.Some? ==> multiset(result.value) == multiset(listing))
  {
    var batch, page, stop := Batch([], {}, false, 0, 0), 0, false;
    ghost var h, first: nat := server.history, server.requests;
    ghost var walk := Walk(|h|, false, []);
    while page < MAX_CATCHUP_PAGES && !stop
      invariant page <= MAX_CATCHUP_PAGES && server.requests == first + page
      invariant walk == WalkBack(h, since, pageSize, server.refused, first, page) && walk.done == stop
      invariant Collected(batch, h, walk) && AllReadable(walk.kept)
      invariant page == 0 || first !in server.refused
    {
      var refused, readable;
      ghost var before, request := walk, server.requests;
      refused, readable, batch, stop, walk := NextPage(server, pageSize, batch, since, walk);
      OnePageMore(h, since, pageSize, server.refused, first, page, request, before, walk);
      page := page + 1;
      if refused && page == 1 {
        return None;
      }
      if !readable {
        UnreadablePage(h, since, pageSize, server.refused, first, page, walk);
        return None;
      }
    }
    WalkEnds(h, since, pageSize, server.refused, first, page, walk);
    return Some(batch.collected);
  }

  lemma OnePageMore(h: seq<Message>, since: int, pageSize: nat, refused: set<nat>, first: nat, pages: nat, request: nat,
                    w: Walk, next: Walk)
    requires pageSize > 0 && w == WalkBack(h, since, pageSize, refused, first, pages)
    requires request == first + pages && next == NextWalk(h, since, pageSize, request in refused, w)
    ensures next == WalkBack(h, since, pageSize, refused, first, pages + 1)
  {
  }

  lemma {:induction false} UnreadableStays(h: seq<Message>, since: int, pageSize: nat, refused: set<nat>, first: nat,
                                           pages: nat, more: nat)
    requires pageSize > 0 && pages <= more && !AllReadable(WalkBack(h, since, pageSize, refused, first, pages).kept)
    ensures !AllReadable(WalkBack(h, since, pageSize, refused, first, more).kept)
  {
    if pages < more {
      UnreadableStays(h, since, pageSize, refused, first, pages, more - 1);
      var w := WalkBack(h, since, pageSize, refused, first, more - 1);
      if !w.done && w.end > 0 {
        ReadableConcat(h[PageStart(w.end, pageSize)..w.end], w.kept);
      }
    }
  }

  lemma UnreadablePage(h: seq<Message>, since: int, pageSize: nat, refused: set<nat>, first: nat, pages: nat, w: Walk)
    requires pageSize > 0 && pages <= MAX_CATCHUP_PAGES
    requires w == WalkBack(h, since, pageSize, refused, first, pages) && !AllReadable(w.kept)
    ensures !AllReadable(Listing(h, since, pageSize, refused, first))
  {
    UnreadableStays(h, since, pageSize, refused, first, pages, MAX_CATCHUP_PAGES);
  }

  lemma WalkEnds(h: seq<Message>, since: int, pageSize: nat, refused: set<nat>, first: nat, pages: nat, w: Walk)
    requires pageSize > 0 && pages <= MAX_CATCHUP_PAGES && w == WalkBack(h, since, pageSize, refused, first, pages)
    requires pages == MAX_CATCHUP_PAGES || w.done
    ensures Listing(h, since, pageSize, refused, first) == w.kept
  {
    if pages < MAX_CATCHUP_PAGES {
      DoneIsFinal(h, since, pageSize, refused, first, pages, MAX_CATCHUP_PAGES);
    }
  }

  // Asks for the page before the oldest time and adds its messages to the
  // batch; then tells whether to stop.
  method NextPage(server: MessageServer, pageSize: nat, batch: Batch, since: int, ghost walk: Walk)
    returns (refused: bool, readable: bool, more: Batch, stop: bool, ghost next: Walk)
    requires IsHistory(server.history) && pageSize > 0 && !walk.done && Collected(batch, server.history, walk)
    requires AllReadable(walk.kept)
    modifies server
    ensures server.requests == old(server.requests) + 1
    ensures refused <==> old(server.requests) in server.refused
    ensures next == NextWalk(server.history, since, pageSize, old(server.requests) in server.refused, walk)
    ensures readable <==> AllReadable(next.kept)
    ensures readable ==> stop == next.done && Collected(more, server.history, next)
  {
    var payload := server.FetchPage(pageSize, batch.oldest);
    refused, readable, more, stop := payload.None?, true, batch, true;
    ghost var h, start := server.history, PageStart(walk.end, pageSize);
    next := NextWalk(h, since, pageSize, refused, walk);
    if refused {
      return;
    }
    SameElements(payload.value, h[start..walk.end]);
    if |payload.value| == 0 {
      return;
    }
    more := batch.(reached := since == NO_CURSOR, oldest := 0, count := 0);
    HoldsMore(more, payload.value, since, h, start, walk);
    PageReadable(more, payload.value, since, h, start, walk.end);
    ReadableConcat(h[start..walk.end], walk.kept);
    PageEndIsOlder(h, start);
    readable, more := AddPage(payload.value, more, since);
    if !readable {
      return;
    }
    stop := more.reached || more.count < pageSize || more.oldest == 0;
  }

  // The batch holds the walk's messages; while it goes on, the next page is
  // asked for before the oldest time seen, 0 at the start.
  ghost predicate Collected(b: Batch, h: seq<Message>, walk: Walk) {
    && walk.end <= |h| && Holds(b, h, walk.end, walk.kept)
    && (!walk.done ==> walk.end == if b.oldest == 0 then |h| else OlderThan(h, b.oldest))
  }

  // Exactly the messages kept, and none before `end` seen.
  ghost predicate Holds(b: Batch, h: seq<Message>, end: nat, kept: seq<Message>)
    requires end <= |h|
  {
    multiset(b.collected) == multiset(kept) && forall k | 0 <= k < end :: h[k].id !in b.seen
  }

  // Where the next page ends, counted by the server.
  lemma PageEndIsOlder(h: seq<Message>, start: nat)
    requires IsHistory(h) && start < |h|
    ensures PageEnd(h, start) == OlderThan(h, h[start].ts)
  {
    var end, older := PageEnd(h, start), OlderThan(h, h[start].ts);
    PageEndExactly(h, start);
    OlderThanSplits(h, h[start].ts);
    assert older <= start;
    assert end < start ==> (h[end].ts < h[start].ts <==> end < older);
    assert older < start ==> (h[older].ts < h[start].ts <==> older < end);
  }

  ghost predicate Unseen(seen: set<nat>, msgs: seq<Message>) {
    forall m | m in msgs :: m.id !in seen
  }

  // A page of the history brings in exactly its messages.
  lemma HoldsMore(b: Batch, payload: seq<Message>, since: int, h: seq<Message>, start: nat, walk: Walk)
    requires IsHistory(h) && start < walk.end <= |h|
    requires multiset(payload) == multiset(h[start..walk.end]) && Holds(b, h, walk.end, walk.kept)
    requires b.count == 0 && b.oldest == 0 && (b.reached <==> since == NO_CURSOR)
    ensures var r := AddAll(b, payload, since);
            && Holds(r, h, start, h[start..walk.end] + walk.kept)
            && (r.reached <==> Reaches(h[start], since)) && r.oldest == h[start].ts && r.count == walk.end - start
  {
    var r, end := AddAll(b, payload, since), walk.end;
    assert Unseen(b.seen, h[..end]);
    PageIsNew(b.seen, payload, since, h, start, end);
    AddAllNew(b, payload, since);
    SameElements(payload, h[start..end]);
    forall k | 0 <= k < start
      ensures h[k].id !in r.seen
    {
      if h[k].id in r.seen {
        SeenBound(b, payload, since, h[k].id);
      }
    }
  }

  // What the inner loop keeps: the messages collected, their IDs, whether one
  // of this page reached the cursor, this page's oldest time and its count.
  datatype Batch = Batch(collected: seq<Message>, seen: set<nat>, reached: bool, oldest: nat, count: nat)

  // One message of a page: a duplicate is dropped.
  function Add(b: Batch, msg: Message, since: int): Batch {
    if msg.id != 0 && msg.id in b.seen then b
    else Batch(b.collected + [msg],
               if msg.id == 0 then b.seen else b.seen + {msg.id},
               b.reached || msg.pos <= since,
               if msg.ts != 0 && (b.oldest == 0 || msg.ts < b.oldest) then msg.ts else b.oldest,
               b.count + 1)
  }

  function AddAll(b: Batch, payload: seq<Message>, since: int): Batch {
    if payload == [] then b
    else Add(AddAll(b, payload[..|payload| - 1], since), payload[|payload| - 1], since)
  }

  // No two messages collected share an ID, and every ID collected is known.
  ghost predicate CollectedOnce(b: Batch) {
    && (forall i, j | 0 <= i < j < |b.collected| && b.collected[i].id != 0 :: b.collected[i].id != b.collected[j].id)
    && (forall i | 0 <= i < |b.collected| && b.collected[i].id != 0 :: b.collected[i].id in b.seen)
    && 0 !in b.seen
  }

  ghost function IDsOf(msgs: seq<Message>): set<nat> {
    set m | m in msgs && m.id != 0 :: m.id
  }

  lemma IDsAppend(msgs: seq<Message>, m: Message)
    ensures IDsOf(msgs + [m]) == IDsOf(msgs) + if m.id != 0 then {m.id} else {}
  {
    assert forall x | x in msgs + [m] :: x in msgs || x == m;
    assert m in msgs + [m] && forall x | x in msgs :: x in msgs + [m];
  }

  // Whatever a page holds, each of its IDs is collected once, and a message
  // without an ID as often as it comes.
  lemma {:induction false} AddsEachOnce(b: Batch, payload: seq<Message>, since: int)
    requires CollectedOnce(b)
    ensures var next := AddAll(b, payload, since);
            && CollectedOnce(next) && b.collected <= next.collected
            && next.seen == b.seen + IDsOf(payload)
            && next.count - b.count == |next.collected| - |b.collected|
            && forall m: Message | m.id == 0 :: multiset(next.collected)[m] == multiset(b.collected)[m] + multiset(payload)[m]
  {
    if payload != [] {
      var init, last := payload[..|payload| - 1], payload[|payload| - 1];
      assert payload == init + [last];
      IDsAppend(init, last);
      AddsEachOnce(b, init, since);
      AddsOneOnce(AddAll(b, init, since), last, since);
    }
  }

  lemma AddsOneOnce(b: Batch, m: Message, since: int)
    requires CollectedOnce(b)
    ensures var next := Add(b, m, since);
            && CollectedOnce(next) && b.collected <= next.collected
            && next.seen == b.seen + (if m.id != 0 then {m.id} else {})
            && next.count - b.count == |next.collected| - |b.collected|
            && forall x: Message | x.id == 0 ::
                 multiset(next.collected)[x] == multiset(b.collected)[x] + if x == m then 1 else 0
  {
  }

  // Every message that comes in has a sequence ID that can be read.
  predicate ReadableNew(b: Batch, payload: seq<Message>, since: int) {
    payload == [] || (
      var init, last := payload[..|payload| - 1], payload[|payload| - 1];
      ReadableNew(b, init, since) && ((last.id != 0 && last.id in AddAll(b, init, since).seen) || last.readable))
  }

  predicate AllReadable(msgs: seq<Message>) {
    forall i | 0 <= i < |msgs| :: msgs[i].readable
  }

  lemma {:induction false} ReadableIfNew(b: Batch, payload: seq<Message>, since: int)
    requires Unseen(b.seen, payload) && DistinctIDs(payload)
    ensures ReadableNew(b, payload, since) <==> AllReadable(payload)
  {
    if payload != [] {
      var init, last := payload[..|payload| - 1], payload[|payload| - 1];
      ReadableIfNew(b, init, since);
      assert payload == init + [last] && last in payload;
      if last.id in AddAll(b, init, since).seen {
        SeenBound(b, init, since, last.id);
      }
    }
  }

  lemma PageReadable(b: Batch, payload: seq<Message>, since: int, h: seq<Message>, start: nat, end: nat)
    requires IsHistory(h) && start < end <= |h| && Unseen(b.seen, h[..end])
    requires multiset(payload) == multiset(h[start..end])
    ensures ReadableNew(b, payload, since) <==> AllReadable(h[start..end])
  {
    PageIsNew(b.seen, payload, since, h, start, end);
    ReadableIfNew(b, payload, since);
    SameReadable(payload, h[start..end]);
  }

  lemma ReadableConcat(a: seq<Message>, b: seq<Message>)
    ensures AllReadable(a + b) <==> AllReadable(a) && AllReadable(b)
  {
    if AllReadable(a + b) {
      assert forall i | 0 <= i < |a| :: a[i] == (a + b)[i];
      assert forall i | 0 <= i < |b| :: b[i] == (a + b)[|a| + i];
    }
  }

  lemma SameReadable(s: seq<Message>, t: seq<Message>)
    requires multiset(s) == multiset(t)
    ensures AllReadable(s) <==> AllReadable(t)
  {
    SameElements(s, t);
    assert AllReadable(s) <==> forall m | m in s :: m.readable;
    assert AllReadable(t) <==> forall m | m in t :: m.readable;
  }

  ghost predicate HasID(msgs: seq<Message>, id: nat) {
    exists m :: m in msgs && m.id == id
  }

  function Oldest(msgs: seq<Message>): nat {
    if msgs == [] then 0
    else
      var oldest, ts := Oldest(msgs[..|msgs| - 1]), msgs[|msgs| - 1].ts;
      if ts != 0 && (oldest == 0 || ts < oldest) then ts else oldest
  }

  predicate AnyPassed(msgs: seq<Message>, since: int) {
    msgs != [] && (AnyPassed(msgs[..|msgs| - 1], since) || msgs[|msgs| - 1].pos <= since)
  }

  lemma {:induction false} AnyPassedMember(msgs: seq<Message>, since: int)
    ensures AnyPassed(msgs, since) <==> exists m :: m in msgs && m.pos <= since
  {
    if msgs != [] {
      var init, last := msgs[..|msgs| - 1], msgs[|msgs| - 1];
      AnyPassedMember(init, since);
      assert msgs == init + [last] && last in msgs;
      assert forall m | m in msgs :: m in init || m == last;
      assert forall m | m in init :: m in msgs;
    }
  }

  lemma {:induction false} SeenBound(b: Batch, payload: seq<Message>, since: int, id: nat)
    requires id in AddAll(b, payload, since).seen
    ensures id in b.seen || HasID(payload, id)
  {
    if payload != [] {
      var init, last := payload[..|payload| - 1], payload[|payload| - 1];
      assert last in payload;
      if id in AddAll(b, init, since).seen {
        SeenBound(b, init, since, id);
        if HasID(init, id) {
          var m :| m in init && m.id == id;
          assert m in payload;
        }
      }
    }
  }

  // Messages whose IDs are new all come in.
  lemma {:induction false} AddAllNew(b: Batch, payload: seq<Message>, since: int)
    requires Unseen(b.seen, payload) && DistinctIDs(payload)
    requires b.count == 0 && b.oldest == 0
    ensures var r := AddAll(b, payload, since);
            && r.collected == b.collected + payload && r.count == |payload|
            && r.reached == (b.reached || AnyPassed(payload, since)) && r.oldest == Oldest(payload)
  {
    if payload != [] {
      var init, last := payload[..|payload| - 1], payload[|payload| - 1];
      assert payload == init + [last];
      AddAllNew(b, init, since);
      assert last in payload;
      if last.id in AddAll(b, init, since).seen {
        SeenBound(b, init, since, last.id);
      }
      assert b.collected + payload == b.collected + init + [last];
    }
  }

  lemma {:induction false} OldestIsLeast(msgs: seq<Message>, m: Message)
    requires m in msgs && forall x | x in msgs :: 0 < m.ts <= x.ts
    ensures Oldest(msgs) == m.ts
  {
    var init, last := msgs[..|msgs| - 1], msgs[|msgs| - 1];
    assert msgs == init + [last] && last in msgs;
    assert forall x | x in init :: x in msgs;
    if m in init {
      OldestIsLeast(init, m);
    } else {
      OldestBound(init, m.ts);
    }
  }

  lemma {:induction false} OldestBound(msgs: seq<Message>, least: nat)
    requires forall x | x in msgs :: 0 < least <= x.ts
    ensures Oldest(msgs) == 0 || least <= Oldest(msgs)
  {
    if msgs != [] {
      var init, last := msgs[..|msgs| - 1], msgs[|msgs| - 1];
      assert msgs == init + [last] && last in msgs;
      OldestBound(init, least);
    }
  }

  // No message of a page precedes the page's first.
  lemma FirstOfPage(payload: seq<Message>, h: seq<Message>, start: nat, end: nat)
    requires IsHistory(h) && start < end <= |h| && multiset(payload) == multiset(h[start..end])
    ensures |payload| == end - start && h[start] in payload
    ensures forall m | m in payload :: m in h[..end] && 0 < h[start].ts <= m.ts && h[start].pos <= m.pos
  {
    SameElements(payload, h[start..end]);
    assert h[start] in h[start..end];
    forall m | m in payload
      ensures m in h[..end] && 0 < h[start].ts <= m.ts && h[start].pos <= m.pos
    {
      var k :| start <= k < end && h[k] == m;
    }
  }

  // Every message of a page is new; the first is its oldest, and the one that
  // reaches the cursor if any does.
  lemma PageIsNew(seen: set<nat>, payload: seq<Message>, since: int, h: seq<Message>, start: nat, end: nat)
    requires IsHistory(h) && start < end <= |h| && Unseen(seen, h[..end])
    requires multiset(payload) == multiset(h[start..end])
    ensures |payload| == end - start && Unseen(seen, payload) && DistinctIDs(payload)
    ensures Oldest(payload) == h[start].ts && (AnyPassed(payload, since) <==> h[start].pos <= since)
  {
    FirstOfPage(payload, h, start, end);
    OldestIsLeast(payload, h[start]);
    AnyPassedMember(payload, since);
    DistinctAsMultiset(payload, h[start..end]);
  }

  ghost predicate DistinctIDs(msgs: seq<Message>) {
    forall i, j | 0 <= i < j < |msgs| :: msgs[i].id != msgs[j].id
  }

  // IDs are as distinct in any arrangement of a page as in the page.
  lemma DistinctAsMultiset(payload: seq<Message>, page: seq<Message>)
    requires DistinctIDs(page) && multiset(payload) == multiset(page)
    ensures DistinctIDs(payload)
  {
    SameElements(payload, page);
    forall i, j | 0 <= i < j < |payload|
      ensures payload[i].id != payload[j].id
    {
      assert payload[i] in page && payload[j] in page;
      HeldOnce(page, payload[i]);
      assert payload == payload[..i] + [payload[i]] + payload[i + 1..j] + [payload[j]] + payload[j + 1..];
      assert payload[i] != payload[j];
    }
  }

  lemma {:induction false} HeldOnce(h: seq<Message>, m: Message)
    requires DistinctIDs(h)
    ensures multiset(h)[m] <= 1
  {
    if h != [] {
      var n := |h| - 1;
      HeldOnce(h[..n], m);
      assert h == h[..n] + [h[n]];
      assert h[n] !in h[..n];
    }
  }

  // The inner loop.
  method AddPage(payload: seq<Message>, before: Batch, since: int)
    returns (readable: bool, b: Batch)
    ensures readable <==> ReadableNew(before, payload, since)
    ensures readable ==> b == AddAll(before, payload, since)
  {
    b := before;
    var j := 0;
    while j < |payload|
      invariant j <= |payload| && b == AddAll(before, payload[..j], since) && ReadableNew(before, payload[..j], since)
    {
      assert payload[..j + 1][..j] == payload[..j];
      var msg := payload[j];
      if msg.id == 0 || msg.id !in b.seen {
        if !msg.readable {
          UnreadablePrefix(before, payload, since, j + 1);
          return false, b;
        }
        b := b.(collected := b.collected + [msg], count := b.count + 1);
        if msg.id != 0 {
          b := b.(seen := b.seen + {msg.id});
        }
        if since != NO_CURSOR && msg.pos <= since {
          b := b.(reached := true);
        }
        if msg.ts != 0 && (b.oldest == 0 || msg.ts < b.oldest) {
          b := b.(oldest := msg.ts);
        }
      }
      j := j + 1;
    }
    assert payload[..|payload|] == payload;
    return true, b;
  }

  lemma {:induction false} UnreadablePrefix(b: Batch, payload: seq<Message>, since: int, n: nat)
    requires n <= |payload| && !ReadableNew(b, payload[..n], since)
    ensures !ReadableNew(b, payload, since)
  {
    if n == |payload| {
      assert payload[..n] == payload;
    } else {
      assert payload[..|payload| - 1][..n] == payload[..n];
      UnreadablePrefix(b, payload[..|payload| - 1], since, n);
    }
  }
}
