/** Saving a thread's poll cursor only once bridgev2 has handled what the poll queued. */
module CursorSaving {
  import opened Text
  import opened SequenceOrder
  import opened ThreadState

  // ----- positions queued and saved -----

  predicate NewerThan(pos: CursorPos, other: string) {
    pos.seqID != "" && (other == "" || Compare(pos.seqID, other) > 0)
  }

  lemma NewerThanIsKeyOrder(pos: CursorPos, other: string)
    requires IsSequenceID(pos.seqID) && IsSequenceID(other)
    ensures NewerThan(pos, other) <==> Key(pos.seqID) > Key(other)
  {
    CompareIsKeyOrder(pos.seqID, other);
    CompareIsKeyOrder(other, pos.seqID);
  }

  // threadCursors: per thread, the newest position queued but not saved and
  // the newest sequence ID saved.
  datatype Cursors = Cursors(queued: map<string, CursorPos>, saved: map<string, string>) {
    function SavedID(threadID: string): string {
      if threadID in saved then saved[threadID] else ""
    }

    function NoteQueued(threadID: string, pos: CursorPos): Cursors {
      if threadID in queued && !NewerThan(pos, queued[threadID].seqID) then this
      else this.(queued := queued[threadID := pos])
    }

    predicate NeedsSave(threadID: string, pos: CursorPos) {
      NewerThan(pos, SavedID(threadID))
    }

    function NoteSaved(threadID: string, pos: CursorPos): Cursors {
      Cursors(if threadID in queued && !NewerThan(queued[threadID], pos.seqID) then queued - {threadID} else queued,
              saved[threadID := pos.seqID])
    }

    function Forget(threadID: string): Cursors {
      Cursors(queued - {threadID}, saved - {threadID})
    }

    function ForgetAll(threadIDs: set<string>): Cursors {
      Cursors(queued - threadIDs, saved - threadIDs)
    }

    // Every ID recorded is one Teams numbers messages with.
    ghost predicate Valid() {
      && (forall t | t in queued :: IsSequenceID(queued[t].seqID))
      && (forall t | t in saved :: IsSequenceID(saved[t]))
    }

    // What one thread's entries amount to as integer positions.
    ghost function View(threadID: string): CursorView {
      CursorView(if threadID in queued then Some(Key(queued[threadID].seqID)) else None, Key(SavedID(threadID)))
    }
  }

  // The integer form the delivery protocol is stated over; -1 is no position.
  datatype CursorView = CursorView(queued: Option<int>, saved: int) {
    function NoteQueued(pos: int): CursorView {
      if queued.Some? && pos <= queued.value then this else this.(queued := Some(pos))
    }

    function NoteSaved(pos: int): CursorView {
      CursorView(if queued.Some? && queued.value <= pos then None else queued, pos)
    }
  }

  // Each operation on the string maps does to a thread's view exactly what
  // the integer operation does, and nothing to any other thread's.
  lemma CursorOperationsRefineView(c: Cursors, threadID: string, pos: CursorPos, other: string)
    requires c.Valid() && IsSequenceID(pos.seqID)
    ensures c.NoteQueued(threadID, pos).Valid() && c.NoteSaved(threadID, pos).Valid() && c.Forget(threadID).Valid()
    ensures c.NoteQueued(threadID, pos).View(threadID) == c.View(threadID).NoteQueued(Key(pos.seqID))
    ensures c.NoteSaved(threadID, pos).View(threadID) == c.View(threadID).NoteSaved(Key(pos.seqID))
    ensures c.NeedsSave(threadID, pos) <==> Key(pos.seqID) > c.View(threadID).saved
    ensures c.Forget(threadID).View(threadID) == CursorView(None, -1)
    ensures var next := c.NoteQueued(threadID, pos);
            && threadID in next.queued && next.saved == c.saved
            && (next.queued[threadID] == pos || (threadID in c.queued && next.queued[threadID] == c.queued[threadID]))
    ensures var next := c.NoteSaved(threadID, pos);
            && threadID in next.saved && next.saved[threadID] == pos.seqID
            && (threadID in next.queued ==> threadID in c.queued && next.queued[threadID] == c.queued[threadID])
    ensures other != threadID ==>
            && c.NoteQueued(threadID, pos).View(other) == c.View(other)
            && c.NoteSaved(threadID, pos).View(other) == c.View(other)
            && c.Forget(threadID).View(other) == c.View(other)
  {
    NewerThanIsKeyOrder(pos, c.SavedID(threadID));
    if threadID in c.queued {
      NewerThanIsKeyOrder(pos, c.queued[threadID].seqID);
      NewerThanIsKeyOrder(c.queued[threadID], pos.seqID);
    }
  }

  class ThreadCursors {
    var queued: map<string, CursorPos>
    var saved: map<string, string>

    function Value(): Cursors
      reads this
    {
      Cursors(queued, saved)
    }

    constructor ()
      ensures Value() == Cursors(map[], map[])
    {
      queued, saved := map[], map[];
    }

    method Pending(threadID: string) returns (pos: CursorPos, ok: bool)
      ensures ok <==> threadID in queued
      ensures ok ==> pos == queued[threadID]
    {
      if threadID in queued {
        return queued[threadID], true;
      }
      return CursorPos("", 0), false;
    }

    method NoteQueued(threadID: string, pos: CursorPos)
      modifies this
      ensures Value() == old(Value()).NoteQueued(threadID, pos)
    {
      if threadID in queued && !NewerThan(pos, queued[threadID].seqID) {
        return;
      }
      queued := queued[threadID := pos];
    }

    method NoteSaved(threadID: string, pos: CursorPos)
      modifies this
      ensures Value() == old(Value()).NoteSaved(threadID, pos)
    {
      saved := saved[threadID := pos.seqID];
      if threadID in queued && !NewerThan(queued[threadID], pos.seqID) {
        queued := queued - {threadID};
      }
    }

    method Forget(threadID: string)
      modifies this
      ensures Value() == old(Value()).Forget(threadID)
    {
      queued := queued - {threadID};
      saved := saved - {threadID};
    }

    // saveCursor: check, write and note, whole under saveMu. A failed write
    // leaves the queued position in memory.
    method SaveCursor(table: ThreadStateTable, threadID: string, pos: CursorPos, written: bool)
      requires table as object != this
      requires TrimSpace(threadID) == threadID != ""
      modifies this, table
      ensures var stored := old(Value()).NeedsSave(threadID, pos) && written;
              && Value() == (if stored then old(Value()).NoteSaved(threadID, pos) else old(Value()))
              && table.rows == (if stored then CursorUpdated(old(table.rows), threadID, pos) else old(table.rows))
    {
      if !NewerThan(pos, if threadID in saved then saved[threadID] else "") {
        return;
      }
      var ok := table.UpdateCursor(threadID, pos, written);
      if !ok {
        return;
      }
      NoteSaved(threadID, pos);
    }
  }

  // ----- counting a page's events -----

  // One page's cursorCommit. fired holds the sync.Once of every hook handed
  // out, armed says that save has been set, released that the page gave up
  // its own count; saves counts the runs of save, and broken records a count
  // that reached zero before save was set.
  datatype Commit = Commit(pending: int, fired: seq<bool>, armed: bool, released: bool, saves: nat, broken: bool) {
    function Done(): Commit {
      this.(pending := pending - 1,
            saves := if pending - 1 == 0 && armed then saves + 1 else saves,
            broken := broken || (pending - 1 == 0 && !armed))
    }

    function Track(): Commit {
      this.(pending := pending + 1, fired := fired + [false])
    }

    function CallHook(hook: nat): Commit
      requires hook < |fired|
    {
      if fired[hook] then this else this.(fired := fired[hook := true]).Done()
    }

    function Arm(): Commit {
      this.(armed := true)
    }

    function GiveUp(): Commit {
      this.(released := true).Done()
    }

    // What every interleaving keeps.
    ghost predicate Valid() {
      && pending == (if released then 0 else 1) + Unfired(fired)
      && saves == (if released && Unfired(fired) == 0 then 1 else 0)
      && (released ==> armed)
      && !broken
    }
  }

  const NEW_COMMIT := Commit(1, [], false, false, 0, false)

  function Unfired(fired: seq<bool>): nat {
    if fired == [] then 0 else (if fired[0] then 0 else 1) + Unfired(fired[1..])
  }

  lemma {:induction false} UnfiredAppend(fired: seq<bool>)
    ensures Unfired(fired + [false]) == Unfired(fired) + 1
  {
    if fired == [] {
      assert (fired + [false])[1..] == [];
    } else {
      UnfiredAppend(fired[1..]);
      assert (fired + [false])[1..] == fired[1..] + [false];
    }
  }

  lemma {:induction false} UnfiredUpdate(fired: seq<bool>, hook: nat)
    requires hook < |fired| && !fired[hook]
    ensures Unfired(fired[hook := true]) == Unfired(fired) - 1
  {
    if hook > 0 {
      UnfiredUpdate(fired[1..], hook - 1);
      assert fired[hook := true][1..] == fired[1..][hook - 1 := true];
    }
  }

  lemma {:induction false} UnfiredZero(fired: seq<bool>)
    ensures Unfired(fired) == 0 <==> forall h | 0 <= h < |fired| :: fired[h]
  {
    if fired != [] {
      UnfiredZero(fired[1..]);
      assert forall h | 0 <= h < |fired| :: fired[h] == if h == 0 then fired[0] else fired[1..][h - 1];
      assert forall h | 0 <= h < |fired| - 1 :: fired[1..][h] == fired[h + 1];
    }
  }

  // The page's goroutine tracks its events, sets save, then gives up its
  // count; hooks are called at any time, from any goroutine, any number of times.
  datatype Action = Track | CallHook(hook: nat) | Arm | GiveUp

  predicate Allowed(c: Commit, a: Action) {
    match a
    case Track => !c.armed
    case CallHook(hook) => hook < |c.fired|
    case Arm => !c.armed
    case GiveUp => c.armed && !c.released
  }

  function Act(c: Commit, a: Action): Commit
    requires Allowed(c, a)
  {
    match a
    case Track => c.Track()
    case CallHook(hook) => c.CallHook(hook)
    case Arm => c.Arm()
    case GiveUp => c.GiveUp()
  }

  lemma ActKeepsValid(c: Commit, a: Action)
    requires c.Valid() && Allowed(c, a)
    ensures Act(c, a).Valid()
  {
    UnfiredAppend(c.fired);
    if a.CallHook? && !c.fired[a.hook] {
      UnfiredUpdate(c.fired, a.hook);
    }
  }

  predicate Interleaving(c: Commit, actions: seq<Action>)
    decreases actions
  {
    actions == [] || (Allowed(c, actions[0]) && Interleaving(Act(c, actions[0]), actions[1..]))
  }

  function After(c: Commit, actions: seq<Action>): Commit
    requires Interleaving(c, actions)
    decreases actions
  {
    if actions == [] then c else After(Act(c, actions[0]), actions[1..])
  }

  // Over every interleaving the count is the page's own share plus the hooks
  // not called yet, and save has run once if the page is released and every
  // hook was called, and not at all otherwise; it is never called unset.
  lemma CommitFiresExactlyOnce(actions: seq<Action>)
    requires Interleaving(NEW_COMMIT, actions)
    ensures var c := After(NEW_COMMIT, actions);
            && c.pending == (if c.released then 0 else 1) + Unfired(c.fired)
            && c.saves == (if c.released && (forall h | 0 <= h < |c.fired| :: c.fired[h]) then 1 else 0)
            && !c.broken
  {
    CommitStaysValid(NEW_COMMIT, actions);
    UnfiredZero(After(NEW_COMMIT, actions).fired);
  }

  lemma {:induction false} CommitStaysValid(c: Commit, actions: seq<Action>)
    requires c.Valid() && Interleaving(c, actions)
    ensures After(c, actions).Valid()
    decreases actions
  {
    if actions != [] {
      ActKeepsValid(c, actions[0]);
      CommitStaysValid(Act(c, actions[0]), actions[1..]);
    }
  }

  class CursorCommit {
    var pending: int
    var fired: seq<bool>
    var armed: bool
    var released: bool
    var saves: nat
    var broken: bool

    function Value(): Commit
      reads this
    {
      Commit(pending, fired, armed, released, saves, broken)
    }

    constructor ()
      ensures Value() == NEW_COMMIT
    {
      pending, fired := 1, [];
      armed, released, saves, broken := false, false, 0, false;
    }

    method Done()
      modifies this
      ensures Value() == old(Value()).Done()
    {
      pending := pending - 1;
      if pending == 0 {
        if armed { saves := saves + 1; } else { broken := true; }
      }
    }

    // The returned number stands for the hook.
    method Track() returns (hook: nat)
      modifies this
      ensures Value() == old(Value()).Track()
      ensures hook == |old(fired)|
    {
      pending := pending + 1;
      hook := |fired|;
      fired := fired + [false];
    }

    method CallHook(hook: nat)
      requires hook < |fired|
      modifies this
      ensures Value() == old(Value()).CallHook(hook)
    {
      if !fired[hook] {
        fired := fired[hook := true];
        Done();
      }
    }

    method Release()
      modifies this
      ensures Value() == old(Value()).Arm().GiveUp()
    {
      armed := true;
      released := true;
      Done();
    }
  }
}
