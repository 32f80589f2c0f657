# mautrix-teams: a verified model of its core

This project models the parts of a Matrix bridge for Microsoft Teams where a
mistake would lose a message, forget a pin, hammer Teams with requests or
corrupt a name, and proves what those parts promise, in Dafny 4.11:

    dafny verify dfyconfig.toml

Each file holds one module.

**At-least-once delivery.** `SequenceOrder`, `ThreadState`, `CursorSaving`,
`PollThread` and `CatchUp` are the pieces: the order of Teams' sequence IDs,
the cursor a thread's row holds, the positions queued and saved in memory, the
count that delays a page's save until its events are handled, the loop over a
fetched page, and the loop that pages back to a cursor. `DeliveryProtocol` puts
one thread together as a step system: messages arrive on Teams, the poller
reads the row, looks up the queued position, fetches, queues, notes and
releases; the portal handles or drops events; saves are skipped, fail, or are
written and then noted; discovery upserts; the bridge crashes and starts again.
Every interleaving of these steps is a run. `PageSteps` shows that the page
loop of the code is such a run, `CompleteFetches` makes its fetches those of
the paging loop, `MissedMessage` is a run in which one is missed, `QueuedOnce`
tells when a message is taken up twice, and `CursorOperationsRefineView` carries
the string maps of the code over to the integer positions the protocol is stated
with.

**Two-way pin sync.** `PinSync`: Teams and Matrix toggles, discovery passes,
queued announcements and returning tag events, interleaved at will.

**Polling.** `Backoff`, `Scheduler` and `PollLoop`: the delays, one pass over
the listed threads, and the loop with its pauses, checks and wakeups.
`CacheSweep` shows what expiring the dedup and pacing maps can and cannot
change; `Reachability` follows the outage reports; `SyncTasks` is the wait for
every goroutine of the sync loop.

**Transformations.** `HtmlText`, `MessageHtml`, `HtmlParser`, `HtmlTrimmed` and
`HtmlSanitiseTwice` are the sanitiser and printer of message HTML with a parser
that reads the output back; `Naming` is the stored and structured thread names;
`ReactionSignature` the canonical rendering of a reaction set; `PinnedMerge`
the pinned-message list; `ChunkedUpload` the upload loop against a session that
keeps a growing prefix. `Sorting` and `Text` hold what Go's library supplies.

Objects whose methods update fields are classes whose methods are proved
against functions on the fields' values; what the bridge promises is then
proved of those functions, over every input, history or interleaving.

## Where the code falls short of its comments

Each of these is proved both ways: an input or run that goes wrong, and the
exact condition under which the code keeps its promise.

- A page of nothing but bookkeeping saves its cursor when it is released, even
  if an earlier page still waits in the portal queue; a crash then loses that
  page's messages for good (`BookkeepingPageLosesMessage`). The page is safe
  exactly if an event of it was queued or nothing older waits
  (`ReleaseGuardIsExact`).
- Rows are read once per pass, so a save that ends before the queued position
  is looked up makes a page be queued twice (`StaleRowQueuesTwice`). After any
  run, a lookup can lead to that exactly if the newer of the row read and the
  queued position is older than the position last saved
  (`TakesUpAgainExactly`); a run without such a lookup, and without duplicates
  in a fetch, takes no message up twice in a client's life
  (`GuardedRunsQueueOnce`).
- Ten pages, a page that cannot be fetched, or a page that begins in the middle
  of a millisecond leave a gap the cursor then passes. Everything above the
  cursor is returned exactly if it fits into the answered pages and none of them
  begins so (`CollectedAllExactly`, `SameMillisecondIsSkipped`); a poll without a
  cursor reads one page (`CollectedNewestExactly`). A run of the protocol misses
  nothing exactly if every fetch fitted (`MissedExactly`); in one that meets the
  release guard a message is missed and never taken up again (`MissedForGood`).
- Discovery announces a changed pin only together with a changed chat-info
  signature. A pin set from Matrix and undone on Teams before the next pass
  brings the old signature back, and the room stays a favourite of an unpinned
  chat until somebody changes something (`PinsCanStayApart`, `AgreesUnlessLost`).
- `OnFailure` multiplies before it caps: after 33 failures in a row the product
  overflows int64, and the delay is zero or negative for all but eight later
  counts (`FailureDelayExactly`).
- `CompareSequenceID` is cyclic once numbers and other strings mix
  (`MixedIDsFormACycle`, `TransitiveExactlyWithoutInterloper`).
- A listed channel with a blank name gets its team's name once more every
  round; the other names settle in one round exactly under the conditions of
  `OneRoundSettlesExactly`.
- A code element that is plain text inside one with a language gains that
  language when sanitised again (`NestedCodeChangesAgain`,
  `SanitisingTwiceIsOnceExactly`); a message without nested code never changes
  (`WithoutNestedCodeTwiceIsOnce`).
- Reactions are joined with bars and semicolons that are not escaped. Semicolons
  do no harm; a bar in a key or user ID does exactly if no white space stands
  next to it, as trimming tells the others apart (`PlainExactly`,
  `SeparatorsCollide`). A list of several reactions always has the signature of
  one other reaction, with such bars in its user ID (`ListAsOne`,
  `ToldApartExactly`). Such reactions can change without being reported
  (`BarsHideAChange`).
- A signature map swept between two checks of the same state reports a change
  that was none (`SweptSigIsReportedAgain`, `SigSweepingShowsExactly`); the other
  maps never show a sweep.

## Model

| member | source | states |
|---|---|---|
| SequenceOrder.CompareIsKeyOrder | internal/teams/model/message.go:237-251 | on the IDs Teams numbers messages with and the empty cursor, the comparison is the order of the integers, with the empty cursor below all |
| SequenceOrder.CompareAntisymmetric | internal/teams/model/message.go:237-251 | swapping any two strings flips the sign |
| SequenceOrder.TransitiveExactlyWithoutInterloper | internal/teams/model/message.go:237-251 | three arbitrary strings are ordered consistently if and only if no non-number sits between two numbers whose string order is reversed |
| SequenceOrder.MixedIDsFormACycle | internal/teams/model/message.go:237-251 | "9" is below "10", "10" below "1a", "1a" below "9" |
| ThreadState.CursorIsLastWritten | pkg/teamsdb/thread_state.go:44-70 | over every sequence of upserts and cursor updates a row stays, and its cursor is the one last written to that very row, or the one it had |
| ThreadState.ColumnsAreLastUpserted | pkg/teamsdb/thread_state.go:44-70 | over every such sequence a row's other columns are those of the last upsert, or those it had |
| ThreadState.ThreadStateTable.Upsert | pkg/teamsdb/thread_state.go:32-54 | refuses blank keys; otherwise, unless the database fails, the whole new table, the cursor of an existing row kept |
| ThreadState.ThreadStateTable.UpdateCursor | pkg/teamsdb/thread_state.go:56-70 | the whole new table; nothing changes without a row or when the database fails |
| CursorSaving.NewerThanIsKeyOrder | pkg/connector/cursor_commit.go:44-47 | newer means a greater integer position |
| CursorSaving.CursorOperationsRefineView | pkg/connector/cursor_commit.go:61-108 | noting, saving and forgetting on the string maps do to one thread's integer view what the protocol's operations do, and nothing to another thread's; a position noted is kept whole |
| CursorSaving.ThreadCursors.Pending | pkg/connector/cursor_commit.go:61-66 | the queued position, if there is one |
| CursorSaving.ThreadCursors.NoteQueued | pkg/connector/cursor_commit.go:69-79 | the queued position becomes the newer of the two |
| CursorSaving.ThreadCursors.NoteSaved | pkg/connector/cursor_commit.go:90-100 | the saved ID is recorded; a queued position it covers goes |
| CursorSaving.ThreadCursors.Forget | pkg/connector/cursor_commit.go:103-108 | both entries of the thread go |
| CursorSaving.ThreadCursors.SaveCursor | pkg/connector/cursor_commit.go:171-190 | database and maps change together, only for a newer position and a write that succeeds |
| CursorSaving.CommitFiresExactlyOnce | pkg/connector/cursor_commit.go:110-147 | over every interleaving of tracking, repeated hook calls and release, the count is the page's own share plus the uncalled hooks, and save runs once when released and all were called, else never, and never before it is set |
| CursorSaving.ActKeepsValid | pkg/connector/cursor_commit.go:128-147 | each single action keeps count, saves and armed state consistent |
| CursorSaving.CursorCommit.Done | pkg/connector/cursor_commit.go:143-147 | counts one down and runs save at zero |
| CursorSaving.CursorCommit.Track | pkg/connector/cursor_commit.go:128-134 | counts one up and hands out a hook not called yet |
| CursorSaving.CursorCommit.CallHook | pkg/connector/cursor_commit.go:128-134 | a hook counts down the first time only |
| CursorSaving.CursorCommit.Release | pkg/connector/cursor_commit.go:138-141 | sets save before giving up the page's own count |
| PollThread.QueuePage | pkg/connector/message_poller.go:300-375 | cursor position, tracked events, ingested count and commit are those of the page; a page with no new message changes no cursor and is not released |
| PollThread.PageEndPassesPage | pkg/connector/message_poller.go:338-352 | once the cursor is at a page's end no message of that page is new, in whatever order the page came, and that end is newer than where the page began |
| PollThread.ScanEndsPage | pkg/connector/message_poller.go:333-360 | the position kept is the greatest of the new messages |
| PollThread.FreshEventsAreQueued | pkg/connector/message_poller.go:325-365 | on a numbered page, a message's event is queued if and only if the message has an ID, lies above the cursor, is a new message, edit, deletion or notice, and the queue takes it; in page order |
| PollThread.NewsAreIngested | pkg/connector/message_poller.go:352-364 | the count is that of the new messages and notices above the cursor, whether or not the queue took them |
| PollThread.ScanKeepsLatest | pkg/connector/message_poller.go:345-350 | the time kept is the greatest of those messages' times, 0 if none is greater |
| PollThread.ScanCounts | pkg/connector/cursor_commit.go:151-168 | exactly as many hooks are still to be called as events are queued |
| PollThread.SaveWaitsForQueuedEvents | pkg/connector/message_poller.go:573-586 | releasing saves at once if and only if the queue took none of the page's events |
| PageSteps.PageIsProtocolRun | pkg/connector/message_poller.go:300-375 | queueing a page is the protocol's fetch of its new positions, one step a message, the note and the release: same commit, same queued position, same events in the portal's queue |
| PageSteps.QueueingRefines | pkg/connector/message_poller.go:333-365 | the loop over the messages is the protocol's queue steps |
| PageSteps.EndIsNewest | pkg/connector/message_poller.go:345-352 | the page's end is the greatest of its new positions |
| PageSteps.QueuedAsScanned | pkg/connector/cursor_commit.go:151-168 | the events queued are those of the messages the loop queued, in its order |
| PageSteps.OutcomesExactly | pkg/connector/message_poller.go:446-586 | only bookkeeping without a notice is skipped; of the rest, what the queue took waits there, what it did not was handled at once or turned away |
| PageSteps.NewPositionsAreNew | pkg/connector/message_poller.go:338-344 | the messages let through lie above the position the fetch began at |
| CatchUp.MessageServer.FetchPage | internal/teams/client/messages.go:150-167 | the newest messages strictly before a time, in any order, or a refusal |
| CatchUp.ListMessages | internal/teams/client/messages.go:72-146 | an error exactly if the first page is refused or a message collected has a sequence ID that cannot be read; otherwise the messages of the pages as the walk back through the thread asks for them, sorted and without duplicates, in at most ten requests |
| CatchUp.Collect | internal/teams/client/messages.go:94-139 | the page loop gathers each message of that walk once, or fails on one that cannot be read |
| CatchUp.NextPage | internal/teams/client/messages.go:95-138 | one page makes one step of the walk, the next page ending before its oldest millisecond; the loop goes on exactly while the page is full and above the cursor |
| CatchUp.AddPage | internal/teams/client/messages.go:112-134 | duplicates by ID are dropped, a new message that cannot be read ends it, the oldest time and whether the cursor was reached are kept |
| CatchUp.AddsEachOnce | internal/teams/client/messages.go:112-134 | whatever a page holds and in whatever order, each ID is collected once over all pages, and a message without an ID as often as it comes |
| CatchUp.CollectedAllExactly | internal/teams/client/messages.go:72-146 | every message above the cursor is returned if and only if they fit into the pages answered before the first refusal or the limit and no page above the cursor begins in the middle of a millisecond |
| CatchUp.CollectedNewestExactly | internal/teams/client/messages.go:110-135 | without a cursor the newest page alone is read, and everything is returned if and only if that page is answered and the thread fits into it |
| CatchUp.KeptInOrder | internal/teams/client/messages.go:94-143 | whatever pages are asked for, what is listed are messages of the thread, in its order and each once |
| CatchUp.PageEndExactly | internal/teams/client/messages.go:128-138 | the page asked for next goes on right before this one if and only if no earlier message shares the millisecond of this one's oldest |
| CatchUp.SameMillisecondIsSkipped | internal/teams/client/messages.go:128-138 | two messages of one millisecond, read in pages of one: the older is never returned, though no page is refused |
| CatchUp.CapacityIsAnsweredPages | internal/teams/client/messages.go:64-67 | that is the page size times the answered pages, at most ten |
| CatchUp.SortRestores | internal/teams/client/messages.go:141-143 | sorting the pages in whatever order they came gives the thread's own order |
| DeliveryProtocol.NothingIsLost | pkg/connector/cursor_commit.go:110-190 | in every run with events handled in queue order, saves failing and crashes anywhere, each message at or below the saved cursor is handled, dropped, skipped or was missed by its fetch, if pages meet the release guard |
| DeliveryProtocol.InvStep | pkg/connector/message_poller.go:300-403 | every step keeps the invariant behind it |
| DeliveryProtocol.ReleaseGuardIsExact | pkg/connector/cursor_commit.go:138-147 | when a save falls due at release, writing it loses nothing if and only if an event of the page was accepted or nothing older waits unsettled |
| DeliveryProtocol.BookkeepingPageLosesMessage | pkg/connector/message_poller.go:355-360 | a concrete run, whatever follows it, in which a message below the saved cursor is never handled |
| DeliveryProtocol.PassedIsGoneForGood | pkg/connector/message_poller.go:381-403 | a message the cursor had passed at start is never settled later |
| DeliveryProtocol.LeftOutForGood | pkg/connector/message_poller.go:381-403 | a message the cursor had passed at start without its being taken up never is, whatever follows |
| DeliveryProtocol.CursorNeverMovesBack | pkg/connector/cursor_commit.go:171-190 | in every run, pages finishing out of order and rows stale, the saved cursor never decreases; within one client's life neither does the greater of saved and queued |
| DeliveryProtocol.CursorInvStep | pkg/connector/cursor_commit.go:61-108 | every single step keeps the invariant behind it |
| DeliveryProtocol.StaleRowQueuesTwice | pkg/connector/message_poller.go:199 | a run that queues a handled and saved message again |
| QueuedOnce.TakesUpAgainExactly | pkg/connector/message_poller.go:381-403 | after every run, a lookup can lead to a message of this client's life being taken up again if and only if the position it starts from is older than the one last saved; then every fetch that returns all there is does so |
| QueuedOnce.LookupPassesEveryPageExactly | pkg/connector/message_poller.go:387-391 | a fetch starts at or past every page this client queued if and only if it starts at or past the position last saved, as it does with a row read fresh |
| QueuedOnce.GuardedRunsQueueOnce | pkg/connector/message_poller.go:300-403 | in every run whose lookups all meet that guard and whose fetches return no message twice, as ListMessages' do not, whatever the order of handling and saving, no message is taken up twice in a client's life |
| QueuedOnce.LifeStep | pkg/connector/cursor_commit.go:61-108 | every step keeps what ties the pages queued, the messages taken up and the positions queued and saved together |
| CompleteFetches.NothingIsLostOrMissed | internal/teams/client/messages.go:64-78 | over every ordered run whose fetches are those of ListMessages, nothing is missed if and only if every fetch fitted, and then each message at or below the saved cursor is handled, dropped or skipped |
| CompleteFetches.MissedExactly | internal/teams/client/messages.go:72-146 | from any reachable state, nothing is missed along a run if and only if nothing was before and every fetch fitted |
| CompleteFetches.NoGapExactly | internal/teams/client/messages.go:94-139 | one fetch passes no message it does not return if and only if what lies above its base fits into the answered pages and none of them begins in the middle of a millisecond, one page without a cursor |
| MissedMessage.ThirdIsListed | internal/teams/client/messages.go:94-138 | what is listed in that fetch, for every set of refusals past the first page |
| MissedMessage.MissedForGood | internal/teams/client/messages.go:94-138 | a run that keeps every guard and still ends with a message below the saved cursor that is never taken up, whatever follows: it shares a millisecond with the next one, or its page was refused |
| DeliveryProtocol.DueSaveIsCovered | pkg/connector/cursor_commit.go:143-147 | when a page's save is due everything up to its end is settled |
| PinSync.PinClient.Observe | pkg/connector/chat_state.go:86-104 | records the state seen and announces exactly a change, nothing counting as unpinned |
| PinSync.PinClient.Discover | pkg/connector/thread_discovery.go:113-207 | tracker, signature and announcement of one pass over a chat; other chats untouched |
| PinSync.PinClient.HandleRoomTag | pkg/connector/chat_state.go:194-233 | pins or unpins the chat on Teams as the event says, and the tracker with it, exactly for an event that says something new; other chats untouched |
| PinSync.StepSettles | pkg/connector/chat_state.go:83-233 | each step of any interleaving keeps or loses agreement exactly as its guards say |
| PinSync.AgreesUnlessLost | pkg/connector/thread_discovery.go:113-138 | after every interleaving from agreement, once both queues are empty, tracker and room tag agree if and only if no swallowed change is left unhealed |
| PinSync.AgreesWithoutSwallowing | pkg/connector/chat_state.go:60-66 | they agree after every run in which discovery swallowed nothing |
| PinSync.BehindExactly | pkg/connector/chat_state.go:193-230 | after every run, the tracker differs from Teams if and only if a toggle there has not been undone, read by a pass or overwritten from Matrix since |
| PinSync.MatrixReachesTeams | pkg/connector/chat_state.go:193-230 | from there, in a run without changes on Teams that loses nothing, whatever Matrix pins or unpins is so on Teams once the queues are done |
| PinSync.AllAgreeExactly | pkg/connector/chat_state.go:193-230 | from agreement, after every interleaving with the queues done, Teams, tracker and tag all agree if and only if no swallowed change is left, the tracker is not behind Teams and the pins have become known |
| PinSync.DiscoveryBringsAgreement | pkg/connector/chat_state.go:165-183 | after one more pass and its queues, Teams unwritten, Teams, tracker and tag agree if and only if the pass swallowed nothing |
| PinSync.PinsCanStayApart | pkg/connector/thread_discovery.go:130-138 | a concrete run after which the room is a favourite of a chat Teams does not pin; no discovery pass, signature expiry or event of another tag that tells what was before, in any number and order, announces anything or ends that |
| CacheSweep.SweepBefore | pkg/connector/cache_sweep.go:51-60 | exactly the entries before the cutoff go, and their number is returned |
| CacheSweep.ClientCaches.SweepCaches | pkg/connector/cache_sweep.go:64-102 | all eight maps are swept with their own windows; the number returned is what went |
| CacheSweep.ClientCaches.ShouldEmitTyping | pkg/connector/message_poller.go:599-612 | true, and noted, exactly if the last one let through is three seconds old or more |
| CacheSweep.ClientCaches.ShouldPollReceipts | pkg/connector/receipt_sync.go:194-212 | true, and noted, exactly if the last check is two minutes old, or the thread active |
| CacheSweep.ClientCaches.NoteThreadActive | pkg/connector/poll_wake.go:70-78 | activity noted, receipt check made due |
| CacheSweep.ClientCaches.ForgetReceipts | pkg/connector/poll_wake.go:81-85 | the next poll checks read positions |
| CacheSweep.ClientCaches.ThreadIsActive | pkg/connector/poll_wake.go:87-92 | an own send less than half an hour ago |
| CacheSweep.ClientCaches.RecentNameLookupMiss | pkg/connector/thread_discovery.go:313-318 | a miss less than six hours ago |
| CacheSweep.ClientCaches.RecordNameLookupMiss | pkg/connector/thread_discovery.go:320-327 | the miss is recorded |
| CacheSweep.ClientCaches.ReactionStateChanged | pkg/connector/reaction_sync.go:164-173 | reports a first or different signature, and records it |
| CacheSweep.ClientCaches.MessageStateChanged | pkg/connector/edit_sync.go:150-159 | the same for edits and deletions |
| CacheSweep.ClientCaches.ForgetMessageState | pkg/connector/edit_sync.go:163-167 | the next check reports again |
| CacheSweep.ClientCaches.ChatInfoChanged | pkg/connector/thread_discovery.go:196-207 | the same for a chat's info |
| CacheSweep.SweepHidesNothing | pkg/connector/cache_sweep.go:82-99 | after a sweep every query answers and acts as it would have without it |
| CacheSweep.AnswersExactly | pkg/connector/receipt_sync.go:194-212 | when each question is answered with yes, in milliseconds: typing after three seconds; read positions after two minutes, or at once within half an hour of an own send; a missing name within six hours |
| CacheSweep.EffectsExactly | pkg/connector/poll_wake.go:70-78 | what each question leaves behind: its time where the answer was yes; an own send makes the read positions due and touches no other thread |
| CacheSweep.SweptExactly | pkg/connector/cache_sweep.go:64-102 | a sweep drops exactly the entries older than their map's window, the others stay as they are |
| CacheSweep.SweepingIsUnobservable | pkg/connector/cache_sweep.go:7-11 | a client that sweeps at arbitrary moments gives the same answers to every sequence of queries as one that never does, if none is dated before an earlier sweep |
| CacheSweep.SigSweepingShowsExactly | pkg/connector/cache_sweep.go:23-40 | for signatures the reports are the same if and only if no check repeats one that a sweep found older than twelve hours |
| CacheSweep.NextSigsExactly | pkg/connector/reaction_sync.go:164-173 | a check records its signature and time and no other key's, a deletion forgets the key, and a sweep drops exactly what was last checked more than twelve hours ago |
| CacheSweep.SweptSigIsReportedAgain | pkg/connector/cache_sweep.go:23-40 | a signature swept after its time and checked again unchanged is reported, where a client that does not sweep reports nothing |
| CacheSweep.SigSweepingIsUnobservable | pkg/connector/cache_sweep.go:23-40 | so they are the same when every key is checked at least once per twelve hours |
| HtmlText.UnescapeEscape | internal/teams/model/message_html.go:176-188 | unescaping undoes escaping, whatever follows |
| HtmlText.EscapeIsInert | internal/teams/model/message_html.go:176-188 | escaped text holds no bracket or quote |
| HtmlText.EscapeInjective | internal/teams/model/message_html.go:176-188 | different texts print differently |
| MessageHtml.RenderFormattedNode | internal/teams/model/message_html.go:176-239 | appends the printed sanitised tree; the flag tells whether that has a tag |
| MessageHtml.RenderElement | internal/teams/model/message_html.go:181-229 | the same for an element, by kind |
| MessageHtml.RenderChildren | internal/teams/model/message_html.go:194-198 | children are rendered in order, the flag is that of any of them |
| MessageHtml.WriteAttr | internal/teams/model/message_html.go:203-216 | only a safe link target or a code language becomes an attribute |
| MessageHtml.LinkIsKeptExactly | internal/teams/model/message_html.go:278-303 | the first href counts; it is kept, trimmed, if and only if it parses and begins with one of four schemes, in letters of either case, and a colon |
| MessageHtml.NormalizeFormatted | internal/teams/model/message_html.go:85-119 | the trimmed rendering, or nothing if it holds no bracket |
| MessageHtml.TagIsBracket | internal/teams/model/message_html.go:176-239 | a rendering has a tag if and only if it holds a bracket |
| MessageHtml.TextIsKept | internal/teams/model/message_html.go:176-239 | sanitising keeps, in order, exactly the text outside unsafe elements with emoticons spelled out |
| MessageHtml.MarkupIsKept | internal/teams/model/message_html.go:173-235 | every allowed opening and closing tag, break and text outside unsafe elements is kept in order, also inside elements that are not allowed, each link with its target and each code element with its language |
| MessageHtml.UnsafeIsLeftOut | internal/teams/model/message_html.go:180-182 | nothing of an unsafe element is left, text or markup |
| MessageHtml.EmoticonIsSpelled | internal/teams/model/message_html.go:127-141 | an emoticon image becomes its alternative text, else its title as a shortcode, else its ID, whatever these are |
| MessageHtml.ClassLanguage | internal/teams/model/message_html.go:241-243 | a language is never blank and holds only a language's characters |
| MessageHtml.LanguageIsFirstNamed | internal/teams/model/message_html.go:239-241 | the language of a class is that of its first whole word language-X with X of a language's characters, and there is one if and only if there is such a word |
| MessageHtml.CodeLanguageExactly | internal/teams/model/message_html.go:246-259 | the element's own class goes before its parent's; the result is lower-case, and plaintext or text is no language |
| HtmlParser.SanitiseIsSound | internal/teams/model/message_html.go:15-37 | the result has allowed tags only, links with a safe scheme only, and lower-case languages only |
| HtmlParser.CleanAttrIsSound | internal/teams/model/message_html.go:248-302 | whatever the attributes, a link kept is trimmed, not blank and of a safe scheme; a language kept is one and not plain text |
| HtmlParser.PrintParses | internal/teams/model/message_html.go:176-239 | every sanitised tree, printed before a closing tag or the end, is read back up to there |
| HtmlParser.RoundTrip | internal/teams/model/message_html.go:176-239 | for every message the printed string is balanced over the allowed tags and reads back as the sanitised tree with neighbouring texts joined |
| HtmlTrimmed.FormattedRoundTrip | internal/teams/model/message_html.go:110-118 | the formatted body as sent, white space trimmed, is the print of the sanitised tree trimmed at its two ends, balanced, and reads back as that tree |
| HtmlSanitiseTwice.SanitisingTwiceIsOnceExactly | internal/teams/model/message_html.go:245-261 | sanitising again changes nothing if and only if no code element without a language stands right inside one with a language |
| HtmlSanitiseTwice.WithoutNestedCodeTwiceIsOnce | internal/teams/model/message_html.go:245-261 | for every message with no code element inside another, however deep, sanitising the result again changes nothing |
| HtmlSanitiseTwice.NestedCodeChangesAgain | internal/teams/model/message_html.go:245-261 | a message whose sanitised tree is changed by sanitising it again |
| Naming.OneRoundSettlesExactly | pkg/connector/thread_discovery.go:496-615 | for every kind of thread and API name, one round from any stored name gives a name neither pass changes, if and only if the condition for that kind holds |
| Naming.ChooseTwice | pkg/connector/thread_discovery.go:751-771 | choosing again between the API's name and the choice changes nothing |
| Naming.UnnamedExactly | pkg/connector/thread_discovery.go:556-615 | an unnamed one is named after its counterpart, as a meeting, after its team or by its ID, and a group chat is left alone |
| Naming.StructuredExactly | pkg/connector/thread_discovery.go:556-615 | a named chat gets the prefix of its type, a channel the team's name before its own, a system stream its clean name |
| Naming.ChooseExactly | pkg/connector/thread_discovery.go:751-771 | the stored name stays exactly if there is one and the API's name agrees with it or says nothing better |
| Naming.DirectMessageRound | pkg/connector/thread_discovery.go:560-573 | a direct message settles unless the API's name looks like a placeholder |
| Naming.DirectMessageIsLookedUp | pkg/connector/thread_discovery.go:560-573 | a direct message the list gives no name for follows its counterpart's |
| Naming.DirectMessageUnstable | pkg/connector/thread_discovery.go:760-766 | and does not if it does |
| Naming.GroupOrMeetingRound | pkg/connector/thread_discovery.go:574-586 | group chats and meetings always settle |
| Naming.UnlistedRound | pkg/connector/thread_discovery.go:592-599 | a channel without an entry always settles |
| Naming.NamedChannelRound | pkg/connector/thread_discovery.go:600-608 | a named channel settles if and only if the API's name is generic or agrees with the full name |
| Naming.BlankChannelRound | pkg/connector/thread_discovery.go:602-606 | a channel with a blank name settles if its team's name has a type prefix, alone or with the slash behind it where the API gives a name |
| Naming.BlankChannelUnstable | pkg/connector/thread_discovery.go:602-606 | and otherwise some stored name does not settle |
| Naming.BlankChannelGrows | pkg/connector/thread_discovery.go:602-606 | its name then gains the team's name once more every round |
| Naming.StreamRound | pkg/connector/thread_discovery.go:530-547 | a system stream settles if and only if discovery keeps its clean name |
| ReactionSignature.BuildSignature | pkg/connector/reaction_sync.go:143-158 | the loops build the signature of the reactions' triples |
| ReactionSignature.UserTriplesAt | pkg/connector/reaction_sync.go:150-154 | each user of a reaction has a triple in its place, key and ID trimmed |
| ReactionSignature.TriplesOfEach | pkg/connector/reaction_sync.go:149-155 | each reaction's triples come right behind those of the reactions before it |
| ReactionSignature.SignatureIsCanonical | pkg/connector/reaction_sync.go:143-158 | for reaction lists with no bar in a key or user ID but next to white space, semicolons allowed, two signatures are equal if and only if the multisets of key, user and time are |
| ReactionSignature.BarFreeIsCanonical | pkg/connector/reaction_sync.go:143-158 | in particular for lists without any bar, semicolons or not |
| ReactionSignature.PlainExactly | pkg/connector/reaction_sync.go:151-157 | a reaction has a signature no other one has if and only if that holds of it |
| ReactionSignature.BarsCollide | pkg/connector/reaction_sync.go:143-158 | every list with another reaction in it has the signature of a list whose multiset differs |
| ReactionSignature.ListAsOne | pkg/connector/reaction_sync.go:151-157 | every list has the signature of one reaction, which is never such a one if the list has two or more |
| ReactionSignature.SameExactlyIfPlain | pkg/connector/reaction_sync.go:143-158 | of the lists with the signature of a list of such reactions, those with the same reactions are exactly those that hold such reactions only |
| ReactionSignature.ToldApartExactly | pkg/connector/reaction_sync.go:143-158 | a reaction list has a signature no list with other reactions has if and only if it is empty or a single such reaction |
| ReactionSignature.JoinInjective | pkg/connector/reaction_sync.go:156-157 | a joined list of such parts can be taken apart in one way only |
| ReactionSignature.SeparatorsCollide | pkg/connector/reaction_sync.go:153 | two different reactions with one signature, a separator in a key |
| ReactionSignature.ReportedExactly | pkg/connector/reaction_sync.go:160-173 | over every history of such polls, a change is reported exactly when the multiset is the message's first or not the last seen |
| ReactionSignature.BarsHideAChange | pkg/connector/reaction_sync.go:160-173 | after any history, once other reactions are seen some change of them goes unreported |
| Backoff.TeamsThrottle | pkg/connector/poll_limits.go:39-48 | a 429 and nothing else pauses, for more than nothing and at most ten minutes |
| Backoff.PauseExactly | pkg/connector/poll_limits.go:44-47 | the pause is Teams' own up to ten minutes, half a minute where it names none |
| Backoff.ActivityDelayIsExponential | pkg/connector/poll_limits.go:64-69 | for every failure count the clamped shift is the unbounded doubling under its cap, without overflow |
| Backoff.LongPollDelayIsExponential | pkg/connector/sync_loop.go:208-211 | the same for long-poll requests |
| Backoff.RefreshDelayIsExponential | pkg/connector/sync_loop.go:343-351 | the same for token refreshes |
| Backoff.RefreshFailure.Record | pkg/connector/sync_loop.go:343-357 | the time until which refreshes are held back, with the overrides for a refused token and for no answer |
| Backoff.RefreshFailure.Blocked | pkg/connector/sync_loop.go:360-365 | the error is returned exactly before that time |
| Backoff.RefreshFailure.Reset | pkg/connector/sync_loop.go:367-369 | nothing is held back and the doubling starts over |
| Backoff.FailureDelayExactly | pkg/connector/poll_backoff.go:65-75 | the delay is the doubling under its cap, and is positive, if and only if there were at most 33 failures or one of eight later counts |
| Backoff.IdlePollsAdd | pkg/connector/poll_backoff.go:40-52 | n idle polls in a row add 2n seconds to the delay, under the cap |
| Backoff.OutcomeWaits | pkg/connector/poll_backoff.go:92-125 | every outcome leaves a positive delay, except a failure whose product wrapped |
| Backoff.PollBackoff.OnIdle | pkg/connector/poll_backoff.go:40-52 | failures are forgotten; two seconds more, up to the idle cap that applies |
| Backoff.PollBackoff.OnFailure | pkg/connector/poll_backoff.go:65-75 | one failure more; the delay is the wrapped product under the cap |
| Backoff.PollBackoff.OnRetryAfter | pkg/connector/poll_backoff.go:55-62 | the server's delay where it gives one |
| Backoff.PollBackoff.Apply | pkg/connector/poll_backoff.go:92-125 | the outcome's class, the delay and the new state |
| Scheduler.NextPollExactly | pkg/connector/message_poller.go:234-255 | a polled thread's next poll lies ahead unless its delay wrapped; six hours if gone, fifteen minutes if idle and watched, seconds after an own send |
| Scheduler.PolledStateExactly | pkg/connector/message_poller.go:239-259 | a thread is parked exactly if it answers 404 with one of Teams' two words for a deleted one; any other waits its delay under the cap that applies, its failures counted on or forgotten |
| Scheduler.TurnsPollTheDue | pkg/connector/message_poller.go:210-259 | an unpaused pass polls exactly the due threads, in the order listed |
| Scheduler.TurnsLeaveExactly | pkg/connector/message_poller.go:214-259 | after an unpaused pass each due thread is as its poll leaves it, every other as it was, a new one fresh |
| Scheduler.DueThreadsAreListed | pkg/connector/message_poller.go:210-227 | each due thread once and no other |
| Scheduler.DueExactly | pkg/connector/message_poller.go:214-227 | a thread is due from its next poll on, a newly listed one at once |
| Scheduler.TurnsWakeInTime | pkg/connector/message_poller.go:222-259 | the wake time is no later than any listed thread's next poll |
| Scheduler.TurnsWakeForSomething | pkg/connector/message_poller.go:222-259 | and it is the one given or some listed thread's next poll |
| Scheduler.TurnsThrottle | pkg/connector/message_poller.go:140-150 | pauses only get longer, end at most ten minutes ahead, and stop the pass |
| Scheduler.TurnsPause | pkg/connector/message_poller.go:234-238 | the threads before the rate-limited one have been polled; it and the due ones after it stay due; the pause is the longer of Teams' and the one in force |
| Scheduler.ApplyWakeup | pkg/connector/poll_wake.go:150-168 | exactly the matching threads are due now at the fastest cadence |
| Scheduler.CheckActivity | pkg/connector/poll_wake.go:111-146 | exactly the threads that the list has news of, by their own ID or their conversation's, are due at once at the fastest cadence; unknown is reported exactly for news of a conversation no thread stands for that is none of Teams' own streams; the newest messages are kept; in a list without repetitions news is a newest message that differs from the one kept, or a conversation not kept when any was |
| Scheduler.NoticedExactly | pkg/connector/poll_wake.go:124-137 | a conversation is noticed if and only if some entry of the list tells of a newest message other than the one known by then, from the check before or an earlier entry, or of one not known once any conversation is |
| Scheduler.SameListNoticesNothing | pkg/connector/poll_wake.go:124-137 | the same list again wakes nothing |
| Scheduler.NoticedThreadsAreDue | pkg/connector/poll_wake.go:150-168 | a changed conversation's threads are due at once, others are left alone |
| PollLoop.PassOutcome | pkg/connector/message_poller.go:155-261 | a pass goes through or is cut short by a rate-limited poll, with what holds in either case |
| PollLoop.ForgettingKeepsDue | pkg/connector/cache_sweep.go:106-113 | forgetting threads no longer listed makes no listed thread due or not |
| PollLoop.OneMorePass | pkg/connector/message_poller.go:155-261 | a pass begun after the pause keeps the rules of the whole run |
| PollLoop.BeginsWell | pkg/connector/message_poller.go:155-172 | discovery, team sync and check never shorten the pause or the gap between discoveries, and their next times lie ahead |
| PollLoop.ThrottledExactly | pkg/connector/message_poller.go:140-150 | a 429 pauses at least as long as asked, and no longer than that or the pause in force |
| PollLoop.FailedCheckOnlyCounts | pkg/connector/message_poller.go:266-287 | one that fails changes no thread, counts one more failure and backs off exponentially |
| PollLoop.CheckActsOnNews | pkg/connector/message_poller.go:266-287 | a due check with an answer wakes exactly the threads with news, brings discovery forward exactly for unknown news once the gap is past, and comes again in three seconds |
| PollLoop.FinishesWell | pkg/connector/message_poller.go:173-261 | a pass ends before the threads, because polling is paused or the rows cannot be read, or with the fold of single turns over the listed ones: every due one polled once and nothing overdue at the wake time, or cut short by a 429 and paused |
| PollLoop.WakesExactly | pkg/connector/message_poller.go:176-183 | a pass that went through sleeps until the first of five seconds, the next check, the next discovery and the listed threads' next polls |
| PollLoop.PassKeepsRules | pkg/connector/message_poller.go:155-261 | every pass made when it may be keeps the run's rules: pauses respected, never shortened and bounded, discoveries spaced |
| PollLoop.OnlyLimitsPause | pkg/connector/message_poller.go:140-150 | a pass in which nothing answers 429 leaves the pause as it was |
| PollLoop.RunAccounts | pkg/connector/message_poller.go:80-93 | over every sequence of rounds from every state, a round makes a pass if and only if it does not lie before the end of the pause the last pass left and no earlier pass failed to read the rows; the passes carry their rounds' times, in order |
| PollLoop.UnlimitedRunsPassAlways | pkg/connector/message_poller.go:56-118 | while Teams rate-limits nothing and the rows can be read, every round makes a pass and the pause stays as it was |
| PollLoop.Poller.Throttle | pkg/connector/message_poller.go:140-150 | the pause becomes the later of the two |
| PollLoop.Poller.RunDiscovery | pkg/connector/message_poller.go:157-163 | the next discovery is five minutes after this one while changes are watched, else the regular interval, so at least thirty seconds; the pause becomes the later of the two if it was rate-limited and stays otherwise |
| PollLoop.Poller.RunActivityCheck | pkg/connector/message_poller.go:266-287 | the threads woken, what was seen, the next check's time, the pause, later only by a 429; discovery is brought forward exactly if an unknown conversation changed and the gap is past |
| PollLoop.Poller.ForgetRemovedThreads | pkg/connector/cache_sweep.go:106-113 | exactly the listed threads' states stay, and the cursors of exactly the others are forgotten |
| PollLoop.Poller.PollThreads | pkg/connector/message_poller.go:210-259 | the loop is the fold of single turns, ending where one pauses |
| PollLoop.Poller.PollPass | pkg/connector/message_poller.go:155-261 | the whole new state is that of one pass; it is remembered with its time, the pause before and after it and whether discovery ran, exactly if it was due; it keeps the run's rules and ends with the due threads polled and nothing overdue at the wake time, or paused |
| PollLoop.Poller.PollDueThreads | pkg/connector/message_poller.go:56-118 | over any sequence of rounds the state is the fold of wakeups and passes, and a round makes a pass exactly if the pause in force is over and the rows could be read so far; no pass comes before the end of a pause, pauses never shorten, and discoveries are thirty seconds apart |
| PollLoop.Poller.TakeWakeups | pkg/connector/message_poller.go:101-115 | every queued wakeup is applied |
| Reachability.TeamsReach.NoteOutcome | pkg/connector/reachability.go:31-51 | a cancelled request changes nothing, an answered one clears failures and outage; a state is returned exactly when the outage begins or ends |
| Reachability.TeamsReach.MarkAsDown | pkg/connector/reachability.go:64-73 | an outage at once, reported unless there already is one |
| Reachability.DownExactly | pkg/connector/reachability.go:31-73 | after any run, unreachable if and only if since the last answer three requests had none or it was marked so |
| Reachability.FailuresCount | pkg/connector/reachability.go:31-73 | unreachable if and only if the failures counted reach three |
| Reachability.ReportsAlternate | pkg/connector/reachability.go:29-51 | the states reported alternate, a disconnect first, and the last one told is how things stand |
| SyncTasks.StopWaitsForEverything | pkg/connector/sync_loop.go:42-114 | in every interleaving the count is that of the goroutines still counted; done is closed and a stop returns only when every goroutine ever started has returned |
| SyncTasks.ZeroStaysZero | pkg/connector/sync_loop.go:73-77 | once the count is zero no goroutine of that start is added again |
| SyncTasks.StepKeepsInv | pkg/connector/sync_loop.go:52-83 | every step keeps the invariant behind both |
| SyncTasks.GenerationsNeverOverlap | pkg/connector/sync_loop.go:42-46 | if every start comes after the stops before it have returned, no two starts have goroutines at once |
| PinnedMerge.MergePinnedItems | pkg/connector/pinned_messages.go:258-271 | new pins reversed, then the kept ones in Teams' order |
| PinnedMerge.MergeIsPermutation | pkg/connector/pinned_messages.go:255-271 | exactly the wanted messages, each once |
| PinnedMerge.MergeOrder | pkg/connector/pinned_messages.go:255-271 | new pins stand before those already pinned, the last one wanted first; those already pinned keep Teams' order |
| PinnedMerge.DistinctAppend | pkg/connector/pinned_messages.go:224-230 | a message pinned twice counts where it stands first |
| PinnedMerge.MergeTwice | pkg/connector/pinned_messages.go:255-271 | pinning the same again changes nothing |
| PinnedMerge.SignatureRoundTrip | pkg/connector/pinned_messages.go:248-253 | splitting the joined list gives it back |
| PinnedMerge.ItemsRoundTrip | internal/teams/model/conversation.go:23-42 | the list written to Teams is read back as it is |
| PinnedMerge.BridgedExactly | pkg/connector/pinned_messages.go:149-155 | the room gets exactly the bridged messages of the list, in its order |
| PinnedMerge.ItemsAreMessages | internal/teams/client/conversations.go:223-227 | each is written as a message, in its place |
| PinnedMerge.ItemIsRead | internal/teams/model/conversation.go:36-40 | each item that is a message, or of no type, is read as its trimmed ID behind those before it, any other left out |
| PinnedMerge.ReadingBackSendsNothing | pkg/connector/pinned_messages.go:201-246 | after a change from Matrix, reading Teams' list back sends nothing to Matrix and the next merge starts from that list |
| PinnedMerge.PinnedMessages.SyncPinnedMessages | pkg/connector/pinned_messages.go:130-164 | the room is set to the bridged ones of the list, in its order, and the whole list recorded, exactly when it is new, the room ready, and not an empty first sight |
| PinnedMerge.PinnedMessages.HandleMatrixPinnedEvents | pkg/connector/pinned_messages.go:201-246 | Teams' list and the record change together, or not at all |
| ChunkedUpload.RangeRoundTrip | internal/teams/graph/chunked_upload.go:170-183 | both range formats are read back as their start |
| ChunkedUpload.RefusedExactly | internal/teams/graph/chunked_upload.go:37-49 | nothing is refused but a blank address, an empty file and a chunk size that is no multiple of 320 KiB |
| ChunkedUpload.RangeIsReadExactly | internal/teams/graph/chunked_upload.go:170-183 | a range is read as a start if and only if a number stands before its first dash |
| ChunkedUpload.UploadSession.Put | internal/teams/graph/chunked_upload.go:65-120 | a request must carry a valid range and a body of its length; it fails exactly if the session fails it, and otherwise the session takes some of it and says where to go on |
| ChunkedUpload.PutChunk | internal/teams/graph/chunked_upload.go:56-75 | one request sends a whole chunk, or what is left, from where the session stands |
| ChunkedUpload.UploadFileInChunks | internal/teams/graph/chunked_upload.go:33-142 | ends; refusals before anything is sent; every request a whole chunk or what is left; it reports a failed request if and only if one of the requests made failed, and otherwise the session holds the content, whether or not the item can then be read; a beginning of it in any case |

## Left out

- HTTP, JSON, SQL, `nethtml.Parse`, logging and bridgev2: decoded pages, rows, node trees, decoded range lists and the portal's queue are taken as given; whether a call succeeds is a parameter.
- Real time and goroutines: times are integers passed in, concurrency is the interleaving of steps.
- `bridge.async_events`: events handled out of queue order are part of the cursor's monotonicity only; without order the no-loss result does not hold.
- CompleteFetches: a message as the paging loop sees it and as the page loop does are two datatypes, joined by their positions.
- DeliveryProtocol.NothingIsLost: holds under the release guard, without which it is false as shown; messages a gappy fetch does not return are counted as missed, not as settled by the bridge.
- DeliveryProtocol: one thread of one client at a time, with no hook of an earlier client still called after a restart; rows are never deleted, so `forget` is a map operation of `CursorSaving` only; a write that fails has not changed the row.
- CatchUp.ListMessages: no message arrives between two pages of one call, and times in milliseconds never fall as sequence numbers rise; sender, content and reaction conversion are not modelled.
- PollThread: typing controls, names of senders and the conversion of contents are reduced to the kind of a message; in-place edits, receipts and reactions of a poll are not queued here.
- PinSync: one chat of one client's life; writes to Teams succeed; a tag that bridgev2 changes comes back as an event. After a restart the tracker knows nothing, which is not part of this model. Mute and marked-unread states go the same way and are not repeated.
- CacheSweep: the marks of announced reactions are swept but never asked for, as a missing one falls back to the bridge database.
- MessageHtml.NormalizeFormatted: the plain-text body, without which a message sends neither body, is not modelled.
- MessageHtml: mention markup, and upper-case letters outside ASCII (but for the two whose lower case is an ASCII letter) are not modelled; whether `url.Parse` accepts a link beyond its scheme is a flag of the attribute.
- Naming: the two passes run whole, one after the other, with the channel map, the profile table and the API's name fixed; naming unnamed group chats after their members is not modelled.
- Scheduler.ApplyWakeup: when and by whom a thread was noticed, which only the latency log uses, and the flag that makes its receipts due (as `CacheSweep.ClientCaches.ForgetReceipts` does) are not modelled.
- Scheduler: what a poll does to receipts and the latency log is left out; token refreshes, team syncs and statistics only keep their times.
- ChunkedUpload.UploadFileInChunks: against a session that takes some of every chunk; one that never advances would keep the loop going.
- SyncTasks: the wait group and the client's two fields are values of a step system, not objects, as what matters is every interleaving; a stop with a timeout may return before the goroutines do, and is modelled as one that has not returned yet.
- Login, tokens, presence, bot commands, cards, call logs, media re-upload and the emoji tables.
