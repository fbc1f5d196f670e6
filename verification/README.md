# Maily: verified model of the mailbox core

Maily keeps a local mailbox in step with an IMAP server it does not control. This project models the parts where
local state, queued intents and server state have to agree, and proves what they promise over every run.
`dafny verify dfyconfig.toml` checks everything.

## What is modelled

**The outbox.** `Intents` is what a delete, move or flag change does to one message and how its record takes it
back. `Outbox` is the queue as a state machine: one event is one transaction (an enqueue, the status flip of a cancel,
a claim, the start or the end of a server action, an inverse, a restart), so a run is any interleaving of them. A cancel
and a death take two: the row's new status is committed first, its inverse second, and a restart or a failing write can
fall between.
`OutboxRunner` is the same queue as a class whose methods rewrite messages and rows in place; each is proved to make
the step of the state machine. `FlagReplay`, `OutboxProtocol`, `OutboxLedger`, `OutboxUndo` and `Placement` prove properties of runs;
`FlagBatch` is the batched STORE against sending each row alone.

**The sync store.** `MailModel` and `MailStore` are the message rows, folder mappings, threads and tombstones, once
as values and once as a class updated in place. `Threads` and `Reconcile` prove what arrivals and expunge passes
leave. `Imap` is a mailbox whose server may deliver and expunge between any two commands and may fail any of them;
`UidSync` and `Sweep` are the two passes that must survive being cut off anywhere. `Budget` is the daily download
counter under concurrent downloaders.

**Self-contained algorithms.** `Graph` and `Duplicates` (union-find clustering), `Billing` (the export cursor behind
its settle window), `Rules` (precedence and the SQL twins), `Mime` (two walks that must number attachments alike),
`Folding` and `Calendar` (the iCalendar writer, read back by the mailbox's own invitation reader), `Casing`, `CardText`,
`Cards`, `CardRoundTrip`, `CardFields` and `CardSurvives` (the vCard parser, printer and merge).

Server replies, the clock, the reading of zoned dates, the cache window, the folding of names and addresses before
comparison, the matcher's lower-casing and the card labels' capitals beyond ASCII are parameters or chosen by the events
of a run.

## Where the code and its description part

The code is followed; each point is a lemma with a concrete input or an exact condition.

- Two flags handed to one newer row: the second write drops the first (`FlagReplay.DroppedHandover`). A row that
  dies is reverted with the payload read at claim time (`FlagReplay.StaleDeath`). `FlagReplay.StepExact` says exactly
  which cancels, deaths and lost inverses keep every flag right.
- The flip of a canceled or dead row and its inverse are separate transactions, and only `sending` rows are re-armed at
  startup. A crash between the two, or a second write that stays busy, loses the inverse for good
  (`FlagReplay.LostInverse`; exactly when that matters in `FlagReplay.CutOffExact`; `OutboxProtocol.InvertedExactly`).
- A move onto its own folder does not come back (`Intents.MoveRoundTripExact`), and two moves undone oldest first come
  back except in two cases (`Placement.OldestFirstExact`); moved out and back, the UID is lost
  (`Placement.OldestFirstLosesTheCopy`). Taking back a delete of a message purged since breaks "purged implies
  tombstoned" (`Intents.RevertDeleteCoherentExact`).
- `flagPlacement` looks only at the oldest waiting move. If that one found nothing to move, flags set after a second
  move reach no server copy (`Placement.EmptyMoveHidesTheCopy`, exact in `Placement.CopyFoundExact`).
- A move into Trash made elsewhere ends tombstoned or not depending on which folder is reconciled first
  (`Reconcile.OrderExact`).
- A Message-ID that is absent or empty is stored again on every arrival (`Threads.TwiceExact`), and an empty one names
  a thread that all its holders share (`Threads.EmptyIdsShareAThread`). A References header that reaches beyond the
  parent can join a message to a thread its replies do not link it to: `Threads.ArrivalExact` says exactly when,
  `Threads.LongReferencesDependOnOrder` is an input.
- The two attachment walks are described as numbering alike by construction. They differ for a transfer-encoded
  forwarded message without filename, because the raw walk forces its disposition (`Mime.EncodedAttachmentShifts`), and
  for inline parts whose Content-ID field is there but empty, which only the raw walk counts
  (`Mime.EmptyContentIdShifts`), for inline parts without Content-Type, which only the structure calls text
  (`Mime.UntypedPartShifts`), and for untyped parts of a digest, which only the structure opens (`Mime.DigestHides`);
  exactly which leaves in `Mime.DivergesExact`.
- The matcher folds every letter, SQLite only ASCII ones. A protect rule for a sender with an accented letter, or for a
  domain and an address spelled with the Kelvin sign, covers mail for the matcher and not for SQL
  (`Rules.AccentedSenderIsMissed`, `Rules.KelvinDomainIsMissed`); SQL alone takes an address without `@`
  that ends in a dotted domain. `Rules.TwinExact` and `Rules.ProtectionFollowsMatcher` are exact.
- A SEARCH answered with an error is read as an empty list (imap/sync.ts:347, 438). A first sync then stores its
  boundary at UIDNEXT and ends as if all were well, with everything in the window below and unstored; a sweep drops its
  watermark to 1 and reports `done` with nothing archived. `UidSync.FullSync` and `Sweep.SweepFolderSource` say exactly
  when that loses something, `UidSync.RefusedSearchLosesMail` and `Sweep.RefusedSearchIsDone` are inputs; the results on
  runs hold unless it happens.
- When the cache window begins at UID 1, the resume floor stored is 0 (imap/sync.ts:356) and the next pass asks for
  `0:*` (imap/resync.ts:141-143). No UID is 0, so that is not a set a server has to accept; `UidSync.Incremental` lets
  it mean every UID. A server that rejects it fails the pass, which skips nothing but never gets further.
- A commit later than the settle window is lost to the billing feed for good (`Billing.LateCommitIsLost`). The daily
  bound needs a clock that does not go back (`Budget.ClockSetBack`).
- The calendar writer escapes the UID, the reader takes it verbatim (`Calendar.UidKeptExact`); an instant outside the
  years 1000 to 9999 does not read back (`Calendar.FourDigitYears`).
- A phone, link or address labelled Voice, Pref, X-Pref or Internet is printed with that type and comes back without a
  label (`CardFields.NoiseLabelIsLost`). Labels are printed in capitals and read back in small letters, so one with a
  letter whose capitals are other letters, as Straße, comes back changed (`CardFields.SharpSIsLost`).
- The card reader undoes `\n` before `\\` and splits before it unescapes (`CardText.TextRoundTripExact`,
  `CardRoundTrip.OrgRoundTripExact`, `CardRoundTrip.AddressExact`, `CardRoundTrip.CategoriesExact`); for whole cards the
  exact condition is in `CardSurvives.BuildSurvivesExact`.

## Model

| member | source | states |
|---|---|---|
| Intents.DeleteRoundTrip | backend/src/outbox/intents.ts:53-68 | A delete tombstones the message, and taken back gives the message back exactly, whatever its tombstone was |
| Intents.MoveRoundTripExact | backend/src/outbox/intents.ts:78-123 | A move taken back restores every mapping with its UID if and only if it found nothing to move or named two different folders |
| Intents.MoveEffect | backend/src/outbox/intents.ts:78-101 | After a move the source mapping is gone, the destination is mapped, without UID if it was new, and every other mapping, flag and tombstone is as before |
| Intents.RevertMoveEffect | backend/src/outbox/intents.ts:104-123 | Taking a move back maps the source again, drops the destination exactly if the move had added it and it still has no UID, and keeps every other mapping, whatever happened since; without a record it does nothing |
| Intents.RevertDeleteCoherentExact | backend/src/outbox/intents.ts:64-68 | Taking a delete back keeps "purged implies tombstoned" if and only if the message was tombstoned before or is not purged |
| Intents.DifferentKindsCommute | backend/src/outbox/intents.ts:53-141 | Intents of different kinds on one message commute: same message, same recorded payloads |
| Intents.InversesCommute | backend/src/outbox/intents.ts:64-123 | Inverses of different kinds commute with each other and with intents of another kind made since |
| Outbox.NextHit | backend/src/outbox/intents.ts:156-176 | The newer row found for a flag is the first surviving one that sets it, and there is none only if no later row does |
| Outbox.HandOversFrame | backend/src/outbox/intents.ts:156-184 | Handing previous values over changes no row's status, attempts, message, kind or wanted values |
| Outbox.InvertKeepsInv | backend/src/outbox/runner.ts:192-217 | Taking an intent back keeps what the rows and the running pass agree on |
| Outbox.StepKeepsInv | backend/src/outbox/runner.ts:102-419 | Every event keeps it: a row is `sending` exactly while a pass holds it, attempts stay within the limit, payloads record a previous value for every flag they set, and an owed inverse belongs to a canceled or dead row |
| Outbox.RunKeepsInv | backend/src/outbox/runner.ts:670-691 | So does every run |
| OutboxRunner.Mailbox.ApplyDelete | backend/src/outbox/intents.ts:53-61 | The in-place delete is the value-level one, and touches only that message |
| OutboxRunner.Mailbox.RevertDelete | backend/src/outbox/intents.ts:64-68 | The in-place inverse is the value-level one |
| OutboxRunner.Mailbox.ApplyMove | backend/src/outbox/intents.ts:78-101 | The in-place move is the value-level one |
| OutboxRunner.Mailbox.RevertMove | backend/src/outbox/intents.ts:104-123 | The in-place inverse of a move is the value-level one |
| OutboxRunner.Mailbox.ApplyFlags | backend/src/outbox/intents.ts:135-141 | The in-place flag change is the value-level one and returns the values it replaced |
| OutboxRunner.Mailbox.RevertFlags | backend/src/outbox/intents.ts:153-191 | The loop over the flags hands over and restores exactly what the specification says, also when it reports no change |
| OutboxRunner.Mailbox.EnqueueDelete | backend/src/outbox/runner.ts:102-129 | Local effect and row are one step; an unknown message changes nothing |
| OutboxRunner.Mailbox.EnqueueMove | backend/src/outbox/runner.ts:102-162 | The same for a move |
| OutboxRunner.Mailbox.EnqueueFlags | backend/src/outbox/runner.ts:168-178 | The same for a flag change |
| OutboxRunner.Mailbox.RevertIntent | backend/src/outbox/runner.ts:192-217 | The second transaction of a cancel or a death: the owed inverse, dispatched by kind, and nothing for a queued mail |
| OutboxRunner.Mailbox.FlipCanceled | backend/src/outbox/runner.ts:244-251 | The first transaction alone, after which a crash may come: a pending row is canceled and owes its inverse |
| OutboxRunner.Mailbox.CancelOutbox | backend/src/outbox/runner.ts:230-253 | A cancel wins only against a pending row, with the payload as it is now, and otherwise changes nothing; its inverse follows, or is lost if its own transaction does not commit |
| OutboxRunner.Mailbox.ClaimRow | backend/src/outbox/runner.ts:348-357 | Only a pending row is claimed, and its payload is remembered as read |
| OutboxRunner.Mailbox.MarkDone | backend/src/outbox/runner.ts:359-367 | A finished row is done and leaves the pass |
| OutboxRunner.Mailbox.FlipFailed | backend/src/outbox/runner.ts:382-397 | The first transaction alone: one more attempt, or the row is dead and owes its inverse |
| OutboxRunner.Mailbox.MarkFailed | backend/src/outbox/runner.ts:382-419 | A failed row goes back to pending with one more attempt, or dies; a dead one is then reverted with the payload read at claim time, or loses its inverse if that transaction does not commit |
| OutboxRunner.Mailbox.ResetInflight | backend/src/outbox/runner.ts:744-748 | A restart re-arms exactly the rows that were sending; an inverse owed at the crash is lost |
| FlagReplay.HandOversResult | backend/src/outbox/intents.ts:156-184 | Which previous value every row holds after an undo, including the one lost when two flags go to one row |
| FlagReplay.RestoredFlag | backend/src/outbox/intents.ts:159-190 | The message's flag after an undo: put back only if no newer row stands and the value is still the one set |
| FlagReplay.UndoneFlag | backend/src/outbox/intents.ts:153-191 | One flag across one undo: the local value and every waiting row's memory stay right if and only if the stated guard holds |
| FlagReplay.UndoExact | backend/src/outbox/runner.ts:230-253 | Undoing one row keeps every flag of every message equal to its replay if and only if the payload in hand loses nothing |
| FlagReplay.StepExact | backend/src/outbox/runner.ts:230-253 | Any event keeps undo-is-replay if and only if its guard, readable off the state before it, holds; while an inverse is owed, for the state it will leave |
| FlagReplay.LosingExact | backend/src/outbox/runner.ts:244-253 | An owed inverse that never comes leaves every flag right if and only if it would have changed nothing |
| FlagReplay.CutOffExact | backend/src/outbox/runner.ts:744-748 | A row closed and cut off before its inverse leaves every flag right if and only if, for each flag it set, a newer intent that landed owns it or the row had set what was there |
| FlagReplay.RunReplays | backend/src/outbox/runner.ts:670-691 | Over every run of guarded events each local flag is what the newest surviving intent set, or the original value |
| FlagReplay.NothingLeftRestoresAll | backend/src/outbox/intents.ts:135-191 | With no flags intent left standing every flag is back to its original value |
| FlagReplay.OneFlagRunsReplay | backend/src/outbox/intents.ts:135-191 | For intents that set one flag each this holds over all runs in which no inverse is lost and no row dies for which an older row of its message and flag was undone after its claim |
| FlagReplay.DroppedHandover | backend/src/outbox/intents.ts:156-184 | From an untouched message, two two-flag intents, older canceled first, leave the message read although nothing stands |
| FlagReplay.FreshReplays | backend/src/outbox/runner.ts:670-691 | Over an empty outbox every flag is its own replay, whatever the messages |
| FlagReplay.LostInverse | backend/src/outbox/runner.ts:244-253 | A cancel, then a crash before the inverse: the message stays read, nothing stands and nothing will try again |
| FlagReplay.ReadTwiceReached | backend/src/outbox/runner.ts:670-691 | The next run starts from a state reached from an empty outbox over an unread message, where every flag is its own replay |
| FlagReplay.StaleDeath | backend/src/outbox/runner.ts:382-408 | A run in which a row dies with a stale payload and the flag stays set although neither change reached the server |
| OutboxProtocol.ClosingKeepsHistory | backend/src/outbox/runner.ts:244-251 | Closing a row as canceled or dead keeps every row's recorded history, with its inverse owed |
| OutboxProtocol.SettleKeepsHistory | backend/src/outbox/runner.ts:192-217 | So does the inverse when it comes, and its loss when it does not |
| OutboxProtocol.RunKeepsHistory | backend/src/outbox/runner.ts:348-419 | Over every run, with a restart possible between any two transactions, a row is canceled at most once, its inverse is applied, still owed or lost, exactly one of them, if it was canceled or died, never otherwise, and it is not executed after its cancel |
| OutboxProtocol.InvertedExactly | backend/src/outbox/runner.ts:230-253 | The inverse is applied at most once, and once if and only if the row is a mailbox intent that was canceled or died and the second transaction came and committed |
| OutboxProtocol.ExecutionsBounded | backend/src/outbox/runner.ts:382-419 | At most five executions plus one per restart; five without a restart and not running means ended |
| OutboxProtocol.TerminalIsFinal | backend/src/outbox/runner.ts:348-367 | A row that is done, canceled or dead keeps its status, nothing is executed or canceled for it again, and no inverse but one already owed |
| OutboxLedger.StepMoves | backend/src/outbox/runner.ts:230-419 | For a row of any kind, the one thing its status and attempts may turn into at an event, by what the event did to it |
| OutboxLedger.FailedWaitsAgain | backend/src/outbox/runner.ts:382-397 | A failed send, delete, move or flag change below the cap is pending again with one attempt more and otherwise as it was, and no message is touched |
| OutboxLedger.RestartedWaitsAgain | backend/src/outbox/runner.ts:744-748 | A restart makes every running row of any kind pending and changes no row otherwise |
| OutboxLedger.StatusSays | backend/src/outbox/runner.ts:348-419 | Over every run and for every kind: done if and only if an execution succeeded, canceled if and only if a cancel won, dead if and only if five executions failed, sending if and only if the pass holds it; attempts count the failures |
| OutboxLedger.NothingUnbegun | backend/src/outbox/runner.ts:348-419 | Every success and every failure over a run is of an execution begun in it |
| OutboxUndo.CancelTakesBack | backend/src/outbox/runner.ts:230-253 | Canceling an intent over which nothing newer stands restores every message as it was before it |
| OutboxUndo.NewestFirstRestores | backend/src/outbox/intents.ts:53-191 | Any stack of intents over any messages, canceled newest first, restores mappings with UIDs, tombstones and flags exactly |
| Placement.MappedIsMapped | backend/src/db/placement.ts:47-65 | The picked copy is that of the first ranked folder that has one, with its UID, and none is picked only if no ranked folder has one |
| Placement.LocalExactly | backend/src/outbox/runner.ts:541-542 | A flag change stays local if and only if the message is detached |
| Placement.NeverAWrongCopy | backend/src/outbox/runner.ts:541-566 | Over every run in which no move of the message lands, its flag changes are sent to a copy it has, or nowhere |
| Placement.CopyFoundExact | backend/src/outbox/runner.ts:541-566 | Over a stack of intents on a message with one copy, that copy is found unless an empty move was queued before the first one that took it |
| Placement.CancelsRestorePlacement | backend/src/outbox/runner.ts:541-566 | Canceling the newest intents sends flag changes where they went before those were made |
| Placement.EmptyMoveHidesTheCopy | backend/src/outbox/runner.ts:541-566 | A run of two moves after which a flag change finds no copy although the message has one |
| Placement.OldestFirstExact | backend/src/outbox/intents.ts:78-123 | Two moves of one message undone oldest first bring it back if and only if the second did not go into the folder the first had left and did not take on the placeholder the first had added |
| Placement.OldestFirstLosesTheCopy | backend/src/outbox/intents.ts:104-123 | Two moves, out and back, undone oldest first, leave the message mapped without UID to the wrong folder |
| FlagBatch.CollectFinals | backend/src/outbox/runner.ts:574-615 | The nested maps hold, per message and flag, the last row's value and every row that touched it |
| FlagBatch.GroupFinals | backend/src/outbox/runner.ts:615-632 | Each STORE's UIDs and rows are exactly those of the final values that ask for it |
| FlagBatch.OneByOneValue | backend/src/outbox/runner.ts:574-656 | Sent one by one, the last row that writes a cell decides it |
| FlagBatch.OneRowSent | backend/src/outbox/runner.ts:586-602 | One row sends, for every flag it names and only for those, the value it names to its message's copy; without a copy or a readable payload it sends nothing |
| FlagBatch.FinalIsLast | backend/src/outbox/runner.ts:574-615 | A final value is the last value of its cell |
| FlagBatch.GroupsCoverTheirCells | backend/src/outbox/runner.ts:615-656 | No two STOREs of a batch write one cell, so their order does not matter |
| FlagBatch.FailedIff | backend/src/outbox/runner.ts:632-656 | A row is marked failed if and only if it contributed to a failed STORE, even if a later row's value was sent |
| FlagBatch.FailsExactly | backend/src/outbox/runner.ts:632-656 | A row fails if and only if the STORE with the last value for one of its flags fails; one that sends nothing does not |
| FlagBatch.ExecuteFlags | backend/src/outbox/runner.ts:574-656 | The whole batch: each cell as if the rows had been sent one by one where its STORE was answered, untouched elsewhere, and exactly the contributing rows failed |
| MailStore.Mailbox.FindExistingId | backend/src/imap/store.ts:51-72 | The stored row by provider id, else by Message-ID, first match |
| MailStore.Mailbox.ResolveThreadId | backend/src/imap/store.ts:79-94 | The thread as the specification resolves it |
| MailStore.Mailbox.MergeOrphanReplies | backend/src/imap/store.ts:100-129 | One update per stale thread amounts to re-pointing all of them at once |
| MailStore.Mailbox.TouchKnownMessage | backend/src/imap/store.ts:149-181 | A re-sight in place is the specified one |
| MailStore.Mailbox.UpsertMessage | backend/src/imap/store.ts:189-257 | An arrival in place is the specified one; `inserted` exactly if no row was known |
| MailStore.Mailbox.UnlinkUids | backend/src/imap/store.ts:487-526 | Dropping mappings and tombstoning orphans one by one amounts to the specified step |
| MailStore.Mailbox.ReconcileExpunges | backend/src/imap/resync.ts:84-92 | The pass is the specified reconcile and reports the mappings it dropped |
| MailStore.Mailbox.ClearFolderUids | backend/src/imap/store.ts:533-537 | No UID of the folder is left to reconcile; mappings in other folders and of detached messages stay as they are, and none is new |
| MailStore.Mailbox.RelinkMessageToFolder | backend/src/imap/store.ts:316-327 | The message is mapped to the destination only, with the given UID, and every other message's mappings are as before |
| MailStore.Mailbox.PurgeRows | backend/src/cleanup/purge.ts:96-118 | Purging in chunks purges exactly the given rows, each tombstoned |
| Reconcile.ArrivalLands | backend/src/imap/store.ts:189-257 | A message not known before becomes one live row with the envelope's ids and flags, mapped to its folder with its UID; no other row changes but in its thread, and no other mapping |
| Reconcile.ArrivalReconcilable | backend/src/imap/store.ts:237-237 | Its folder has exactly that UID more to reconcile, and no other folder has any |
| Reconcile.ArrivalThenReconcile | backend/src/imap/store.ts:487-526 | A pass against a listing with the UID leaves it live and mapped, one without tombstones it and drops the mapping |
| Reconcile.SightingLands | backend/src/imap/store.ts:149-181 | A known message seen again is mapped with its current UID and flags, live again if and only if outside Trash and not purged; a detached one is left alone |
| Reconcile.PurgeLeaves | backend/src/cleanup/purge.ts:96-118 | A purge tombstones and purges exactly the given rows, and changes nothing else |
| Threads.FoundExactly | backend/src/imap/store.ts:51-72 | A row is known by its provider id first, else by its Message-ID; empty ids identify nothing |
| Threads.ThreadResolved | backend/src/imap/store.ts:79-94 | The provider's thread, else that of a stored row the headers name, else one named by the own Message-ID, else a random one |
| Threads.ArrivalExact | backend/src/imap/store.ts:79-129 | A new message keeps threads and components the same if and only if no stored row is named as ancestor, or the first that is shares its thread with the stored parent, up to threads of its own stored replies, or with no parent stored is among those |
| Threads.ThreadsAreComponents | backend/src/imap/store.ts:79-129 | For any References headers, threads are the components of the reply graph after every arrival if and only if every arrival fits its replies |
| Threads.ParentOnlyFits | backend/src/imap/store.ts:79-94 | Mail whose References names at most its parent always fits, in any order |
| Threads.OrderDoesNotMatter | backend/src/imap/store.ts:79-129 | Two orders of the same arrivals, each fitting its replies, agree on every pair of messages with a Message-ID |
| Threads.AllStored | backend/src/imap/store.ts:51-72 | With distinct Message-IDs every arrival gets its own row |
| Threads.TwiceExact | backend/src/imap/store.ts:51-72 | The same mail arriving twice without provider id is one row if and only if its Message-ID is present and not empty |
| Threads.EmptyIdsShareAThread | backend/src/imap/store.ts:51-94 | A message with an empty Message-ID and no stored ancestor gets a new row, in the one thread named by the empty string |
| Threads.LongReferencesDependOnOrder | backend/src/imap/store.ts:79-129 | A grandparent named only in References is joined or not depending on the order of arrival |
| Reconcile.ReconcileConverges | backend/src/imap/resync.ts:84-92 | After a pass the folder's tracked UIDs are live ones, and a second pass reports nothing and changes nothing |
| Reconcile.ReconcileTouchesOnlyTheGone | backend/src/imap/store.ts:468-526 | A mapping is dropped if and only if it is tracked, of this folder and has a UID that is gone; a message is tombstoned if and only if it lost its last mapping; detached mail is frozen |
| Reconcile.ClearFolderLeaves | backend/src/imap/store.ts:533-537 | After clearing, a pass against any listing changes nothing, so nothing is tombstoned for an old UID; other folders reconcile as before, detached mail is frozen, clearing twice is clearing once |
| Reconcile.RelinkLeaves | backend/src/imap/store.ts:316-327 | The last of two relinks decides, and one back undoes one away if and only if the message was in that one folder with that UID |
| Reconcile.StepsKeepCoherent | backend/src/db/visibility.ts:14-17 | Arrival, unlink, clearing a folder and purging keep "purged implies tombstoned" |
| Reconcile.ClearTombstoneExact | backend/src/outbox/intents.ts:64-68 | Lifting a tombstone unconditionally keeps it if and only if the message is not purged |
| Reconcile.OrderExact | backend/src/imap/store.ts:149-181 | Reconciling source or destination first gives the same store if and only if the destination is not Trash, or the message was tombstoned or is mapped elsewhere too |
| Reconcile.MovedEndsLive | backend/src/imap/store.ts:487-526 | Moved between two folders that are not Trash, a message ends live and mapped to the destination only, in either order |
| UidSync.FetchAndStore | backend/src/imap/sync.ts:251-320 | If no FETCH and no write failed, every given UID still on the server is stored, with or without its body; only messages a FETCH delivered are |
| UidSync.FetchWindow | backend/src/imap/sync.ts:360-380 | Cut off between any two batches, nothing in the window lies unstored below the boundary, which is at the last UID worked off with at most one batch asked for beyond it; it is cut off only by a failed FETCH or write |
| UidSync.FullSync | backend/src/imap/sync.ts:337-380 | The same for the whole first pass; finished, every in-window message present throughout is stored. If its SEARCH is refused the pass ends with the boundary at UIDNEXT, and skips nothing if and only if all of the window below was stored already |
| UidSync.RefusedSearchLosesMail | backend/src/imap/sync.ts:347-378 | A refused SEARCH over one message: it is below the boundary and not stored |
| UidSync.Incremental | backend/src/imap/resync.ts:122-158 | An incremental pass that fails anywhere skips nothing and leaves the boundary; finished, everything in the window present throughout is stored and the boundary is past all that was there; a body that cannot be downloaded stops nothing |
| UidSync.ResyncFolder | backend/src/imap/resync.ts:98-163 | Unless its SEARCH is refused either pass keeps the bookkeeping safe and, if no fetch or write failed, has stored every message of the window that was there and still is; if refused, exactly when it is safe |
| UidSync.AnyPasses | backend/src/imap/resync.ts:98-163 | Any number of passes with mail coming and going: unless the run's one SEARCH is refused, every message of the window is stored or at or above the boundary, which never exceeds UIDNEXT; only delivered messages are stored; and after a pass no failed fetch or write cuts off everything there all along is |
| Sweep.SweepBatch | backend/src/imap/sync.ts:450-500 | In a batch stopped for budget, exactly the UIDs from the top down to the lowest done had their turn; before every download the budget is asked and said yes, and it stops at the first no; a UID is given up only for a failed download or write of its own |
| Sweep.SweepFolderSource | backend/src/imap/sync.ts:415-546 | At every exit each message from the watermark up to where the sweep began had its turn; `done` means down to the bottom; no more UIDs are given up than downloads and writes failed. If the SEARCH is refused the pass reports `done` with the watermark at 1, rightly if and only if everything below had had its turn; a pass that did anything leaves its watermark below where it began |
| Sweep.BudgetStops | backend/src/imap/sync.ts:415-487 | With a budget that comes to say no, a pass downloads, archives and gives up at most as often as it says yes before that, reports it exhausted if and only if it asked once more, and gets to the bottom only if no more messages were left |
| Sweep.RefusedSearchIsDone | backend/src/imap/sync.ts:438-444 | A refused SEARCH over one message: reported done, and nothing archived |
| Sweep.AnyPasses | backend/src/imap/sync.ts:415-546 | The same over any number of resumed passes with mail coming and going in between, unless a SEARCH is refused: no more downloads than the budgets say yes before they say no; done once a pass meets neither failure nor exhausted budget, and if nothing failed every message there all along is archived |
| Budget.SpendBounded | backend/src/imap/budget.ts:38-83 | On every interleaving the recorded spend of a day is at most budget − 1 + k·M, also across a day roll |
| Budget.BoundReached | backend/src/imap/budget.ts:67-83 | The bound is reached, for every budget, k and M |
| Budget.GreedyIsLegal | backend/src/imap/budget.ts:67-83 | The run that reaches it keeps to the message size and to a forward clock |
| Budget.ClockSetBack | backend/src/imap/budget.ts:33-56 | For every budget, k, M and later day a run that sets the clock back spends budget − 1 + 2·k·M in a day |
| Budget.Ledger.ReadState | backend/src/imap/budget.ts:38-56 | The stored counter read for today: zero if absent, negative or of another day |
| Budget.Ledger.CanDownloadSource | backend/src/imap/budget.ts:72-74 | A download may start if and only if the spend is below the limit |
| Budget.Ledger.RecordDownloadedBytes | backend/src/imap/budget.ts:77-83 | The read-modify-write adds the bytes to today's total and starts a new day at zero |
| Billing.BillingExportPage | backend/src/pipeline/billing-export.ts:72-163 | A page is the settled listed rows past the cursor, lowest keys first, up to the limit; the cursor moves past unreadable rows; `hasMore` is exact |
| Billing.PageRows | backend/src/pipeline/billing-export.ts:77-116 | A page holds settled listed rows past the cursor only, and all of them up to its last |
| Billing.ItemsExactly | backend/src/pipeline/billing-export.ts:133-163 | The items are exactly the readable rows of the page, in order |
| Billing.FollowingLosesNothing | backend/src/pipeline/billing-export.ts:23-29 | Over all interleavings with prompt commits the cursor never moves back, nothing listed is left behind it, and each row version is scanned once, in key order |
| Billing.DrainedHasEverything | backend/src/pipeline/billing-export.ts:72-163 | A page without more means every settled listed row was scanned |
| Billing.MoreMeansProgress | backend/src/pipeline/billing-export.ts:72-163 | A page with more is full and leaves strictly fewer candidates |
| Billing.BehindStaysBehind | backend/src/pipeline/billing-export.ts:72-163 | What lies behind the cursor unscanned is never scanned |
| Billing.LateCommitIsLost | backend/src/pipeline/runner.ts:75-99 | For every lag that reaches the window there is a run in which the late row is behind the cursor |
| Duplicates.Groups.Find | backend/src/contacts/duplicates.ts:57-68 | Find terminates and returns the root; path compression changes no element's root |
| Duplicates.Groups.Union | backend/src/contacts/duplicates.ts:70-74 | Exactly the elements with the second root get the first |
| Duplicates.LinkedExactly | backend/src/contacts/duplicates.ts:84-104 | Two cards are linked if and only if two of their addresses, not blank, or their names, not blank, fold alike |
| Duplicates.LinkAll | backend/src/contacts/duplicates.ts:84-104 | After linking, two cards have one root if and only if sharing connects them |
| Duplicates.CollectMembers | backend/src/contacts/duplicates.ts:106-112 | The lists collected per root are the classes |
| Duplicates.FindDuplicateGroups | backend/src/contacts/duplicates.ts:81-151 | The groups are exactly the classes of size two or more of the closure of "shares an address or a non-empty name", disjoint |
| Rules.LikeSuffix | backend/src/rules/apply.ts:135-140 | A LIKE pattern of `%` and a plain text is a suffix test |
| Rules.SenderExactly | backend/src/rules/match.ts:60-63 | A sender rule matches its own address, folded and trimmed, and no other |
| Rules.DomainExactly | backend/src/rules/match.ts:60-66 | A domain rule matches exactly the addresses at the domain and at its subdomains |
| Rules.SqlAccepts | backend/src/rules/apply.ts:135-140 | SQL takes exactly what the matcher takes and both read alike - the folds of the whole address agree, or its last characters are ASCII and untrimmed - and addresses without `@` that end in the dotted value |
| Rules.TwinExact | backend/src/rules/match.ts:54-66 | The SQL predicate and the matcher agree on an address if and only if the matcher takes none the two read differently, and the rule is not a domain rule whose dotted value ends an address without `@` |
| Rules.ProtectionFollowsMatcher | backend/src/cleanup/safety.ts:63-73 | For an address with an `@` protection follows the matcher if and only if, should a protect rule in scope match, one that matches reads the address alike; for trimmed ASCII addresses it always does |
| Rules.OthersDoNotProtect | backend/src/cleanup/safety.ts:63-73 | A rule that is disabled, does not protect or is another account's may as well not be there |
| Rules.LatinFoldsAllLetters | backend/src/rules/match.ts:60-66 | A lower-casing with the Latin-1 capitals and the Kelvin sign has the properties assumed of the matcher's |
| Rules.AccentedSenderIsMissed | backend/src/cleanup/safety.ts:63-73 | A sender rule beginning with an accented letter matches the capitalised address for the matcher and not for SQL |
| Rules.KelvinDomainIsMissed | backend/src/cleanup/safety.ts:63-73 | A domain rule with a k matches an address spelled with the Kelvin sign for the matcher and not for SQL |
| Rules.EqualLengthMeansEqualValue | backend/src/rules/match.ts:60-74 | Two rules of one kind that match an address and are equally long have the same value |
| Rules.MatchingRulesAreOrdered | backend/src/rules/match.ts:69-74 | Specificity strictly orders any two matching rules; creation time never decides |
| Rules.OrderDoesNotMatter | backend/src/rules/match.ts:80-91 | The resolution is the same for every listing of the same rules |
| Rules.ResolvedWhenHit | backend/src/rules/match.ts:80-91 | There is a resolution if and only if an acting rule matches, and it lists exactly those |
| Rules.FlagsAreJoined | backend/src/rules/match.ts:80-91 | Read and star are set if and only if some acting match asks |
| Rules.ResolutionExactly | backend/src/rules/match.ts:80-91 | There is a resolution if and only if some matching rule moves, marks read or stars, and it moves, marks read or stars if and only if one of them does |
| Rules.MoveFromMostSpecific | backend/src/rules/match.ts:80-91 | The move is that of a matching rule with a move that no other outranks: sender, then deepest domain, then own account |
| Mime.ExtractStructure | backend/src/imap/parse.ts:75-138 | The recursion lists the selected leaves in document order, numbered from zero |
| Mime.EnumerateSourceParts | backend/src/imap/source-extract.ts:161-173 | The node stream lists the selected nodes, numbered from zero |
| Mime.StructureLists | backend/src/imap/parse.ts:100-133 | Of the leaves of the structure exactly these are listed: with disposition attachment; with a filename unless inline with a Content-ID; inline with a Content-ID and no text; each with the next ordinal, its Content-ID, filename and type |
| Mime.RawLists | backend/src/imap/source-extract.ts:110-129 | The same for the nodes of the raw message, where containers and opened messages are never listed |
| Mime.TypeRarelyMatters | backend/src/imap/parse.ts:54-59 | The type decides only between parts that are inline with a Content-ID |
| Mime.OpenedExactly | backend/src/imap/parse.ts:69-72 | An embedded message is opened if and only if its encoding is none, 7bit, 8bit or binary |
| Mime.ChildrenInOrder | backend/src/imap/parse.ts:103-106 | The parts of a multipart contribute their leaves in order |
| Mime.BareExact | backend/src/imap/parse.ts:111-111 | A Content-ID is told without the brackets around it |
| Mime.StreamNumbersLeaves | backend/src/imap/source-extract.ts:95-129 | The raw message's nodes are numbered as the leaves are that the raw walk comes to, as it sees them |
| Mime.DivergesExact | backend/src/imap/source-extract.ts:72-108 | What each walk makes of absent types, empty Content-ID fields, forced dispositions and digests changes the classifier's answer exactly for the stated leaves |
| Mime.WalksAgreeExact | backend/src/imap/source-extract.ts:95-129 | On every well-formed tree the two walks agree on every leaf's selection and ordinal if and only if no leaf is of the diverging kind; then they list the same parts, but for the spelling of an absent type |
| Mime.ExtractPart | backend/src/imap/source-extract.ts:182-233 | The streamed extraction returns the first part that matches the target, or nothing if none does |
| Mime.FetchRow | backend/src/imap/source-extract.ts:182-233 | Where the walks agree, an attachment row finds its own part by ordinal, or the first part with its Content-ID |
| Mime.EncodedAttachmentShifts | backend/src/imap/source-extract.ts:95-108 | A message where the document is number 1 in the structure and number 0 in the raw walk |
| Mime.EmptyContentIdShifts | backend/src/imap/source-extract.ts:72-80 | An inline picture with an empty Content-ID field is one part for the raw walk and none for the structure |
| Mime.UntypedPartShifts | backend/src/imap/source-extract.ts:72-80 | An inline part with a Content-ID and no Content-Type is one part for the raw walk and none for the structure |
| Mime.DigestHides | backend/src/imap/source-extract.ts:95-108 | A digest of one untyped message with an attachment has one part for the structure and none for the raw walk |
| Folding.Fold | backend/src/calendar/vevent.ts:84-107 | The loop cuts the line greedily: every piece within its limit, none that could have taken one more character |
| Folding.CutIsUnique | backend/src/calendar/vevent.ts:84-107 | There is only one such cut, so the fold is fully determined |
| Folding.FoldIsLossless | backend/src/calendar/vevent.ts:84-107 | For every line without line breaks each physical line has at most 75 octets and unfolding returns the line |
| Folding.DocumentUnfolds | backend/src/calendar/vevent.ts:156-156 | The same for a whole document of folded lines |
| Folding.EscapeIsCharacterwise | backend/src/calendar/vevent.ts:72-78 | The four chained replacements are one character-wise escape of the text with normalised line breaks |
| Folding.EscapeForms | backend/src/calendar/vevent.ts:72-78 | Which characters are escaped, and how |
| Folding.UnescapeEscaped | backend/src/pipeline/enrichers/ics.ts:117-129 | The decoder of section 3.3.11 of RFC 5545 gives the text back, line breaks normalised |
| Folding.UnfoldDocument | backend/src/pipeline/enrichers/ics.ts:57-68 | The reader's loop is the specified unfolding |
| Folding.BreaksDivide | backend/src/pipeline/enrichers/ics.ts:57-58 | CRLF, LF and CR each end a line |
| Folding.ContinuationJoined | backend/src/pipeline/enrichers/ics.ts:60-66 | A line continued with a space or a tab is read as one line |
| Folding.UnescapeForms | backend/src/pipeline/enrichers/ics.ts:117-129 | What every escape of a text value stands for |
| Calendar.FourDigitYears | backend/src/calendar/vevent.ts:38-43 | A year takes exactly four digits if and only if it lies between 1000 and 9999 |
| Calendar.DateReadsBack | backend/src/calendar/vevent.ts:49-69 | Dates read back as they were, floating times with seconds, zoned times in UTC; all-day exactly for dates |
| Calendar.LinesReadBack | backend/src/pipeline/enrichers/ics.ts:180-240 | The property lines read back as one event, field by field |
| Calendar.BuildCalendar | backend/src/calendar/vevent.ts:119-157 | An error exactly without a readable start; otherwise no line over 75 octets, and the mailbox's own reader finds exactly the one event |
| Calendar.HeadersPresent | backend/src/calendar/vevent.ts:137-157 | The document has the headers of a version 2.0 calendar with one stamped event, in order |
| Calendar.UrlExactly | backend/src/calendar/vevent.ts:119-157 | It has a URL line if and only if its source is a web address |
| Calendar.ParseCalendar | backend/src/pipeline/enrichers/ics.ts:180-240 | The reader's loop is the specified fold over the unfolded lines |
| Calendar.ComponentSkipped | backend/src/pipeline/enrichers/ics.ts:180-240 | A component inside or outside an event leaves no trace in the events |
| Calendar.EventsKept | backend/src/pipeline/enrichers/ics.ts:180-240 | No line takes an event back, and one ends at most one |
| Calendar.BareDate | backend/src/pipeline/enrichers/ics.ts:132-145 | Eight digits are a date also without a parameter |
| Calendar.UidKeptExact | backend/src/calendar/vevent.ts:145-145 | An event keeps its UID if and only if the UID is trimmed and has no character the writer escapes |
| CardText.UnfoldJoined | backend/src/contacts/vcard.ts:60-67 | Unfolding what the writer joined gives its lines back, trimmed, without empty ones |
| CardText.FoldIsJoined | backend/src/contacts/vcard.ts:60-67 | A line broken anywhere and continued with a space or a tab is joined again |
| CardText.PassedForms | backend/src/contacts/vcard.ts:177-182 | What every single escape reads as |
| CardText.EscapeValueIsCharacterwise | backend/src/contacts/vcard.ts:114-116 | The chained escapes are one character-wise escape |
| CardText.EscapeForms | backend/src/contacts/vcard.ts:114-116 | Which characters are escaped, and how |
| CardText.PassedEscape | backend/src/contacts/vcard.ts:177-182 | What the reader's passes make of an escaped value: the value with every `n` after a backslash turned into a line feed |
| CardText.TextRoundTripExact | backend/src/contacts/vcard.ts:177-182 | A value survives escaping and unescaping, up to surrounding space, if and only if no backslash stands before an `n` |
| CardRoundTrip.OrgRoundTripExact | backend/src/contacts/vcard.ts:270-273 | The company survives if and only if it is clean and holds no semicolon |
| CardRoundTrip.AddressExact | backend/src/contacts/vcard.ts:292-308 | An address survives field by field if and only if every field is clean and holds no semicolon |
| CardRoundTrip.CategoriesExact | backend/src/contacts/vcard.ts:313-316 | Categories survive if and only if each is clean and holds no comma |
| CardRoundTrip.GroupDropped | backend/src/contacts/vcard.ts:185-191 | A group in front of a property changes nothing |
| CardRoundTrip.ParameterKinds | backend/src/contacts/vcard.ts:194-205 | A bare parameter is a type, TYPE in any case lists some, other parameters give none |
| CardRoundTrip.LabelIsFirst | backend/src/contacts/vcard.ts:210-215 | The label is the first type that is neither empty nor noise |
| Cards.ParseCardDetail | backend/src/contacts/vcard.ts:232-326 | The loop is the specified fold over the unfolded lines |
| Cards.FoldedIsTheCard | backend/src/contacts/vcard.ts:60-67 | A card folded anywhere parses as the card, and merges as it unless the fold hides the words the merge looks for |
| Cards.BeginFound | backend/src/contacts/vcard.ts:461-461 | Those words are found anywhere and in any case |
| Cards.ManagedLines | backend/src/contacts/vcard.ts:388-435 | The printer's loops give the specified lines |
| Cards.BuildVCard | backend/src/contacts/vcard.ts:441-452 | The printed card is the specified document |
| Cards.MergeVCard | backend/src/contacts/vcard.ts:460-490 | The loop with its `inserted` flag puts the block in place of the first rewritten line, or last, and keeps every other line |
| Cards.KeptAround | backend/src/contacts/vcard.ts:469-487 | The kept lines before and after the block are all kept lines, in order |
| CardSurvives.NameSpelledExact | backend/src/contacts/vcard.ts:389-396 | The structured name spells the name, its runs of space closed up to one, if and only if no backslash in it stands before an `n` and it holds no semicolon |
| CardSurvives.NamePrinted | backend/src/contacts/vcard.ts:389-396 | A name of two words is printed family name first |
| CardSurvives.NameComponents | backend/src/contacts/vcard.ts:256-262 | A structured name is read given name first, from its second component and its first |
| CardSurvives.AddressComponents | backend/src/contacts/vcard.ts:292-308 | An address is read from its third component on: street, town, region, postal code, country |
| CardFields.KindExact | backend/src/contacts/vcard.ts:207-215 | A printed label reads back in small letters with a capital if and only if it holds no colon, semicolon, comma, backslash or line feed, its capitals lower to itself up to the first letter's case, and those are not voice, pref, x-pref or internet |
| CardFields.NoiseLabelIsLost | backend/src/contacts/vcard.ts:207-215 | A label such as Voice is printed and comes back as none |
| CardFields.SharpSIsLost | backend/src/contacts/vcard.ts:410-413 | Every label with one sharp s among ASCII letters comes back with two plain ones |
| Casing.GermanIsProper | backend/src/contacts/vcard.ts:407-421 | A case mapping with the sharp s has the properties assumed of capitals and small letters |
| CardFields.AddressesExact | backend/src/contacts/vcard.ts:418-432 | The printed addresses read back if each one's fields and label survive; and only if, unless one is spaces alone |
| CardFields.CardExact | backend/src/contacts/vcard.ts:232-326 | Field by field the card reads back as edited if it fits; and only if, unless an address is spaces alone |
| CardSurvives.BlockRead | backend/src/contacts/vcard.ts:388-435 | Reading the printed block gives each field as it parses alone, for every card |
| CardSurvives.ManagedOwned | backend/src/contacts/vcard.ts:372-435 | Whatever a card holds, every printed line is one a later edit rewrites |
| CardSurvives.BuildSurvivesExact | backend/src/contacts/vcard.ts:441-452 | A printed card parses to its edited fields if it fits, and only if unless an address is spaces alone; and to its identity if and only if no backslash in it stands before an `n` |
| CardSurvives.MergeSurvivesExact | backend/src/contacts/vcard.ts:460-490 | A merged card parses to the edited fields if they fit, and only if unless an address is spaces alone; and always to the identity it had |
| CardSurvives.MergedIntoNothing | backend/src/contacts/vcard.ts:460-461 | Where there is no card to merge into, the merge prints one from scratch, which reads back if it fits |
| CardSurvives.MergeKeepsLines | backend/src/contacts/vcard.ts:460-490 | A merge keeps every line it does not rewrite once and in order, around one block, and nothing else is in the document |
| CardSurvives.LastMergeWins | backend/src/contacts/vcard.ts:460-490 | Of two merges the last decides, the first leaves no trace; so repeating a merge changes nothing |

## Left out

- FlagReplay.OneFlagRunsReplay: runs that lose an inverse, or in which a stale row dies, are decided step by step by `FlagReplay.StepExact`.
- OutboxProtocol.ExecutionsBounded: one event is the start of a server action, so a row whose action never ends counts as running.
- Placement.NeverAWrongCopy: the server side of a landed move and the relink after it are outside the model, so the run lands no move. A second stacked move then has recorded no UID and is marked done without reaching the server (outbox/runner.ts:494-528).
- FlagBatch.ExecuteFlags: a row's placement is given; whether a STORE is answered depends only on the STORE. Last-toggle-wins on the server across retries is not claimed, a failed older STORE can land after a newer one.
- Threads.OrderDoesNotMatter: only for pairs of messages that have a Message-ID; a message without one is stored anew on every arrival. Provider thread ids override the reply graph and are left out of it.
- Reconcile.StepsKeepCoherent: the trash queue and the detach job are not modelled.
- UidSync.AnyPasses: UIDVALIDITY does not change during the runs. The cache window is a property of the message. The flag pass before an incremental fetch, the byte budget of the live path's source and a failing write of the boundary itself, which ends the pass before it moves, are left out. A FETCH that fails is an exception; one that is answered lists every message asked for that is still there.
- Sweep.AnyPasses: a message whose source could not be fetched or stored in its turn counts as given up, as in the code. The second look at the budget inside a capture (imap/sync.ts:207) and the row that appears between the look-up and the insert (imap/sync.ts:506-510) also give a UID up, and are left out.
- Sweep.SweepBatch: leaves out the same two ways of giving a UID up.
- Budget.SpendBounded: only downloads that record; the clock must not go back.
- Duplicates.FindDuplicateGroups: the shared addresses and name listed with a group and the display order are left out; any folding of names and addresses will do.
- Rules.OrderDoesNotMatter: for one rule per account, kind and value, as the table's uniqueness guarantees. The validation of values when a rule is saved is a hypothesis of the SQL results, not modelled.
- Threads.ArrivalExact: the look-up of an ancestor names no order (imap/store.ts:86-90); it is taken as the order of insertion, which matters for References that name several stored rows of different threads. The same holds for `Threads.ThreadsAreComponents`.
- Rules.TwinExact: the matcher's lower-casing is any function with the properties in `FoldsAllLetters`; the full Unicode tables are not part of this model.
- Mime.ExtractStructure: a part's own headers are given; header decoding, a Content-Type that is there and cannot be read, the two parsers' choice of a filename parameter and the tokeniser of the raw message are not modelled.
- Calendar.BuildCalendar: organizer and METHOD are not written and not read here; reading a zoned string as an instant is a parameter.
- CardSurvives.BuildSurvivesExact: that only a fitting card reads back is stated for cards without an address made of spaces alone; such an address is printed, and whether it is read depends on its label. The same holds for `CardSurvives.MergeSurvivesExact`.
- Cards.MergeVCard: the photo is left as it is; setting and clearing it, and the XML around cards, are not modelled.
- CardFields.KindExact: capitals and small letters are any mappings with the properties in `Casing.Proper`; the Unicode tables are not part of this model.
- Property names in calendars: put into capitals for ASCII letters only.
- Text is a sequence of Unicode scalar values; unpaired surrogates are not modelled.
- Due times, backoff, the batch limit and the order of claims: the events of a run choose which row is claimed when. The drain loop, its timer and the pruning of finished rows are left out.
- Payload text: intents are values, so malformed JSON is only present as an absent payload.
- Gmail labels and provider thread ids beyond their precedence in a thread's resolution; snippets, full-text search, attachments' bytes, push, HTTP and UI.
- Sending and drafts: `send` is a row with no local effect and no inverse.
