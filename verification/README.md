# Atomis, verified

A model in Dafny of the parts of Atomis whose correctness rests on
interleavings, on how a pipe happens to cut a stream, or on text being edited
in place: the run scheduler, shared-workspace editing over the document store,
the streaming decoders, the instrumenters, and two self-contained cores of the
demo programs. `dafny verify dfyconfig.toml` checks all of it.

Rust strings are byte strings here (`Bytes`); every delimiter the code looks
for is ASCII, so byte offsets mean the same. Where the code changes an object
in place there is a class whose methods are proved equal to functions of the
old state; the theorems are about those functions and about whole runs of them.

## What is in it

**Run scheduler.** `Scheduler.dfy` is a step machine. Each task of the program
(message loop, debounce task, `start_run`, run task, event forwarder, panic
watchdog) has a program counter; each lock region, channel operation and send
is one step; grace expiry, cancel, the end of a runner and its panic can
happen whenever the code allows them. `SchedulerInvariant.dfy` proves what every
step keeps, `SchedulerTheorems.dfy` what follows for every execution,
`SchedulerStop.dfy` decides when a run can still become active after Stop,
`SchedulerEvents.dfy` when an event, a result, a reset or a crash does and does not
reach the client, `SchedulerRequests.dfy` what each run was asked for and which
checks its start has passed, and
`SchedulerWitness.dfy` shows with concrete executions that the bounds are exact
and the stated exceptions real. `SchedulerCell.dfy` is the `Inner` record, one
method per lock region. One scheduler object is modelled; run ids are distinct.

**Shared editing.** `Collab.dfy` is the revision and writer bookkeeping with a
ghost log of accepted writes. `Paths.dfy`, `Listing.dfy`, `Store.dfy` and
`SessionStore.dfy` are the document store over the disk it mirrors, a map from
path to text that no other process writes; `StoreVerdicts.dfy` says exactly when
each edit is accepted, why not otherwise, and what the files are then.
`EditLock.dfy` puts both together: any number of sessions of one workspace
handling messages under its lock, each with a forwarder that refreshes it when a
peer has changed the files. `EditLockTurns.dfy` is one turn under the lock as a
whole.

**Streaming decoders.** Each has a reference that reads the whole stream at
once, and a proof that every chunking agrees with it, or of exactly which
streams that is true: `Markers.dfy`,
`MarkerScan.dfy`, `MarkerParser.dfy`, `MarkerFollows.dfy`, `MarkerHoldback.dfy`,
`MarkerTheorems.dfy`, `MarkerCuts.dfy`, `MarkerMachine.dfy` (source markers in program output),
`Utf8.dfy` and `Utf8Cuts.dfy` (section 4 of RFC 3629), `Ndjson.dfy` (probe and
test events), `Lsp.dfy` and `LspCuts.dfy` (LSP 3.17, section "Base Protocol").
What parser and reference share has laws of its own: `MarkerBody.dfy` which
bytes are which marker, `MarkerPlaces.dfy` and `MarkerCategories.dfy` what a line
is then located and shown as, `Unicode.dfy` which bytes are which characters,
`WhiteSpace.dfy` and `WhiteSpaceLaws.dfy` what is trimmed, `NdjsonLaws.dfy` what a text of lines
means, `LspHeaders.dfy` what a header says.

**Instrumenters.** `Instrumenter.dfy` is the Rust walk with its loop stack,
barriers and depth counters, and what it comes to construct by construct.
`InstrumenterScopes.dfy` proves that the emitted shadows are in scope exactly in
the programs that meet a condition on the program text;
`InstrumenterCaptures.dfy` that each is bound once and only if used, and which
programs get insertions in const context; `InstrumenterCollector.dfy` is the
visitor that updates its fields in place. `Splice.dfy` (Rust and Go) and
`SplicePython.dfy` prove that all three splicers insert everything at its
original offset; `SpliceLaws.dfy` says what they take for a boundary and a line.

**Demo cores.** `JsonText.dfy`, `Json.dfy`, `JsonTodo.dfy`, `CJson.dfy` and `JsonEscapes.dfy`:
the JSON string writers and the readers of the Rust and C REST demos (RFC 8259),
including reading each other's output. `JsonGrammar.dfy` says which texts denote
which values and proves the Rust parser to be exactly their reader,
`CJsonGrammar.dfy` the same of the C string reader and value skipper;
`JsonPrinting.dfy` prints whole values and reads them back. The floating-point
parser of the library is a parameter that is only taken to refuse the empty
text. `Redis.dfy`: the log-replayed store; `RedisLaws.dfy`: what its commands
promise each other, told by their replies.

## Where the code and its description part

- **Entry files and newlines.** The literal appended to an entry file has three
  newlines, the debug assertion beside it adds two. `Splice.NewlineEquation`
  shows that the asserted equation holds exactly for files that are not the
  entry. Line numbers of the original text are unaffected.
- **Headers with log statements.** A loop is pushed before its header is
  visited, and trait methods, modules and anonymous constants are no barriers,
  so a log statement there can name a shadow that is not in scope.
  `InstrumenterScopes.ScopedIffInPlace` is the exact condition,
  `HeaderLogEscapes` and `TraitBodyEscapes` are programs that miss it.
- **Constants and tests.** Only `const` and `static` items, `const` blocks and
  `const fn` raise the walk's const depth, so a probed `let` in an array length,
  an enum discriminant or an associated constant gets its call there
  (`InstrumenterCaptures.AssociatedConstIsProbed`). Only test attributes on
  function items and modules raise its test depth, and of the `cfg`s only those
  that name `test` outright, so `#[cfg(test)]` on an impl, a trait, a function of
  either, a block or a statement, and `#[cfg(all(test, unix))]` on anything, leave
  the code inside instrumented (`InstrumenterCaptures.TestImplIsLogged`). Nothing
  is inserted in const context and test-only code if and only if no live log
  statement and no live probed `let` stands in such a part, and no loop there
  has a log statement of its own in a trait inside it
  (`InstrumenterCaptures.QuietIffUnlit`).
- **Long LSP headers.** An unfinished header of more than 8 KiB is an error only
  if the pipe cuts there. `LspCuts.CutsEndAlikeIff`: all cuts of a stream end
  alike if and only if no header in it ends after outgrowing the limit, or the
  last one reached has outgrown it and does not end. An error also drops the
  complete messages of its own push; `LspCuts.CutsReadAlikeIff` adds that to the
  condition. `LspCuts.LongHeaderTellsTheCuts` has a stream that shows it.
- **Torn markers.** A marker whose value has a second start byte is torn when
  the pipe cuts behind that byte and the program goes quiet; one of more than
  4096 bytes with two lines of its own is torn when the pipe cuts before its end.
  `MarkerCuts.CutsStripAlikeIff`: all cuts and quiet moments give the text,
  markers and locations of the uncut stream if and only if it has no such marker.
- **Broken UTF-8.** A chunk with an invalid byte replaces an incomplete
  character at its end as well. `Utf8Cuts.CutsDecodeAlikeIff`: all cuts decode
  alike if and only if nothing behind the first invalid stretch is longer than
  a byte. `Utf8Cuts.BrokenBytesTellTheCuts` has three bytes that show it.
- **Compaction and carriage returns.** A value that ends in a carriage return
  loses it at the next restart; compaction preserves the replay if and only if
  there is none (`Redis.CompactionIffNoReturns`). `Redis.ReturnIsLost` has a log.
- **Surrogate pairs.** A text written as `\u` escapes is read back by the Rust
  parser if and only if none of its characters needs a pair
  (`JsonEscapes.RustReadsEscapesIff`), by the C reader exactly when none is NUL
  (`JsonEscapes.CReadsEscapes`). `JsonEscapes.PairTellsTheParsers` has one pair.
- **Stop and waiting starts.** Stop fires a token; a start that is under way
  holds none yet. `SchedulerStop.StopLetsThroughIff`: after a Stop a run can
  become active without a new request if and only if, when it was pressed, a
  `start_run` that would not give up or an edit that had yet to store its
  debounce task was under way. `SchedulerWitness.StopMissesAWaitingStart` is such
  an execution of one connection: an edit's auto run waits when Stop arrives. A
  new request here is a run request or the update behind an edit; an edit of the
  document that its update has not followed yet is none, and may bring the
  document up to the version of a start that is ahead of it.
- **Lone carriage returns in Python.** Python's parser ends a line there, the
  splice does not, so an insertion may name a line that is not there; then the
  splice raises (`SplicePython.PythonSplice`). One at a column past its line's
  end goes to that end (`SpliceLaws.ClampedPut`).

## Model

| member | source | states |
|---|---|---|
| SchedulerInvariant.StepKeeps | apps/server-rs/src/domain/scheduler.rs:148-511 | every step of every task (cancel, edit, debounce, start, run, forward, watchdog) keeps the whole invariant: lock, tags, pending slot, aborts, slot, finished tokens, outstanding runs, owner, input, history |
| SchedulerInvariant.ExecutionKeeps | apps/server-rs/src/domain/scheduler.rs:111-511 | every state of every interleaving satisfies the invariant |
| SchedulerTheorems.StartsAlone | apps/server-rs/src/domain/scheduler.rs:271-311 | when a run is spawned, any other run whose task is still alive has outlived a grace that expired |
| SchedulerTheorems.LiveRunsBounded | apps/server-rs/src/domain/scheduler.rs:295-331 | live run tasks never exceed one more than the expired graces |
| SchedulerTheorems.SlotHoldsOwnToken | apps/server-rs/src/domain/scheduler.rs:324-331 | `cancel` is set exactly when `active_run` is, and holds that run's own token, not cancelled |
| SchedulerTheorems.OnlyItsOwnerFreesTheSlot | apps/server-rs/src/domain/scheduler.rs:456-477 | the active run leaves the slot exactly on a cancel, its own release, or its own panic reset: never through a superseded run that ends late |
| SchedulerTheorems.StopReachesEveryRun | apps/server-rs/src/domain/scheduler.rs:495-505 | after Stop, every live run task holds a token that has fired |
| SchedulerTheorems.AtMostTwoInFlight | apps/server-rs/src/domain/scheduler.rs:332-337 | a superseded run has at most two events past their last check |
| SchedulerTheorems.NothingJoinsTheTail | apps/server-rs/src/domain/scheduler.rs:362-386 | no step adds to what a superseded run has sent or has in flight |
| SchedulerTheorems.StaleTailIsBounded | apps/server-rs/src/domain/scheduler.rs:432-455 | once a cancel has removed run r, at most two more events with its id ever reach the outbox |
| SchedulerEvents.ForwardedIff | apps/server-rs/src/domain/scheduler.rs:366-384 | a step of a run's forwarder puts that run's event into the outbox exactly when it received one, then found the run current, then found the document at the run's version, and otherwise puts nothing there |
| SchedulerEvents.ForwardedWasCurrent | apps/server-rs/src/domain/scheduler.rs:370-377 | every event of a run in the outbox was let through at a state where the run was current and at a state where the document had the run's version |
| SchedulerEvents.CurrentEventIsForwarded | apps/server-rs/src/domain/scheduler.rs:366-384 | an event received while the run stays current and the document keeps the run's version reaches the outbox by the forwarder's third step from there |
| SchedulerEvents.EventsAreConserved | apps/server-rs/src/domain/scheduler.rs:357-366 | as many events have been received by the forwarder as the run has sent, short of those still queued |
| SchedulerEvents.TerminalWasCurrent | apps/server-rs/src/domain/scheduler.rs:432-442 | every terminal state in the outbox is that of a run that ended with a result, was current at its last check and had the document's version at the next |
| SchedulerEvents.FinishedFollowsTerminal | apps/server-rs/src/domain/scheduler.rs:438-447 | a result is sent right behind the same run's terminal state |
| SchedulerEvents.CurrentResultIsSent | apps/server-rs/src/domain/scheduler.rs:432-455 | a run that is current at its first check, with the document at its version at the second, sends its terminal state and its result in its next two steps, or at once a notice if it has no result |
| SchedulerEvents.DocumentCheckIff | apps/server-rs/src/domain/scheduler.rs:435-455 | the document check lets the terminal state through exactly for the document's own version and a result, and sends the notice exactly for the own version and none |
| SchedulerEvents.ResetOnlyAfterPanic | apps/server-rs/src/domain/scheduler.rs:467-484 | the client hears of a reset only if that run panicked and still had the slot |
| SchedulerEvents.CrashIsTold | apps/server-rs/src/domain/scheduler.rs:471-490 | the crash of the run that has the slot is told with the reset and then a notice |
| SchedulerRequests.RunIsAsAsked | apps/server-rs/src/domain/scheduler.rs:148-196 | a manual run has the version and the interactivity of some request; an auto run is not interactive and has the version the document had when some update read it |
| SchedulerRequests.StartWasCurrent | apps/server-rs/src/domain/scheduler.rs:272-311 | a start makes a run only after finding the document at its version and the language there, and the version again if it had a run to wait for |
| SchedulerRequests.StartGoesOnIff | apps/server-rs/src/domain/scheduler.rs:272-311 | what lets a start go on: at the first check the version and the language, at the second the version; in between it waits exactly if a previous run left its token; otherwise it ends |
| SchedulerRequests.OpenedIffInteractive | apps/server-rs/src/domain/scheduler.rs:332-337 | when a run is spawned its input has been announced exactly if it is interactive |
| SchedulerRequests.EofClosesInput | apps/server-rs/src/domain/scheduler.rs:254-263 | after the end of input nothing can be written until another run is installed |
| SchedulerTheorems.InputReachesOnlyItsRun | apps/server-rs/src/domain/session.rs:191-201 | while no grace has expired, a typed-input receiver is only taken by the run it was made for, and that run is interactive |
| SchedulerTheorems.SenderFollowsTheSlot | apps/server-rs/src/domain/scheduler.rs:254-269 | what `write_stdin` writes to belongs to the active run, or to one that panicked |
| SchedulerTheorems.AutoRunWasStillPending | apps/server-rs/src/domain/scheduler.rs:174-196 | an auto run exists only for a debounce task that left the pending slot with no cancel and no edit since it was put there |
| SchedulerTheorems.OneAutoRunPerBurst | apps/server-rs/src/domain/scheduler.rs:148-196 | between two auto runs leaving the slot, an edit put the second one there: one auto run per burst |
| SchedulerTheorems.AutoRunsAreDistinct | apps/server-rs/src/domain/scheduler.rs:177-195 | no debounce task starts two runs |
| SchedulerTheorems.StartingTaskIsNeverAborted | apps/server-rs/src/domain/scheduler.rs:182-193 | a debounce task that left the slot is never aborted, so not by the cancel of the start it performs |
| SchedulerWitness.TailOfTwo | apps/server-rs/src/domain/scheduler.rs:432-455 | an execution in which both terminal events follow the cancel: the bound of two is exact |
| SchedulerWitness.ExpiredGraceCrossesInput | apps/server-rs/src/domain/scheduler.rs:300-323 | after one expired grace a plain run can take an interactive run's input: the hypothesis of the isolation theorem is needed |
| SchedulerWitness.StopMissesAWaitingStart | apps/server-rs/src/domain/scheduler.rs:294-331 | an execution of one connection in which an auto run, waiting for the run its edit cancelled, survives Stop and becomes active |
| SchedulerStop.RunsAgainIff | apps/server-rs/src/domain/scheduler.rs:271-331 | from a state with an empty slot and nothing pending, a run can become active without a request if and only if a start that will not give up, or an edit yet to store its task, is under way |
| SchedulerStop.StopLetsThroughIff | apps/server-rs/src/domain/scheduler.rs:495-505 | in every execution, after a Stop a run can become active without another request if and only if such a start or edit was under way when it was pressed |
| SchedulerStop.StopIsFinal | apps/server-rs/src/domain/scheduler.rs:495-505 | with neither under way, no run is active after a Stop until somebody asks for one |
| SchedulerCell.Inner.CancelInternal | apps/server-rs/src/domain/scheduler.rs:495-505 | aborts the pending task, fires the token, empties the slot; afterwards slot and token agree |
| SchedulerCell.Inner.LeavePendingSlot | apps/server-rs/src/domain/scheduler.rs:186-192 | the task leaves the slot exactly if its own tag is pending |
| SchedulerCell.Inner.StorePending | apps/server-rs/src/domain/scheduler.rs:177-195 | a new tag is stored with the task's handle |
| SchedulerCell.Inner.TakeFinished | apps/server-rs/src/domain/scheduler.rs:299 | the previous run's token is taken and the field emptied |
| SchedulerCell.Inner.Install | apps/server-rs/src/domain/scheduler.rs:324-331 | the four fields are set to the new run's own, the input sender exactly for an interactive run |
| SchedulerCell.Inner.IsCurrent | apps/server-rs/src/domain/scheduler.rs:370-374 | the gate: not cancelled, and still the active run |
| SchedulerCell.Inner.ReleaseSlot | apps/server-rs/src/domain/scheduler.rs:456-461 | gives the slot back only if it is still its own |
| SchedulerCell.Inner.ResetAfterPanic | apps/server-rs/src/domain/scheduler.rs:471-477 | the same for the watchdog, which leaves the input sender |
| SchedulerCell.Inner.WriteStdin | apps/server-rs/src/domain/scheduler.rs:254-269 | input is sent only with a live sender, and end of input drops it |
| Collab.AdvanceKeepsMaximal | apps/server-rs/src/domain/collab.rs:134-145 | the stored writer start is always that of the maximal one-writer suffix of the log |
| Collab.AcceptedIffOwnSuffix | apps/server-rs/src/domain/collab.rs:193-200 | a write with a known base is accepted if and only if the base is not ahead and everything accepted since was the same session's |
| Collab.Service.Join | apps/server-rs/src/domain/collab.rs:76-87 | the session becomes a peer once, its count is announced, the revision is returned |
| Collab.Service.Leave | apps/server-rs/src/domain/collab.rs:89-103 | the session is gone, an empty workspace is forgotten, the count is announced |
| Collab.Service.PeerCount | apps/server-rs/src/domain/collab.rs:105-112 | the number of sessions present |
| Collab.Service.Revision | apps/server-rs/src/domain/collab.rs:130-132 | the revision is the length of the log of accepted writes |
| Collab.Service.CheckWriterBase | apps/server-rs/src/domain/collab.rs:123-128 | refused exactly when somebody else wrote since the base |
| Collab.Service.Advance | apps/server-rs/src/domain/collab.rs:134-145 | accepted under the same condition, then one entry longer; refused, nothing changes |
| Collab.Service.RecordFiles | apps/server-rs/src/domain/collab.rs:147-153 | an accepted change of files is announced, a refused one is not |
| Collab.Service.RecordEdit | apps/server-rs/src/domain/collab.rs:159-176 | an accepted edit is announced with its revision, a refused one is not |
| EditLock.NoConflictWhileLocked | apps/server-rs/src/ws/runtime.rs:629-651 | "revision changed while locked" is unreachable for any number of sessions |
| EditLock.RevisionsCountMutations | apps/server-rs/src/ws/runtime.rs:644-652 | revisions are handed out 1, 2, 3, … with one per successful store mutation |
| EditLock.DiskIsTheFold | apps/server-rs/src/ws/runtime.rs:635-645 | the shared disk is the fold of the logged mutations and always readable by the store |
| EditLock.CheckRefusesExactlyLostUpdates | apps/server-rs/src/ws/runtime.rs:636-641 | in every interleaving the base check passes exactly when every later write was the session's own |
| EditLock.RefreshedViewsAgree | apps/server-rs/src/ws/runtime.rs:113-124 | every session that refreshes, for its own message or for a peer's change, sees the one listing of the folded disk, at its own version |
| EditLock.VersionsNeverGoDown | apps/server-rs/src/domain/session.rs:287-320 | no session's document version ever goes down |
| EditLockTurns.TurnUnderLock | apps/server-rs/src/ws/runtime.rs:629-652 | one turn from taking the lock to giving it back, however the others interleave: with a base somebody else has written since nothing changes; otherwise the store answers for the disk's listing at the session's version, its answer is what disk and session then hold, and a success is logged and handed the next revision |
| Paths.StrictTotalOrder | apps/server-rs/src/util.rs:340-367 | `locale_compare` is irreflexive, total, asymmetric and transitive |
| Paths.EqualOnlyToItself | apps/server-rs/src/util.rs:340-367 | two paths compare equal only if they are the same |
| Paths.BeforeIff | apps/server-rs/src/util.rs:336-367 | the order itself: at the first position where the folded characters differ, listed punctuation before digits before letters by alphabet before the rest by code, a beginning first; between paths alike but for case, lowercase first where they first differ |
| Listing.ListingIsCanonical | apps/server-rs/src/domain/session.rs:307-308 | two sorted listings of one disk are the same list |
| Listing.ReadingIsCanonical | apps/server-rs/src/domain/workspace.rs:153-194 | in whatever order the directory is walked, reading a fitting disk gives its listing |
| Store.AcceptedIsGood | apps/server-rs/src/domain/session.rs:263-443 | an accepted mutation leaves unique sorted paths, the entry file, at most 64 files and 8 MiB, the client's newer version, and a disk that mirrors it |
| Store.ErrorChangesNothing | apps/server-rs/src/domain/session.rs:341-443 | a refused mutation leaves snapshot and disk as they were, and no commit fails for want of the entry file |
| Store.CommitSucceeds | apps/server-rs/src/domain/session.rs:307-320 | a commit of unique files within the limits that include the entry succeeds and is good |
| StoreVerdicts.UpdateVerdict | apps/server-rs/src/domain/session.rs:341-361 | accepted exactly for a newer version, a file that is there, at most 8388608 bytes afterwards and a disk that writes; each error exactly under its own condition |
| StoreVerdicts.CreateVerdict | apps/server-rs/src/domain/session.rs:363-384 | accepted exactly for a newer version, fewer than 64 files, a free path, at most 8388608 bytes and a disk that writes; each error exactly under its own condition |
| StoreVerdicts.RenameVerdict | apps/server-rs/src/domain/session.rs:386-424 | accepted exactly for a newer version, a file that is there and not the entry, a free new path and a disk that renames; each error exactly under its own condition |
| StoreVerdicts.DeleteVerdict | apps/server-rs/src/domain/session.rs:426-443 | accepted exactly for a newer version and a file that is there and not the entry; each error exactly under its own condition |
| StoreVerdicts.ReplaceVerdict | apps/server-rs/src/domain/session.rs:234-261 | accepted exactly for 1 to 64 files with different paths, none inside another, each of at most 1048576 bytes and together 8388608, the entry among them, a version that is not older and a disk that works; each error exactly under its own condition |
| StoreVerdicts.ResetVerdict | apps/server-rs/src/domain/session.rs:263-277 | the same with a strictly newer version |
| StoreVerdicts.AcceptedBecomes | apps/server-rs/src/domain/session.rs:341-443 | after an accepted edit the files are exactly the present ones with the edit's own change, sorted, at the client's version, with the entry's text as the source |
| StoreVerdicts.CollectFits | apps/server-rs/src/domain/workspace.rs:153-194 | whatever is on the disk, what is read is from it and within the limits |
| Store.RefreshShowsTheDisk | apps/server-rs/src/domain/session.rs:223-230 | a refresh cannot fail while the entry is on disk, keeps the version, and shows the disk's listing |
| SessionStore.Session.CommitFiles | apps/server-rs/src/domain/session.rs:307-320 | sorted files are stored only when the entry is among them |
| SessionStore.Session.UpdateFile | apps/server-rs/src/domain/session.rs:341-361 | accepted exactly for a newer version, a file that is there, at most 8 MiB afterwards and a disk that writes; then that one file's text is replaced in snapshot and disk, otherwise nothing changes |
| SessionStore.Session.CreateFile | apps/server-rs/src/domain/session.rs:363-384 | accepted exactly for a newer version, room, a free path, at most 8 MiB and a disk that writes; then one file is added to both, otherwise nothing changes |
| SessionStore.Session.RenameFile | apps/server-rs/src/domain/session.rs:386-424 | accepted exactly for a newer version, a file that is there and not the entry, a free new path and a disk that renames; then one file is moved in both, otherwise nothing changes |
| SessionStore.Session.DeleteFile | apps/server-rs/src/domain/session.rs:426-443 | accepted exactly for a newer version and a file that is there and not the entry; then that file is gone from both, otherwise nothing changes |
| SessionStore.Session.ReplaceFiles | apps/server-rs/src/domain/session.rs:234-261 | accepted exactly for valid sources with the entry, a version that is not older and a disk that works; then they are the whole tree and the snapshot mirrors it, otherwise nothing changes |
| SessionStore.Session.ResetFiles | apps/server-rs/src/domain/session.rs:263-277 | the same at a strictly newer version |
| SessionStore.Session.RefreshFiles | apps/server-rs/src/domain/session.rs:223-230 | reads the shared disk back at the same version; an unshared session is left alone |
| Markers.WellBracketedScans | apps/server-rs/src/languages/markers.rs:33-39 | on a stream whose start bytes are each closed within 4096 bytes and before the next, the byte-by-byte reference reader is never surprised |
| MarkerScan.SearchIsScan | apps/server-rs/src/languages/markers.rs:60-124 | searching a buffer for its first marker agrees with reading it byte by byte |
| MarkerBody.BodyIff | apps/server-rs/src/languages/markers.rs:76-124 | a body is read as a marker if and only if it spells exactly that: file, line and column below 2^32 in that order between colons, then nothing, or the loop's line, its column, a variable name and the value |
| MarkerBody.BodyRoundTrip | apps/server-rs/src/languages/markers.rs:76-124 | the printed body of any marker with a legal variable is read as that marker |
| MarkerBody.OneMarker | apps/server-rs/src/languages/markers.rs:60-74 | a whole concrete marker, found at its place with its file, line and column |
| MarkerCategories.OutputCategorised | apps/server-rs/src/languages/markers.rs:201-237 | a line goes out as an error exactly if errors are looked for and it says so or a panic line has gone out, itself included; from then on no line has a location |
| MarkerPlaces.LocationIs | apps/server-rs/src/languages/markers.rs:239-252 | a marker's location has its own line, column, loop and file; its execution index is the number of markers so far, itself included, of the same line and column in what goes by the same file name |
| MarkerFollows.EmitTextEmits | apps/server-rs/src/languages/markers.rs:201-237 | emitting loses no byte, the sticky flag only goes up, and the last line carries the location |
| MarkerTheorems.OutputIsScan | apps/server-rs/src/languages/markers.rs:239-304 | under any chunking and any placement of `release`, then `flush`, the text and markers are the reference's, each marker with its execution index |
| MarkerTheorems.ChunkIndependent | apps/server-rs/src/languages/markers.rs:239-304 | two runs over the same bytes emit the same text and strip the same markers with the same locations |
| MarkerTheorems.LocationsLand | apps/server-rs/src/languages/markers.rs:239-283 | with no newline inside a marker and without `release`, the line ending right before a marker carries exactly that marker's location under every chunking, until a panic line goes out |
| MarkerTheorems.HoldsOneLine | apps/server-rs/src/languages/markers.rs:43-49 | after any push on any input, at most one newline is held unless a marker is half arrived |
| MarkerCuts.CutsStripAlikeIff | apps/server-rs/src/languages/markers.rs:239-304 | for any bytes: every chunking and placement of `release` gives the uncut stream's text, markers and locations if and only if each of its markers has no second start byte and either at most 4096 bytes before its end byte or at most one newline |
| MarkerCuts.WellBracketedIsRobust | apps/server-rs/src/languages/markers.rs:33-39 | streams whose start bytes are all closed in time meet that condition |
| MarkerMachine.FindMarker | apps/server-rs/src/languages/markers.rs:60-74 | the search loop finds the first marker |
| MarkerMachine.Parser.EmitText | apps/server-rs/src/languages/markers.rs:201-237 | the loop emits the text's lines with category and location as specified |
| MarkerMachine.Parser.Push | apps/server-rs/src/languages/markers.rs:239-283 | the in-place loop is the specified push |
| MarkerMachine.Parser.Release | apps/server-rs/src/languages/markers.rs:290-299 | everything but a half-arrived marker goes out |
| MarkerMachine.Parser.Flush | apps/server-rs/src/languages/markers.rs:301-304 | everything goes out |
| Utf8.LossyIsText | apps/server-rs/src/util.rs:120-148 | whatever bytes come in, well-formed text goes out |
| Utf8.CutText | apps/server-rs/src/util.rs:123-134 | cut anywhere, the first part of a text is text and at most three bytes of one character, and what follows completes it |
| Utf8.CarryIsShort | apps/server-rs/src/util.rs:120-138 | on any bytes the carry never holds more than three |
| Utf8.DecodeKeepsText | apps/server-rs/src/util.rs:120-138 | of a valid stream one decode loses and replaces nothing |
| Utf8.AnyCutDecodes | apps/server-rs/src/util.rs:107-149 | a valid stream comes out as it went in, however it is cut |
| Unicode.EncodeSpells | apps/server-rs/src/util.rs:120-148 | the UTF-8 of a code point has the length of its range, six bits in every byte but the lead, and together the code point |
| Unicode.FrontIff | apps/server-rs/src/util.rs:123-134 | what the decoding sees in front: a character exactly if the UTF-8 of one stands there, part of one exactly if that is all that is left, otherwise the longest stretch that still began one, or a byte |
| Unicode.TextIff | apps/server-rs/src/util.rs:120-134 | text is exactly what is the UTF-8 of some characters |
| Unicode.ValidateIff | apps/server-rs/src/util.rs:123-134 | all fine, cut short behind k bytes or broken there: each exactly when text, the beginning of a character, or neither stands behind k bytes of text |
| Unicode.LossyIs | apps/server-rs/src/util.rs:128-146 | lossy decoding keeps every character and puts U+FFFD for each stretch that is none |
| Utf8Cuts.CutsDecodeAlikeIff | apps/server-rs/src/util.rs:107-149 | for any bytes at all: the uncut stream decodes as the library decodes it, and every cut decodes the same if and only if nothing behind the first invalid stretch is longer than a byte |
| Utf8Cuts.BrokenBytesTellTheCuts | apps/server-rs/src/util.rs:128-129 | three bytes whose decoding depends on the cut |
| Utf8.Utf8Carry.Decode | apps/server-rs/src/util.rs:120-138 | the method decodes pending and chunk as specified and keeps the incomplete tail |
| Utf8.Utf8Carry.Finish | apps/server-rs/src/util.rs:141-148 | what is pending comes out as the library decodes it, and nothing stays pending |
| Ndjson.AnyCutReads | apps/server-rs/src/languages/ndjson.rs:57-104 | for every valid UTF-8 stream and chunking, the events delivered and the final error are those of the uncut text |
| Ndjson.OnePush | apps/server-rs/src/languages/ndjson.rs:57-104 | many pushes end as one push of the whole stream does |
| NdjsonLaws.MeaningIff | apps/server-rs/src/languages/ndjson.rs:57-104 | for every text: the events are those of its good lines, up to 10000, and the error is the one told by what stands where reading stops (a line over 65536 bytes, one event too many, another schema, no JSON, a line not ended), none exactly if only white space is left |
| Ndjson.LimitsHold | apps/server-rs/src/languages/ndjson.rs:79-89 | on any bytes: at most 10000 events, a buffer within the line limit, a carry of at most three bytes |
| Ndjson.NdjsonReader.Push | apps/server-rs/src/languages/ndjson.rs:172-194 | the in-place loop is the specified push |
| Ndjson.NdjsonReader.ParseLine | apps/server-rs/src/languages/ndjson.rs:196-207 | one line counts, and is delivered or becomes the error |
| Ndjson.NdjsonReader.End | apps/server-rs/src/languages/ndjson.rs:209-214 | a channel that ends inside a line is an error unless only white space is left |
| LspCuts.TwoPushesAreOne | apps/server-rs/src/ws/lsp.rs:77-121 | a push that succeeds followed by any other is one push of both: same messages, same state, same error; an error stays whatever follows, unless it is an over-long header and that header, or a later one, ends past the limit in what follows |
| LspCuts.CutsEndAlikeIff | apps/server-rs/src/ws/lsp.rs:77-121 | for every stream: all cuts end with the same error, or the same messages and state, if and only if no header in it ends after outgrowing the limit, or the last one reached has outgrown it and does not end |
| LspCuts.RefusedIff | apps/server-rs/src/ws/lsp.rs:77-121 | an uncut stream is refused exactly if the last header reached is unfinished and too long, or a header or body reached is malformed |
| LspCuts.CutsReadAlikeIff | apps/server-rs/src/ws/lsp.rs:470-507 | all cuts forward the same messages and end alike if and only if, besides, no message is complete before an overgrown or malformed part |
| LspCuts.LongHeaderTellsTheCuts | apps/server-rs/src/ws/lsp.rs:82-87 | a stream with a header over 8 KiB that fails or succeeds with the cut |
| Lsp.FramesRoundTrip | apps/server-rs/src/ws/lsp.rs:77-133 | any chunking of the frames of any messages of 1 byte to 8 MiB forwards exactly those messages and leaves the framer empty |
| Lsp.LettersRoundTrip | apps/server-rs/src/ws/lsp.rs:77-121 | the same for frames behind any headers of at most 8 KiB without a blank line inside that say their body's length |
| LspHeaders.BodyLengthIff | apps/server-rs/src/ws/lsp.rs:89-107 | for every header: the length is n if and only if exactly one line begins, in any mix of cases, with `content-length:` and what stands behind that up to a further colon is, trimmed, a number n from 1 to 8388608; each error exactly under its own condition |
| LspHeaders.HeadersRoundTrip | apps/server-rs/src/ws/lsp.rs:77-121 | any chunking of frames whose headers have further lines of any other kind before and behind the length forwards exactly their messages |
| LspHeaders.TypedHeader | apps/server-rs/src/ws/lsp.rs:89-107 | a header with a content type behind its length is read |
| WhiteSpaceLaws.TrimIff | apps/server-rs/src/ws/lsp.rs:98-102 | trimming takes all of Unicode's white space off both ends and nothing else |
| WhiteSpaceLaws.BlankIff | apps/server-rs/src/languages/ndjson.rs:99-104 | nothing is left exactly of white space alone |
| Lsp.HeaderFits | apps/server-rs/src/ws/lsp.rs:88-107 | the header the server writes is read back as its body's length and is one the round trip covers |
| Lsp.LspFramer.Push | apps/server-rs/src/ws/lsp.rs:77-121 | the in-place loop is the specified push |
| Instrumenter.VisitComesTo | rust/instrumenter/src/instrument.rs:148-430 | the walk with its stack, barriers, counter and depths adds exactly what each construct comes to, and restores the stack |
| InstrumenterScopes.ScopedIffInPlace | rust/instrumenter/src/instrument.rs:385-429 | every emitted shadow is visible where it is used if and only if no live log statement stands in a loop's own header or across a trait method, module or anonymous constant from its loop's body |
| InstrumenterScopes.OrdinaryProgramsScope | rust/instrumenter/src/instrument.rs:181-188 | without log statements in loop headers, and with none directly in the trait methods, modules and constant expressions inside a loop, every shadow sits in the body that binds it; impl blocks, modules, traits and array lengths elsewhere are unrestricted |
| InstrumenterScopes.HeaderLogEscapes | rust/instrumenter/src/instrument.rs:288-295 | a program with a log statement in a loop header whose shadow is out of scope |
| InstrumenterScopes.TraitBodyEscapes | rust/instrumenter/src/instrument.rs:209-237 | the same for a trait declared inside a loop |
| InstrumenterCaptures.BoundIffUsed | rust/instrumenter/src/instrument.rs:165-179 | a shadow is bound exactly if some log statement uses it |
| InstrumenterCaptures.BoundOnce | rust/instrumenter/src/instrument.rs:153-163 | no shadow is bound twice |
| InstrumenterCaptures.EveryLogMarked | rust/instrumenter/src/instrument.rs:305-429 | each live log statement has exactly one call: in a loop with a variable the loop call with its own stream and place, then the loop's place and variable, otherwise the plain call with its own; each live probed binding its probe; where the walk's test or const depth is raised nothing is inserted |
| InstrumenterCaptures.QuietIffUnlit | rust/instrumenter/src/instrument.rs:209-274 | nothing is inserted in const context or in test-only code if and only if no live log statement, no live probed `let` and no loop to be captured stands in a constant expression that does not raise the const depth or in a test-only part that does not raise the test depth |
| InstrumenterCaptures.TestImplIsLogged | rust/instrumenter/src/instrument.rs:228-237 | an impl under `cfg(test)` whose function gets a log call |
| InstrumenterCaptures.AssociatedConstIsProbed | rust/instrumenter/src/instrument.rs:239-255 | an associated constant of an impl that gets a probe call |
| InstrumenterCollector.Collector.OpenLoop | rust/instrumenter/src/instrument.rs:153-163 | a numbered loop is pushed |
| InstrumenterCollector.Collector.CloseLoop | rust/instrumenter/src/instrument.rs:165-179 | the innermost loop is popped, with a capture of its variable at the start of its body if it was used |
| InstrumenterCollector.Collector.VisitStatementLog | rust/instrumenter/src/instrument.rs:385-429 | in const and test context nothing changes; otherwise the one call inserted carries the statement's own stream and place, and in a loop with a variable that loop's place, variable and shadow, and the loop is marked used |
| InstrumenterCollector.Collector.VisitNode | rust/instrumenter/src/instrument.rs:209-383 | the visitor methods are the specified walk |
| InstrumenterCollector.Collector.VisitFunction | rust/instrumenter/src/instrument.rs:210-226 | depths and loops are restored after a function |
| InstrumenterCollector.Collector.VisitMethod | rust/instrumenter/src/instrument.rs:228-237 | the same for a function of an impl, whose test attributes are not looked at |
| Splice.PutAllIsWeave | rust/instrumenter/src/instrument.rs:494-498 | inserting from the highest offset down equals inserting all at their original offsets; those beyond the source are left out by both |
| Splice.SourceSurvives | rust/instrumenter/src/instrument.rs:491-498 | every source byte is still there, in order, on its own line; taking those bytes alone gives the source back |
| Splice.SortIsStable | rust/instrumenter/src/instrument.rs:492-493 | sorting puts higher offsets first and keeps the order at one offset |
| Splice.GuardKeeps | rust/instrumenter/src/instrument.rs:495-497 | the boundary guard, which looks at the text so far, lets through exactly the pieces on a character boundary of the source |
| Splice.RustSplice | rust/instrumenter/src/instrument.rs:491-501 | for any offsets the Rust loop yields the source woven with the pieces on its character boundaries, with the runtime module behind it for the entry file |
| Splice.NewlineEquation | rust/instrumenter/src/instrument.rs:499-505 | the newline count grows by three for an entry file and not otherwise, so the asserted equation holds if and only if the file is not the entry; original lines keep their numbers |
| Splice.WeaveNewlinesIff | go/instrumenter/instrument.go:357-365 | a woven text has the source's number of newlines if and only if no piece that goes in brings one |
| Splice.ArrangedWeavesSame | go/instrumenter/instrument.go:348-350 | without two pieces at one offset, every order an unstable sort may give weaves the same text |
| Splice.GoSplice | go/instrumenter/instrument.go:348-365 | for any insertions the Go loop yields the source woven in some order the sort may give, in the given one if no two share an offset; its newline check fires exactly when a piece that goes in brings a newline |
| SpliceLaws.BoundaryIff | rust/instrumenter/src/instrument.rs:495-497 | in a well-formed source an offset is on a boundary if and only if what stands before it is whole characters |
| SpliceLaws.TextsBegin | rust/instrumenter/src/instrument.rs:494-498 | strings never begin inside a character, which is all the Rust splice asks of its pieces |
| SplicePython.LinesAgree | python/instrumenter/pylive_instrument.py:227-232 | the line-by-line splice is the splice at byte offsets |
| SplicePython.SortsAgree | python/instrumenter/pylive_instrument.py:226 | sorting by line and column is sorting by byte offset |
| SpliceLaws.SplitIff | python/instrumenter/pylive_instrument.py:218-232 | the lines are the one list of pieces without newlines that joins to the source |
| SpliceLaws.ClampedPut | python/instrumenter/pylive_instrument.py:227-232 | a piece goes in at its column of its line, at the line's end if the column is past it, and no other line changes |
| SplicePython.ClampedNewlines | python/instrumenter/pylive_instrument.py:227-245 | wherever the pieces go, a column past the end of its line included, the number of newlines stays if and only if no piece brings one |
| SplicePython.PythonSplice | python/instrumenter/pylive_instrument.py:218-245 | the Python splice, in place on its lines, raises exactly when a line is not there, returns nothing exactly when a piece brings a newline, and otherwise, columns within their lines, yields the woven text |
| Json.StringsRoundTrip | demos/rest/main.rs:180-278 | parsing a quoted string gives that string, for every text and for either demo's quoting |
| JsonGrammar.ParseIff | demos/rest/main.rs:131-260 | for every text and value: the parser reads the text as that value if and only if the text denotes it, by a grammar of words, numbers, strings with every escape, lists and objects with white space around their parts |
| JsonPrinting.ValuesRoundTrip | demos/rest/main.rs:131-278 | every value, of any depth, printed with either demo's quoting and any white space around it, parses to itself, if its numbers do |
| Unicode.EncodeIsText | demos/rest/main.rs:204-205 | every character's encoding is well-formed UTF-8 of one character |
| Json.Parser.ReadValue | demos/rest/main.rs:159-169 | on every input the method ends with the specified value and a cursor within the text |
| Json.Parser.ReadNumber | demos/rest/main.rs:171-178 | the longest run of number characters, as the library reads it |
| Json.Parser.ReadString | demos/rest/main.rs:180-210 | the loop reads the specified string, cursor within the text |
| Json.Parser.ReadList | demos/rest/main.rs:212-230 | the loop reads the specified list, cursor within the text |
| Json.Parser.ReadObject | demos/rest/main.rs:232-259 | the loop reads the specified object, cursor within the text |
| Json.ParseAll | demos/rest/main.rs:132-137 | the whole input is one value or nothing is returned, and parsing always ends |
| JsonTodo.TodosRoundTrip | demos/rest/main.rs:280-282 | a todo written by either demo is parsed as exactly its three fields |
| CJson.CStringsRoundTrip | demos/rest/main.c:124-160 | what either demo quotes is read back exactly when it fits with its terminator, and refused when it does not |
| JsonEscapes.RustReadsEscapesIff | demos/rest/main.rs:180-210 | a text all of whose characters are written as escapes is read back by the Rust parser if and only if each fits sixteen bits |
| JsonEscapes.RustReadsString | demos/rest/main.rs:197-201 | what it reads of any such text: each half of a pair becomes a replacement character |
| JsonEscapes.CReadsEscapes | demos/rest/main.c:84-160 | the C reader reads any such text, pairs included, as its UTF-8 bytes, and refuses it exactly when it has a NUL |
| JsonEscapes.PairTellsTheParsers | demos/rest/main.rs:197-201 | one pair, read as one character in C and as two replacement characters in Rust |
| CJson.SkipQuoted | demos/rest/main.c:164-166 | a quoted string is skipped to its end |
| CJsonGrammar.ReadTextIff | demos/rest/main.c:84-160 | the reader ends at a place with a text if and only if a quoted string that spells it ends there and it fits with its terminator |
| CJsonGrammar.SkipIff | demos/rest/main.c:164-187 | skipping ends at a place if and only if white space and then a text of the grammar ends there, with no further number character behind a number |
| CJsonGrammar.PrintedIsSkipped | demos/rest/main.c:164-187 | whatever value either demo's quoting prints, in whatever text it stands, is skipped to its end |
| CJson.CutOffIff | demos/rest/main.c:42-49 | what a buffer keeps is the longest beginning that leaves room for the terminator |
| CJson.ReadString | demos/rest/main.c:124-160 | the C loop fills its buffer with the specified text and a terminator, never beyond its size, and never reads past the end |
| CJson.Skip | demos/rest/main.c:164-187 | skipping ends on every input with a cursor past the value and within the text |
| CJson.SkipEach | demos/rest/main.c:171-181 | the member loop of objects and arrays does the same |
| CJson.Buffer.Append | demos/rest/main.c:42-49 | text is appended, cut off at the capacity, never overrun |
| CJson.Buffer.AppendString | demos/rest/main.c:52-60 | the buffer gains the quoted text, cut off at the capacity |
| Redis.ReplayAppend | demos/redis/main.rs:15-35 | one line more in the log is one step more in the replay |
| Redis.ExecuteKeeps | demos/redis/main.rs:48-103 | after every command the log still replays to the map in memory |
| Redis.CompactionIffNoReturns | demos/redis/main.rs:110-113 | compaction, in any order of the keys, preserves the replay if and only if no value ends in a carriage return |
| Redis.RestartIsIdentity | demos/redis/main.rs:107-113 | replay, compact, replay is replay if and only if no value replayed ends in a carriage return; so for every log without carriage returns |
| Redis.ReturnIsLost | demos/redis/main.rs:15-35 | a log that replays to a value ending in a carriage return, which the next start loses |
| Redis.LogEqualsStore | demos/redis/main.rs:106-136 | over any sequence of commands and restarts, begun with a log of which no value ends in a carriage return, the log replays to the store, and restarts change nothing |
| RedisLaws.SetThenGet | demos/redis/main.rs:52-61 | after SET, GET finds the words joined by single spaces, every other key is answered as before, and the log has one line more |
| RedisLaws.DelThenGet | demos/redis/main.rs:62-68 | DEL answers 1 if GET found anything and 0 if not; afterwards GET finds nothing and every other key is answered as before |
| RedisLaws.ExistsIff | demos/redis/main.rs:69 | EXISTS answers 1 exactly if GET finds the key, and changes nothing |
| RedisLaws.IncrAddsOne | demos/redis/main.rs:70-79 | INCR answers one more than the number GET found, 0 if none, which GET then finds; refused, with nothing changed, exactly if it is no 64-bit number or the largest |
| RedisLaws.SizeCountsKeys | demos/redis/main.rs:80-92 | DBSIZE answers the number of keys that GET finds, KEYS those keys |
| RedisLaws.FlushThenGet | demos/redis/main.rs:93-97 | after FLUSHALL GET finds nothing and DBSIZE answers 0 |
| RedisLaws.ComplaintIff | demos/redis/main.rs:98-101 | unknown commands and wrong numbers of arguments, exactly when each is complained of; complaints and questions change nothing |
| RedisLaws.ParseIff | demos/redis/main.rs:72 | a text is read as n if and only if it is decimal digits of n behind a sign or none, within 64 bits |
| RedisLaws.PrintedNumber | demos/redis/main.rs:76-78 | a number is printed as its digits, no zero in front, behind a minus sign if it is negative |
| RedisLaws.ReplayLineIs | demos/redis/main.rs:19-33 | what a line of the log does, for each way it divides at its first spaces |
| Redis.Database.Start | demos/redis/main.rs:106-114 | a start holds the replayed store and a log with one SET per key |
| Redis.Database.ExecuteWords | demos/redis/main.rs:48-103 | every command's reply, new store and new log |

## Left out

- Scheduler: the last language used, the count of run slots (leaving the queue is a step that may always happen), metrics, tracing spans, and the idle-server watchdog, which is a Stop with notices.
- Scheduler across reconnects: a new object is built per connection; nothing is claimed about two schedulers of one session.
- Session snapshots: the document's URI and time stamp, directory creation, temporary files, symbolic links, failed removals, and the check that a path is a valid project path.
- WorkspaceReset sources: which scaffold files a reset writes; any valid list of sources is covered.
- Marker categories: which lines look like panics or errors is a parameter.
- Execution indices: the 32-bit counter is unbounded here.
- serde_json, syn, go/ast, Python's ast and the floating-point parser: their results are parameters (`Classify`, `Decode`, `ParseFloat`) or syntax trees given as data.
- Probe descriptors: ids, ranges and the reasons for unsupported bindings; the walk keeps which bindings get a probe call. Which identifier a while loop's condition yields is given with the tree.
- InstrumenterScopes.ScopedIffInPlace: takes different places of the source to have different offsets, which the parser's spans guarantee.
- SplicePython.PythonSplice: for a column past the end of its line the text is given by the loop's own function, not as a woven text; decoding the joined bytes is left out.
- JSON in C: `read_fields`, which strings the readers together, and what a number's characters amount to, which the skipper does not ask either.
- Redis: case folding of commands, splitting of input lines at white space, the order in which KEYS prints, crash safety of the rewrite, and logs that are not UTF-8.
- Processes, pipes, signals, the sandbox, HTTP routes, guards and proxying, dependency manifests, metrics, the C store demo, the web client and the desktop shell.
