# Verified model of machine-god's coordination and text core

Dafny models of the parts of machine-god in which several actors, crashes or exact text rules
meet, with proofs of what the code promises about them. Each file is one component.

- `AskRun.dfy`, `TurnDriver.dfy`: a one-shot prompt run. A guardian thread with phases and a
  one-shot latch forwards at most one signal over a capacity-1 channel to a turn driver, which
  writes stop-and-wait, cancels, drains, flushes and settles. `TurnDriver` is the driver as
  loops and as a transition system, `TurnSystem` adds the output worker and a clock, `AskRun`
  composes guardian, channel, driver and settlement into one small-step system.
- `Cancellation.dfy`: the cancellation token as interleaved atomic steps over a keyed waiter
  registry whose identifier space is a parameter, so wrap-around and reuse are real cases.
- `TrashLeases.dfy`, `ClaimWindow.dfy`, `ScanCursor.dfy`, `Rotation.dfy`, `ScanFairness.dfy`,
  `CacheCapacity.dfy`: the Zig cache shared by processes that may crash at any step: leases and
  trash, the claim of a window of it, the two-slot cursor file, the round-robin window over an
  abstract and over the stored cursor, and the capacity reservation.
- `ChildSupervisor.dfy`, `Descendants.dfy`: the process-group supervisor with a signal handler
  between any two statements, and the bounded search for descendant processes.
- `ZigMask.dfy`, `Brackets.dfy`, `Declarations.dfy`, `CodeSpan.dfy`: the masking lexer, the
  depth map and brace matcher with the registry reader on top, the search for a declaration and
  its initializer, and the code-span printer.
- `Timestamp.dfy`, `JsonText.dfy`, `SessionsPage.dfy`: calendar arithmetic, the JSON string
  encoder, and the session page with its size bound.
- `Recording.dfy`, `LaunchGrammar.dfy`: the streaming `--record` filter over any argument parser,
  and the launcher's own parser in it.
- `Output.dfy`, `TextOrder.dfy`, `SessionIds.dfy`, `Shared.dfy`: the byte-bounded sink, the
  order of texts, session identifiers, and other definitions used by several components.

A protocol is a state, an enabling predicate and a step function; runs are finite sequences of
enabled steps, and the theorems hold of every run. Code that works by updating variables is a
method or a class proved against a function, and the theorems are about that function.

What the code does not meet, each with a witness run, an exact condition, or both:

- An interrupt is lost when it arrives between a failed read of a piped prompt and the request
  to stop forwarding, or when an unwind escapes host preparation or the settlement of the host
  (`FirstSignalDecidesExitCode`).
- A trash constructor that fails after making its tree removes the lease first; a crash in
  between leaves a tree that nobody can claim and that fails the next claimer's check. Those are
  the only trees without a lease (`OwnershipIsExclusive`, `OnlyStraysFailChecks`).
- Refused or interrupted cache sections can make the cleanup of an owner fail its capacity check
  although every admission reserved for it (`CleanupFindsRoom`, `StarvationIsExact`).
- If killing the anchor through its process handle reaps it, a signal before the next statement
  can go to a group number that is no longer reserved (`GroupIsSignalledOnlyWhileReserved`,
  `EveryExposureCanStray`).
- A stray among the first names of a claim window makes the pass give back every claim
  (`ClaimAbandonedTrash`, `StrayAbortsThePass`).
- A short cursor write, reported as a failure, leaves the new cursor in force exactly when the
  bytes it did not reach were in place already; the window of that call is then skipped
  (`LandsExactly`, `ShortWriteCanLand`, `LandedTearLosesItsWindow`).
- A scan cursor of more than 511 encoded bytes is not read back
  (`WriteIsReadBackExactlyWithinLimit`).
- A code span does not read back the value when the value is blank or holds a character that is
  escaped or replaced (`CodeSpanShowsTheValue`).

Assumptions, all explicit in the models: sequentially consistent atomics; a file lock belongs
to an open file and vanishes with its process; a cursor slot that passes its
checksum holds the record last written whole to it or the one being written, with the hash and
text validity as uninterpreted functions; names for fresh trash are not
guessed; `usize` has 64 bits.

## Model

| member | source | states |
|---|---|---|
| `AskRun.FirstSignalDecidesExitCode` | crates/machine-god-cli/src/ask.rs:671-759 | in every run the exit code is that of the first signal the guardian observed if and only if that signal did not reach a turn that could no longer take it (an unwind escaped host preparation or settlement, or the piped read had already failed); with no signal the code is never a signal code |
| `AskRun.ArgumentRunExitsWithFirstSignal` | crates/machine-god-cli/src/ask.rs:1507-1551 | for a prompt given as an argument, whatever fails, unwinds inside the operation, stalls or arrives later, the exit code is that of the first observed signal unless an unwind escapes host preparation or settlement |
| `AskRun.ArgumentRunsAreNeverLate` | crates/machine-god-cli/src/ask.rs:1124-1205 | without such an unwind, a run of an argument prompt never enters a situation that loses a signal |
| `AskRun.LatchMeansForwarded` | crates/machine-god-cli/src/ask.rs:732-747 | latched implies the phase is Turn or Final and a signal was forwarded; not latched implies nothing was ever forwarded, queued or observed |
| `AskRun.StepKeepsInv` | crates/machine-god-cli/src/ask.rs:1228-1237 | every step of guardian, run, driver, settlement and timer keeps the composed invariant |
| `AskRun.InterruptAfterFailedReadIsLost` | crates/machine-god-cli/src/ask/production/piped_prompt.rs:16-42 | a run in which the failed read looks at the channel before the guardian stops forwarding: an interrupt between the two is lost and the exit code is 2 |
| `AskRun.InterruptBeforeSetupUnwindIsLost` | crates/machine-god-cli/src/ask.rs:1136-1205 | a run in which unwinding out of host preparation drops the receiver with an interrupt in it: the exit code is 1 |
| `AskRun.InterruptBeforeSettlementUnwindIsLost` | crates/machine-god-cli/src/ask.rs:1488-1505 | a run in which dropping the host, outside the unwind boundaries, unwinds after the operation observed an interrupt: the exit code is 1 |
| `SignalGuardian.GuardianState.Poll` | crates/machine-god-cli/src/ask.rs:671-759 | one poll does exactly a control step, then at most one signal step, then the finishing timer, with every listener and control failure |
| `SignalGuardian.SignalChannel.TrySend` | crates/machine-god-cli/src/ask.rs:736-744 | a full channel keeps the signal it holds, a closed one reports it |
| `SignalGuardian.AskSignals.PollSignal` | crates/machine-god-cli/src/ask.rs:444-453 | a poll takes the queued signal or reports a closed channel, and never changes the first signal observed |
| `TurnDriver.DriveTurn` | crates/machine-god-cli/src/ask.rs:1721-1809 | the driver with its loops computes the transition system of the turn on every record of what its await points produced |
| `TurnDriver.DrainTurn` | crates/machine-god-cli/src/ask.rs:974-996 | the drain stops at a terminal item only and keeps the first signal |
| `TurnDriver.RecordSignalGrace` | crates/machine-god-cli/src/ask.rs:908-920 | the grace wait sets the deadline once and classifies the acknowledgement |
| `TurnDriver.FlushTerminalOutput` | crates/machine-god-cli/src/ask.rs:944-972 | the final flush, its refusals and its wait refine the transition system |
| `TurnSystem.SendNeverFindsChannelFull` | crates/machine-god-cli/src/ask.rs:1749-1754 | in every run at most one work item is unacknowledged, so a capacity-1 send is refused only when the worker has gone |
| `TurnSystem.WritesAreTheConsumedText` | crates/machine-god-cli/src/ask.rs:1746-1776 | the writes are exactly the consumed text deltas in order, short of at most one refused last piece |
| `TurnSystem.CancelDrainsToTerminalItem` | crates/machine-god-cli/src/ask.rs:974-996 | after a cancel the driver stays in the drain until exactly a terminal item |
| `TurnSystem.FinishedTurnIsSettled` | crates/machine-god-cli/src/ask.rs:1796-1829 | a finished turn cancelled at most once, is settled, flushed once unless a write failed or stalled, and its outcome is decided by the first signal seen |
| `TurnSystem.FlushFollowsHealthyWrites` | crates/machine-god-cli/src/ask.rs:944-957 | a flush is requested at most once, with nothing outstanding, and only when no earlier write failed or stalled |
| `TurnSystem.DeadlineNeverMoves` | crates/machine-god-cli/src/ask.rs:908-912 | one grace deadline serves the write and the flush |
| `TurnSystem.FinishesWithinGrace` | crates/machine-god-cli/src/ask.rs:898-920 | a turn that waits for output after a signal finishes by that deadline |
| `TurnSystem.StepKeepsInv` | crates/machine-god-cli/src/ask.rs:1721-1809 | every step of driver, worker, signal source and clock keeps the channel, history, write and clock invariants |
| `CancellationProtocol.NoLostWakeUp` | crates/machine-god-core/src/cancel.rs:58-74 | once the winning cancel has returned, every live future whose last poll was Pending has had the waker of that poll woken, in every interleaving and with identifier reuse |
| `CancellationProtocol.ExactlyOneCancelWins` | crates/machine-god-core/src/cancel.rs:58-74 | at most one cancel returns true, and a cancelled token has exactly one winner |
| `CancellationProtocol.PendingPrecedesEveryWake` | crates/machine-god-core/src/cancel.rs:169-186 | a poll returns Pending only while nothing has been woken, so the promised wake-up is later than the poll |
| `CancellationProtocol.WaitingIsAlwaysReachable` | crates/machine-god-core/src/cancel.rs:91-131 | a waiting future is in the registry, on the list of the winner, or already woken |
| `CancellationProtocol.RegistryMatchesFutures` | crates/machine-god-core/src/cancel.rs:91-146 | until a cancellation, registry keys and registered live futures are in bijection, and dropped futures hold no key |
| `CancellationProtocol.LateRegistrantWakesItself` | crates/machine-god-core/src/cancel.rs:127-131 | a registrant that comes after the flag was set has woken its own waker when it rests |
| `CancellationProtocol.ReusedIdentifierCanBeEvicted` | crates/machine-god-core/src/cancel.rs:133-146 | the identifier of a late registrant can be evicted by its old holder: a concrete run reaches that state |
| `CancellationProtocol.StepKeepsInv` | crates/machine-god-core/src/cancel.rs:58-146 | every atomic step (flag swap, take, insert, second load, deregister, wake) keeps the invariant |
| `WaiterRegistries.VacantOffsetBound` | crates/machine-god-core/src/cancel.rs:30-45 | the probe ends within entries + 1 probes on an unused identifier across wrap-around, and fails exactly when the whole space is occupied |
| `WaiterRegistries.WaiterRegistry.VacantId` | crates/machine-god-core/src/cancel.rs:30-45 | the probing loop computes that search and advances the next identifier past the one found |
| `WaiterRegistries.WaiterRegistry.Register` | crates/machine-god-core/src/cancel.rs:98-124 | the locked part of register on the stored map and next identifier |
| `WaiterRegistries.RegisteredMeaning` | crates/machine-god-core/src/cancel.rs:98-124 | a registration keeps its key or takes an unused one and changes no other entry |
| `WaiterRegistries.WaiterRegistry.Deregister` | crates/machine-god-core/src/cancel.rs:133-146 | the locked part of deregister |
| `WaiterRegistries.WaiterRegistry.Take` | crates/machine-god-core/src/cancel.rs:62-69 | the locked part of cancel takes every waiter |
| `TrashLeases.OwnershipIsExclusive` | scripts/provision_zig.py:521-669 | with failures and crashes at any step, no trash has two owners, and the trees without a lease file are exactly the strays, trees whose constructor failed after making them; a check fails only if some constructor failed so |
| `TrashLeases.OnlyStraysFailChecks` | scripts/provision_zig.py:553-669 | of all the lease, tree-identity and fresh-entry checks exactly one can fail: a claimer that opens the lease of a stray |
| `TrashLeases.TreesAreLeasedWithoutLateFailures` | scripts/provision_zig.py:521-545 | unless a constructor fails between making its tree and returning it, every tree has its lease and no integrity check fails |
| `TrashLeases.LateFailureLeavesAnUnclaimableTree` | scripts/provision_zig.py:539-543 | a run in which a constructor fails after mkdir and is killed between the unlink and the rmtree: the next claimer finds the lease missing |
| `TrashLeases.StraysStay` | scripts/provision_zig.py:539-543 | a stray arises only when a failed constructor unlinks its lease, and ends only when that constructor deletes it or a lease of the same name is created |
| `TrashLeases.OnlyOwnersDelete` | scripts/provision_zig.py:521-694 | a tree disappears only by its owner, or by a failed constructor clearing the stray of its name; a lease file only under the coordination lock, either with no tree left and under its own lock, or by its failed constructor when nobody holds it |
| `TrashLeases.LiveRunIsNeverDetached` | scripts/provision_zig.py:849-914 | no step of another process moves the extraction directory of a live run |
| `TrashLeases.LocksBelongToLiveProcesses` | scripts/provision_zig.py:553-669 | every locked lease file is held by a live process that accounts for it |
| `TrashLeases.AbandonedTreeIsClaimable` | scripts/provision_zig.py:553-620 | a process in the coordination lock can claim any tree whose lease is free, in four steps of its own |
| `TrashLeases.OrphanLeaseIsRetirable` | scripts/provision_zig.py:623-669 | and retire any free lease without a tree |
| `TrashLeases.CrashLeavesTreesClaimable` | scripts/provision_zig.py:671-694 | a crash of the owner leaves the tree with a free lease |
| `ClaimWindow.ClaimAbandonedTrash` | scripts/provision_zig.py:553-620 | the loop fails exactly when it meets a stray before its batch is full, and then holds nothing; otherwise it has claimed the first abandoned trees of the window in order and holds exactly their leases, while others delete |
| `ClaimWindow.OthersOnlyDelete` | scripts/provision_zig.py:553-694 | while a process holds the coordination lock, no step of another changes leases or strays, adds a tree or takes a lock |
| `ClaimWindow.StrayAbortsThePass` | scripts/provision_zig.py:553-620 | a stray among the first names of a window, as many as a batch, always makes the pass fail |
| `TrashLeases.StepRespects` | scripts/provision_zig.py:849-937 | no step of another process changes what a lock protects |
| `TrashLeases.StepKeepsInv` | scripts/provision_zig.py:963-1118 | every step of every process, failing constructors of trash and of active leases and crashes included, keeps the cache invariant |
| `ScanCursor.LastCompleteWriteSurvives` | scripts/provision_zig.py:762-790 | over any history of whole and torn writes, with tears anywhere, the file reads as the last write that left its record whole, or as it first did, and each such write takes one generation |
| `ScanCursor.CompleteWriteIsRead` | scripts/provision_zig.py:775-790 | a complete write of at most 511 encoded bytes is what the next read returns |
| `ScanCursor.TornWriteIsHarmless` | scripts/provision_zig.py:775-790 | a torn write leaves the previous cursor, or the legacy text, and the newest record, unless it lands, and then the new cursor is in force as after a whole write |
| `ScanCursor.LandsExactly` | scripts/provision_zig.py:725-790 | with nothing assumed of the checksum: the new record is in the file if and only if the bytes not reached agree with it outside the padding |
| `ScanCursor.TearShowsOldRecord` | scripts/provision_zig.py:750-790 | after any number of tears, a slot that shows the record it last held whole has not been changed |
| `ScanCursor.TearInsideMagic` | scripts/provision_zig.py:775-790 | a tear inside the magic over an older record changes no byte |
| `ScanCursor.ShortWriteCanLand` | scripts/provision_zig.py:788-790 | for every digest and cursor there is a file on which a write short of one byte, which the script reports as a failure, puts the new cursor in force |
| `ScanCursor.DamagedRecordCanReturn` | scripts/provision_zig.py:775-790 | the assumption on the checksum is needed: over a file with a damaged record, a tear can bring that record back |
| `ScanCursor.WriteIsReadBackExactlyWithinLimit` | scripts/provision_zig.py:713-747 | a written cursor is read back exactly if and only if it is within 511 bytes |
| `ScanCursor.DecodeInvertsEncode` | scripts/provision_zig.py:713-747 | decoding inverts encoding; an oversized cursor survives only as a valid prefix |
| `ScanCursor.OtherSlotKept` | scripts/provision_zig.py:750-790 | a write to one slot leaves the other record as it was |
| `ScanCursor.LegacyKept` | scripts/provision_zig.py:762-773 | before the first record a write keeps the legacy text readable |
| `ScanCursor.ReadIsBounded` | scripts/provision_zig.py:762-773 | no read returns more than the payload limit |
| `ScanCursor.CursorFile.CursorRecords` | scripts/provision_zig.py:750-759 | the slot loop collects exactly the complete records |
| `ScanCursor.CursorFile.ReadCursor` | scripts/provision_zig.py:762-773 | the read of the file as a method computes the read function |
| `ScanCursor.CursorFile.WriteCursor` | scripts/provision_zig.py:775-790 | the write updates the file in place, whole or short, reports success exactly for a whole write, and fails exactly when generations are exhausted |
| `Rotation.EveryNameIsCovered` | scripts/provision_zig.py:793-846 | a name that stays present is in one of the next ceil(n / limit) windows, from any cursor, while other names disappear |
| `Rotation.WindowHasNoRepeats` | scripts/provision_zig.py:793-846 | no window repeats a name |
| `Rotation.MissedWindowMakesProgress` | scripts/provision_zig.py:793-846 | a window that misses a name brings the cursor a whole window closer to it |
| `Rotation.PositionInRotation` | scripts/provision_zig.py:793-846 | the names the rotation puts before a name are those a walk up from the cursor and around meets before it |
| `Rotation.Scan.RotatingWindow` | scripts/provision_zig.py:793-810 | the window and the stored cursor after it, with the empty cases |
| `ScanFairness.StoredCursorIsFair` | scripts/provision_zig.py:697-846 | over the two-slot file with torn writes between windows, a name of at most 511 encoded bytes that stays present is in the window of one of the next ceil(n / limit) calls that move the cursor |
| `ScanFairness.EveryNameIsReturned` | scripts/provision_zig.py:793-846 | unless a short write lands, a name that stays present is returned by one of the next ceil(n / limit) calls that succeed, with any number of failed ones between |
| `ScanFairness.LandedTearLosesItsWindow` | scripts/provision_zig.py:793-846 | for every name there is a file on which a short write lands and its window is not returned |
| `CacheCapacity.OrderlyCleanupNeverFails` | scripts/provision_zig.py:1078-1096 | when no admission is refused, no section is cut short and no fixed entry is created, no cleanup of an owner fails its capacity check |
| `CacheCapacity.CleanupFindsRoom` | scripts/provision_zig.py:1078-1096 | in every run, sections killed or refused half-way included, a cleanup finds room while twice the active runs exceed the unaccounted entries by two |
| `CacheCapacity.StarvationIsExact` | scripts/provision_zig.py:986-1096 | for every number of fixed entries, active runs and unaccounted entries: a run that ends so and without room exists if and only if that condition fails, the counts fit, and the runs could be admitted |
| `CacheCapacity.StarvationWithinReserve` | scripts/provision_zig.py:986-1096 | with at most 30 fixed entries only the first condition and the two capacities are left |
| `CacheCapacity.RefusalsCanStarveCleanup` | scripts/provision_zig.py:986-1052 | refused admissions alone can fill the root and fail a cleanup |
| `CacheCapacity.StepMovesPotential` | scripts/provision_zig.py:986-1052 | a successful admission ends within capacity, cleanup leaves the potential unchanged, deletion and retirement lower it, a refused admission or an interrupted section adds exactly what it leaves unaccounted |
| `CacheCapacity.PotentialIsBounded` | scripts/provision_zig.py:671-694 | over every run the potential exceeds the capacity by no more than the unaccounted entries, those of killed sections included |
| `ChildSupervisor.GroupIsSignalledOnlyWhileReserved` | benchmarks/with_zig.py:234-306 | with handlers between any two statements, and whether or not the fallback kill may reap, every group signal is sent while the unreaped anchor reserves the number, unless a signal arrives right after a fallback that reaped the anchor of a joined child with no signal caught before |
| `ChildSupervisor.RunAlike` | benchmarks/with_zig.py:261-272 | a fallback kill that reaps changes nothing else: every run agrees with one whose fallback does not reap, but for the anchor and stray signals |
| `ChildSupervisor.EveryExposureCanStray` | benchmarks/with_zig.py:261-272 | and that exception is exact: every run that stands before such a fallback can end with a stray signal |
| `ChildSupervisor.CaughtSignalIsForwardedExactlyOnce` | benchmarks/with_zig.py:70-102 | a caught signal is forwarded at most once, and exactly once when the child has joined and authority is open, whatever the fallback kill does |
| `ChildSupervisor.ReapingFallbackBreaksReservation` | benchmarks/with_zig.py:289-306 | a concrete run reaches such a fallback, and a group that is no longer reserved is signalled |
| `ChildSupervisor.StepKeepsInv` | benchmarks/with_zig.py:234-306 | every statement of the run and of nested handlers keeps the authority, frame and count invariants |
| `ChildSupervisor.StepKeepsOnce` | benchmarks/with_zig.py:337-476 | every statement keeps the invariant that a caught signal is on its way exactly once |
| `Descendants.LinuxDescendantProcesses` | benchmarks/upstream.py:1998-2051 | the search returns without repetition exactly the least set that contains the seeds and is closed under parent links, and reports the limit exactly when that set is larger, with exactly that many discovered and a member that is not |
| `Descendants.ClosureIsLeast` | benchmarks/upstream.py:1998-2051 | the reference set is contained in every closed set that contains the seeds |
| `Descendants.Search` | benchmarks/upstream.py:2024-2051 | the search reaches the closure and stops at the limit, cyclic parent links included |
| `Descendants.AdmitIdentity` | benchmarks/upstream.py:2033-2041 | the process of an identity is admitted if the table still holds it, start time included, unless the limit is reached |
| `Descendants.AdmitAll` | benchmarks/upstream.py:2042-2043 | a list of processes is admitted in order, all of them or up to the limit |
| `Descendants.Expand` | benchmarks/upstream.py:2045-2051 | the cursor loop leaves no process of the frontier with a child outside it, or stops at the limit |
| `Descendants.Index` | benchmarks/upstream.py:2009-2019 | the table loop fills the children of every process and the newly adopted ones |
| `Descendants.Admit` | benchmarks/upstream.py:2024-2031 | one admission adds an identity at most once and stops at the limit |
| `ZigMask.MaskIsIdempotent` | scripts/generate_compatibility.py:257-347 | an accepted mask is accepted again and unchanged |
| `ZigMask.MaskKeepsOffsets` | scripts/generate_compatibility.py:257-347 | the mask has the length of the source and every line break in place, and no other |
| `ZigMask.MaskMeaning` | scripts/generate_compatibility.py:262-347 | the mask agrees at every offset with an independent reading of the source one character at a time |
| `ZigMask.QuotedNames` | scripts/generate_compatibility.py:303-325 | a quoted name is spelled out exactly when it could stand without quotes, else it becomes a run of x |
| `ZigMask.SourceMask` | scripts/generate_compatibility.py:257-347 | the index loop over a mutable character list computes the mask, with the error of the first token that fails |
| `ZigMask.MaskToken` | scripts/generate_compatibility.py:267-347 | one turn of the loop masks exactly one token in place and nothing else |
| `ZigMask.MaskIdentifier` | scripts/generate_compatibility.py:303-325 | the quoted-identifier loop in place |
| `ZigMask.MaskLiteral` | scripts/generate_compatibility.py:326-344 | the literal loop in place, escapes honoured |
| `ZigMask.MaskComment` | scripts/generate_compatibility.py:269-284 | the comment and multiline-literal loop in place |
| `Brackets.CountingFindsTheCloser` | scripts/generate_compatibility.py:470-484 | on accepted text, counting braces finds a position if and only if the three-kind stack pops the opening brace there |
| `Brackets.MatchedBrace` | scripts/generate_compatibility.py:513-516 | the brace found closes one deeper than it opened, and the text is back at the opening depth after it |
| `Brackets.AcceptedBraceIsClosed` | scripts/generate_compatibility.py:470-484 | on accepted text the matcher never runs out |
| `Brackets.BlockDepths` | scripts/generate_compatibility.py:539-543 | the depths of a block less its base depth are the depth map of the block itself |
| `Brackets.StructuralDepthMap` | scripts/generate_compatibility.py:639-654 | the map is produced exactly for accepted text and holds the number of open brackets at every offset |
| `Brackets.FindMatchingBrace` | scripts/generate_compatibility.py:470-484 | the loop returns the first place where the braces balance, or reports that none exists |
| `Brackets.RootStructBlocks` | scripts/generate_compatibility.py:525-557 | blocks are returned if and only if the text is a nonempty run of comma-terminated struct literals; both scope rejections and the unterminated case are unreachable |
| `Brackets.ReadEntry` | scripts/generate_compatibility.py:530-555 | one entry is read exactly when one stands there, and the next begins at top level again |
| `Brackets.SkipSpace` | scripts/generate_compatibility.py:519-522 | white space is skipped exactly |
| `Declarations.DeclarationsDoNotOverlap` | scripts/generate_compatibility.py:487-503 | two places where the declaration pattern matches never overlap |
| `Declarations.FindDeclarations` | scripts/generate_compatibility.py:500 | the search, which resumes after each match, finds every place where the pattern matches |
| `Declarations.InitializerBody` | scripts/generate_compatibility.py:487-516 | a body is returned if and only if the text declares the registry exactly once, at top level; it is the inside of that brace and itself balanced; which of three errors is reported otherwise; a missing initializer and both scope rejections are unreachable |
| `Brackets.BodyOfMatches` | scripts/generate_compatibility.py:500-516 | the same for any list of matches: exactly when a body is returned, which one, and that the rejection on the closing brace is unreachable |
| `CodeSpan.CodeSpanRoundTrip` | scripts/generate_compatibility.py:1407-1414 | reading the span under section 6.1 of the CommonMark specification gives back the escaped text if and only if the value holds something other than spaces and line breaks |
| `CodeSpan.CodeSpanShowsTheValue` | scripts/generate_compatibility.py:1407-1414 | the reader sees the value itself if and only if it is not blank and holds none of the characters that are escaped or replaced |
| `CodeSpan.ClosesAtTheEnd` | scripts/generate_compatibility.py:1409-1411 | no backtick run inside closes the span early |
| `CodeSpan.CodeSpanIsOneCell` | scripts/generate_compatibility.py:1408-1409 | the span contains no line break and no cell separator |
| `Timestamp.WriteTimestamp` | crates/machine-god-cli/src/sessions.rs:515-561 | in range, the text shows a valid date and time of 1970 to 9999 that recombines, by a closed-form day count, to exactly the given value; out of range it is unknown |
| `Timestamp.TextOrderIsTimeOrder` | crates/machine-god-cli/src/sessions.rs:553-561 | texts compare exactly as the values compare |
| `Timestamp.SplitYear` | crates/machine-god-cli/src/sessions.rs:520-530 | the year loop ends within the four-digit years on the year that holds the day |
| `Timestamp.SplitMonth` | crates/machine-god-cli/src/sessions.rs:531-552 | the month loop ends on a valid month and day |
| `Timestamp.YearStep` | crates/machine-god-cli/src/sessions.rs:563-565 | the closed-form day count grows by the length of each year |
| `JsonText.JsonStringRoundTrip` | crates/machine-god-cli/src/main.rs:703-731 | a decoder written from section 7 of RFC 8259 gives back exactly the value |
| `JsonText.ContentIsSafe` | crates/machine-god-cli/src/main.rs:709-731 | no control, bidirectional or separator character is emitted |
| `JsonText.ContentBytes` | crates/machine-god-cli/src/main.rs:709-731 | at most six bytes are emitted for each byte of the value |
| `JsonText.JsonStringBytes` | crates/machine-god-cli/src/main.rs:703-707 | and two more for the quotation marks |
| `JsonText.WriteJsonStringContent` | crates/machine-god-cli/src/main.rs:709-731 | the character loop writes the encoded text and succeeds exactly when it fits; a failure leaves a prefix of it, which may end inside an escape |
| `JsonText.WriteJsonString` | crates/machine-god-cli/src/main.rs:703-707 | the quoted form, with the same exact condition |
| `Output.BoundedOutput.WriteStr` | crates/machine-god-cli/src/bounded_output.rs:27-36 | a write succeeds exactly when it fits, and a failed write changes nothing |
| `Output.BoundedOutput.WriteAll` | crates/machine-god-cli/src/bounded_output.rs:27-36 | a run of writes succeeds exactly when the whole text fits; otherwise a proper prefix of the pieces is staged |
| `SessionsPage.RenderSessions` | crates/machine-god-cli/src/sessions.rs:278-291 | a snapshot is rendered, whole and within the limit, if and only if it is valid, in either format |
| `SessionsPage.JsonPageFits` | crates/machine-god-cli/src/sessions.rs:354-406 | every valid page fits in MAX_OUTPUT_BYTES as JSON |
| `SessionsPage.HumanPageFits` | crates/machine-god-cli/src/sessions.rs:407-466 | every valid page fits in MAX_OUTPUT_BYTES in the human format |
| `SessionsPage.Validate` | crates/machine-god-cli/src/sessions.rs:292-324 | comparing neighbours decides exactly whether the page is valid: rows within limits, strictly descending throughout, cursor naming the last row |
| `SessionsPage.WorkspaceSize` | crates/machine-god-cli/src/sessions.rs:325-335 | a workspace and its hexadecimal form together stay within the room of a text |
| `SessionsPage.CursorLength` | crates/machine-god-native/src/session_catalog_cursor.rs:61-68 | the cursor text of a valid identifier takes at most 240 bytes, so the bound needs no assumption on it |
| `Recording.Parse` | crates/machine-god-cli/src/recording_launch.rs:6-22 | the streaming parse computes the declarative meaning, for every parser that pulls its arguments |
| `Recording.MeaningIsExact` | crates/machine-god-cli/src/recording_launch.rs:6-22 | recorded exactly when the arguments are an accepted interactive command followed by one final modifier; unrecorded exactly when there is no modifier and the command is accepted with nothing unread |
| `Recording.RecordingArguments.Next` | crates/machine-god-cli/src/recording_launch.rs:30-45 | the adapter as a class computes one pull |
| `Recording.OutcomeIsMeaning` | crates/machine-god-cli/src/recording_launch.rs:12-21 | whenever the parser stops, early or late, the final checks decide the meaning |
| `LaunchGrammar.InteractiveForms` | crates/machine-god-cli/src/main.rs:427-500 | the launcher reads a list of words as an interactive launch, and which one, exactly when it has one of the listed forms |
| `LaunchGrammar.RecordedLaunches` | crates/machine-god-cli/src/main.rs:427-635 | a launch is recorded exactly when it is such a form followed by one final modifier, and an unrecorded one has no modifier |
| `LaunchGrammar.GrammarStops` | crates/machine-god-cli/src/main.rs:427-635 | the launcher stops pulling arguments once they have ended, from every point of its grammar |
| `LaunchGrammar.Launch` | crates/machine-god-cli/src/recording_launch.rs:6-22 | the streaming parse of this command line is recorded exactly for those launches, with nothing assumed of the arguments |

## Left out

- Downloading, hashing, archive extraction, executable pinning, Git, `/proc` and pidfd access: foreign calls that enter the models as steps or parameters.
- Host composition, model catalog, MCP servers, skills, permissions and everything else in the native crate: wiring around the modelled core.
- The contents of output acknowledgements and the recording tape: an acknowledgement is success or failure.
- Scheduling fairness and real time: only the grace deadline is modelled, by a clock that cannot pass a pending deadline.
- The JavaScript branch of the masker, and the field and enum parsers above the registry reader: one-branch checks over masked text.
- Evidence validation of the benchmarks and the inventory checks: long conjunctions of field tests.
- Liveness of the supervisor's cleanup: an exception raised just before it begins can skip it, so only safety is claimed.
- TrashLeases.StepKeepsInv: models directories, trees and leases as values with identities in a store, so file modes and path aliasing are not captured.
- AskRun.FirstSignalDecidesExitCode: runs with no turn activation after the final phase and with open listeners and control channel; the failures of those are in `SignalGuardian.GuardianState.Poll` only. An unwind of the thread that serves output is not a step: it unwinds the whole command.
- ScanCursor.TornWriteIsHarmless: assumes that a slot which passes its checksum holds the record last written whole to it or the one being written; a hash of fixed size cannot exclude accidents.
- ClaimWindow.ClaimAbandonedTrash: other processes act between two names of the window, not between the steps for one name; those steps are interleaved in `TrashLeases`.
- LaunchGrammar.RecordedLaunches: whether `ask`, `sessions`, `workspace`, maintenance and prompt tails are accepted is a parameter; those commands are never interactive, so no recorded launch depends on it.
- Declarations.InitializerBody: the pattern is the form all callers use, `pub const NAME = VALUE {` with an optional list marker, for names and values without white space, brackets or equals signs.
- Waker cloning and panics of foreign wakers in the cancellation token: no effect on the registry.
