# Verification model of lab-scopes

A Dafny model of the parts of `lab_scopes` that talk to instruments which answer in
arbitrary pieces and at arbitrary moments, with proofs about every such behaviour.
`dafny verify dfyconfig.toml` checks it.

Instruments, sockets and clocks appear as values chosen freely: lists of receive
events, scripts of instrument steps after every driver command, sequences of counter
readings, functions from request to reply. A theorem without a hypothesis on them holds
for all of them. Time is the order of events; a deadline is the point where a list of
events ends, or a flag on one of its entries.

| file | models |
|---|---|
| `Common.dfy` | byte strings, `bytes.find`, option and result types |
| `TmcBlock.dfy` | IEEE 488.2 definite-length blocks (section 8.7.9 of IEEE 488.2-1992) and the receive loop of `command` |
| `RigolRead.dfy`, `RigolFacts.dfy`, `RigolExactness.dfy`, `RigolWindows.dfy`, `RigolCost.dfy` | the DHO800 memory read: the loop as code, formats, codes, refusals and retries, what it returns, exactly which instruments it is right for, and what it costs |
| `Leftovers.dfy` | bytes of earlier replies that are still on the socket |
| `TriggerBench.dfy`, `ArmingFacts.dfy`, `ShotProtocol.dfy`, `LoneScope.dfy`, `ReadyTrust.dfy`, `HealthyRun.dfy` | LeCroy arm, ready and completion calls on a bench of a master and its slaves; one scope; runs of many shots; when they stay in step; when a confirmation can be trusted; benches on which every run succeeds |
| `SweepWait.dfy`, `ChannelProbe.dfy` | waiting for averaged sweeps; channel counting and trace discovery |
| `Vicp.dfy` | VICP framing and transport |
| `Telnet.dfy` | the patched telnetlib: queues, IAC decoder, `read_until` twice |
| `Wavedesc.dfy`, `WavedescFields.dfy`, `SequenceMode.dfy`, `SequenceBytes.dfy` | the waveform descriptor, where its fields lie, and segmented acquisition, also told from the response bytes alone |
| `ShotArchive.dfy` | the per-shot and the many-shot readers of HDF5 archives |

Methods are proved against a function of the same behaviour (`Receive` against `Outcome`,
`ReadFullWaveform` against `Run`, the bench calls against `Arm`, `WaitReady` and so on);
lemmas then prove what those functions guarantee. The source's `LeCroyScope` appears in
three modules, each time with the state its calls use: trigger bench, sweep counter, error
register.

## Where the code falls short of what it is for

Each of these is proved: when the property holds, exactly, and a failing run or input.

- The completion wait is fresh exactly when the arm's CLEAR_SWEEPS takes effect.
  `tests/test_lecroy_averaging_real.py:169-175` records that hardware in STOP ignores it;
  then a counter left above 0 makes the next wait succeed at once
  (`FreshExactlyWhenClearWorks`, `StaleCompletion`). Shots with at least one slave do not
  suffer from it, since a slave reads STOP only after its pulse; a lone scope does
  (`InStepExactlyWhenDependable`, `SecondShotIsStale`).
- A ready confirmation counts any ready event since the last `INR?`. It can be trusted
  exactly from a settled slave that no pulse can reach: no ready bit latched, engine
  neither arming nor running free, nothing pending but a stop, no pulse on its way and
  the master at rest (`TrustedExactlyWhenSettled`, `ConfirmedTooEarly`,
  `ConfirmedTooLate`). A clear latch alone is not enough: a confirmation that timed out
  leaves the engine arming, and the next attempt can be confirmed by that
  (`RetryConfirmedTooEarly`). The protocol theorem starts from such slaves, and every
  confirmed shot leaves them so.
- The averaging wait gives up waiting for its CLEAR_SWEEPS after 10 seconds, and skips
  that when the first reading is at most 1; either way it may return the previous average
  (`NewExactlyWhenDeadlineOutlastsClear`, `OldCountsReturned`).
- Without `verify_window`, firmware that moves the start of a window shifts the record
  (`UnverifiedExactlyWhenStartsKept`, `ShiftGoesUnnoticedUnlessVerified`).
- `read_channel` rejects short records only (`src/lab_scopes/rigol/dho800.py:498`);
  a reply that overruns the record is returned (`LengthExactWhenBoundFits`,
  `SurplusIsAccepted`).
- A block request that raised leaves its block on the socket, which `command` does not
  drain, so the next block request may take it for its own, and so on without end
  (`SafeExactlyWhenHarmless`, `StaleEverAfter`). Repeated `screen_png` calls
  (`src/lab_scopes/rigol/dho800.py:569-573`) are such requests; `read_channel` makes text
  queries first (`src/lab_scopes/rigol/dho800.py:451-479`), which read those bytes.
- Trace discovery clears the error register once, so a name that follows an unanswered
  rejection is dropped (`DiscoveryExactIffNoneBlamed`, `ValidNameDropped`).
- The Telnet decoder raises TypeError on any option byte, since it indexes the integers
  DO..WONT (`CrashesExactlyOnOption`, `OptionByteCrashes`), and `c == SB` compares an
  integer with a bytes object, so subnegotiation is never entered.
- A negative wave_array_1 is read by numpy as everything that follows, and `time_array`
  then raises (`TimeArrayFitsSegments`, `NegativeCountAcquired`).
- The decode-once reader assumes one scaling per channel (`RowAgreesExactly`,
  `WrongVolts`), and fills rows for shots whose own header is unusable
  (`FilledWithoutHeader`).

Two remarks on the code itself:

- `_read_block` raises on a declared length of 0
  (`src/lab_scopes/rigol/dho800.py:204-205`), so over the wire the retry branch
  (`src/lab_scopes/rigol/dho800.py:401-409`) is reached only by blocks shorter than a
  point. The loop is proved for scripted block readers that may return no points, and
  then composed with the real one.
- `src/lab_scopes/lecroy/wavedesc.py:20` says 63 entries; the list and the format have
  62. Line 54 there says `=` asks for C alignment; it asks for none. The model follows
  the code, with little-endian as the native order.

## Model

| member | source | states |
|---|---|---|
| `RigolRead.Pass` | src/lab_scopes/rigol/dho800.py:378-419 | every pass that goes on either moves past new points or spends one retry on the same window: the measure (points left, retries left) falls for any instrument |
| `RigolRead.RigolDHO800.ReadFullWaveform` | src/lab_scopes/rigol/dho800.py:350-419 | the loop over `chunks`, `start`, `window`, `first` and `empty_tries` computes `Run`, about which the rest is proved, and `log` holds its DATA? requests |
| `RigolRead.RigolDHO800.ReadBlock` | src/lab_scopes/rigol/dho800.py:193-206 | one block read: scripted, or the receive loop and header checks on that request's socket events |
| `RigolRead.RigolDHO800.ReadChannel` | src/lab_scopes/rigol/dho800.py:424-542 | the checks around the read in source order, each with its own error, the format name stripped and upper-cased, and otherwise the codes with their voltages and times |
| `RigolRead.ConversionIsFaithful` | src/lab_scopes/rigol/dho800.py:507-513 | a sample is at 0 V exactly when its code is yOrigin + yReference, a code higher by d is d yIncrements higher, equal voltages mean equal codes; sample xReference is at xOrigin and times are xIncrement apart |
| `RigolFacts.FormatTaken` | src/lab_scopes/rigol/dho800.py:455-460 | a format name is taken as WORD or BYTE if and only if it spells that word, in any mixture of cases, between white space |
| `RigolFacts.LowerCaseTaken` | src/lab_scopes/rigol/dho800.py:455-460 | for instance ' word', and 'byte' before a tab and a line feed |
| `RigolFacts.WordCodes` | src/lab_scopes/rigol/dho800.py:420-505 | every success of a WORD request has one code per two payload bytes, low byte first |
| `RigolFacts.ByteCodes` | src/lab_scopes/rigol/dho800.py:420-505 | and of a BYTE request one code per byte |
| `RigolFacts.RefusedBeforeReading` | src/lab_scopes/rigol/dho800.py:455-492 | the first of these decides: an unknown format, a scope not stopped, no positive memory depth, missing calibration; each refusal exactly for its own reason |
| `RigolFacts.RefusedAfterReading` | src/lab_scopes/rigol/dho800.py:493-501 | after the read exactly: it raised, less than a point, fewer points than the memory depth, or a success |
| `RigolFacts.FourthEmptyReplyEnds` | src/lab_scopes/rigol/dho800.py:401-409 | a third empty reply in a row is still retried with the same window, a fourth ends the read with what it has |
| `RigolRead.CodesOfMemory` | src/lab_scopes/rigol/dho800.py:503-505 | turning the instrument's bytes into codes inverts its one- or two-byte little-endian layout |
| `RigolExactness.PassKeepsExact` | src/lab_scopes/rigol/dho800.py:383-419 | loop invariant: joined chunks are the first `start - 1` points, for every transfer size including half points and empty blocks, if the next window is verified or keeps its start |
| `RigolExactness.ReadsExactPrefix` | src/lab_scopes/rigol/dho800.py:378-419 | the read yields a whole-point prefix of the record or raises, if the instrument serves data from the window in force and no window's start is moved, or the read verifies windows |
| `RigolExactness.ChannelIsExactOrError` | src/lab_scopes/rigol/dho800.py:424-542 | `read_channel` gives exactly the codes in memory or an error: never a short, gapped, repeated or shifted record; with `verify_window` even if firmware alters windows |
| `RigolExactness.LivelyChannelSucceeds` | src/lab_scopes/rigol/dho800.py:378-419 | it succeeds with those codes when no request fails, no window stays empty four times running (the retry budget is reset by progress), and every request is steady: with `verify_window` it reads back as asked, without it only the start of the window in force is kept |
| `RigolExactness.WireReplyIsGenuine` | src/lab_scopes/rigol/dho800.py:193-206 | a block accepted from a truthful transmission carries the window's leading bytes, under every chunking, fault, idle period, cut-off and deadline, behind any harmless leftovers |
| `RigolExactness.EndToEndExactness` | src/lab_scopes/rigol/dho800.py:350-542 | the composed stack, instrument memory to returned codes over TCP chunks and leftovers of earlier replies: exact record or an error |
| `RigolExactness.EndToEndSuccess` | src/lab_scopes/rigol/dho800.py:350-542 | the composed stack succeeds with the codes in memory when requests are steady in that sense and each block arrives before the receiver's limits behind leftovers without '#' (with one, harmless leftovers make it refuse: `Leftovers.MarkedLeftovers`), whatever the chunk boundaries and transfer sizes |
| `RigolCost.RequestsTile` | src/lab_scopes/rigol/dho800.py:383-419 | for any instrument: each request starts where the points so far end, inside the record, and the payload's length is the sum of the points |
| `RigolCost.TilesPointwise` | src/lab_scopes/rigol/dho800.py:383-419 | request by request: request i starts directly behind the points of request i-1 and the first at point 1 |
| `RigolWindows.UnverifiedExactlyWhenStartsKept` | src/lab_scopes/rigol/dho800.py:384-394 | without `verify_window`: for a firmware map of windows, every truthful instrument with it gives the exact record or an error, if and only if the map keeps the start, inside the record, of every window that can be asked for |
| `RigolWindows.LengthExactWhenBoundFits` | src/lab_scopes/rigol/dho800.py:494-501 | for a bound on the points per window, every instrument within it gives exactly the declared length when it gives any, if and only if no reachable window can be answered past the record's end |
| `RigolCost.SurplusIsAccepted` | src/lab_scopes/rigol/dho800.py:498-501 | a run in which three points are returned for a depth of two |
| `Leftovers.HarmlessIsSafe` | src/lab_scopes/transports/rigol_functions.py:47-113 | behind harmless leftovers, whatever part of a sent block arrives is refused or is that block, and then all of it has arrived |
| `Leftovers.SafeExactlyWhenHarmless` | src/lab_scopes/transports/rigol_functions.py:47-113 | leftovers on the socket, which `command` does not drain: every next block is refused or read as sent, if and only if the leftovers hold no block with a payload that ends well or lacks four bytes or more |
| `Leftovers.CleanLine` | src/lab_scopes/rigol/dho800.py:383-542 | successive block requests and text queries on one connection, in one read or several: as long as each block request was answered, the next is refused or gets its own block, whatever part of the replies the text queries in between read |
| `Leftovers.StaleEverAfter` | src/lab_scopes/rigol/dho800.py:193-206 | block requests made one after the other, such as repeated `screen_png`: after one that heard nothing until its limit, a run of any length in which each gets the block of the one before (`read_channel` makes text queries first, and they read those bytes) |
| `Leftovers.MarkedLeftovers` | src/lab_scopes/transports/rigol_functions.py:65-113 | behind harmless leftovers that hold a '#' the next block is refused |
| `RigolCost.ShiftGoesUnnoticedUnlessVerified` | src/lab_scopes/rigol/dho800.py:387-394 | a truthful instrument that moves a window: a shifted record as success without `verify_window`, an error with it |
| `RigolCost.RequestsAreBounded` | src/lab_scopes/rigol/dho800.py:378-419 | at most (s + 1)(R + 1) requests with s productive reads and R retries, for any instrument |
| `RigolCost.CappedRead` | src/lab_scopes/rigol/dho800.py:412-418 | against a constant cap c the windows tile 1..n and exactly ceil(n/c) requests are made |
| `RigolCost.CeilDivIsCeiling` | src/lab_scopes/rigol/dho800.py:412-418 | the count in `CappedRead` is the least q with n <= q c |
| `TmcBlock.Receive` | src/lab_scopes/transports/rigol_functions.py:50-113 | the receive loop with its growing and trimmed `response` computes `Outcome` for every list of chunks, idle polls and swallowed exceptions |
| `TmcBlock.ChunkArrives` | src/lab_scopes/transports/rigol_functions.py:65-72 | trimming to '#' as bytes arrive keeps `response` at the first '#' of the whole stream |
| `TmcBlock.CompleteIsFinal` | src/lab_scopes/transports/rigol_functions.py:74-83 | once a stream holds a whole block, appending bytes never changes the answer |
| `TmcBlock.NeverWrong` | src/lab_scopes/transports/rigol_functions.py:61-113 | whatever limits are hit, an accepted block is the one the whole received stream determines |
| `TmcBlock.ChunkingIrrelevant` | src/lab_scopes/transports/rigol_functions.py:61-113 | if a whole block arrives before the limits, the answer is a function of the concatenated bytes alone |
| `TmcBlock.SameBytesSameAnswer` | src/lab_scopes/transports/rigol_functions.py:61-113 | two deliveries of the same bytes in different pieces give the same answer |
| `TmcBlock.SilenceRefuses` | src/lab_scopes/transports/rigol_functions.py:84-90 | silence past the idle limit before the header is in refuses, whatever was still to come; any other pass without bytes, and a swallowed exception, change nothing |
| `TmcBlock.DecodeEncode` | src/lab_scopes/transports/rigol_functions.py:92-113 | a block sent behind noise without '#' and followed by anything is returned exactly; a wrong terminator is an error |
| `TmcBlock.DigitsRoundTrip` | src/lab_scopes/transports/rigol_functions.py:172-184 | the declared length is the number the sender wrote |
| `TmcBlock.AcceptedExactlyWhenFramed` | src/lab_scopes/transports/rigol_functions.py:92-113 | a stream yields block b if and only if b, well formed by an independent definition, stands at its first '#' |
| `TriggerBench.LeCroyScope.SetTriggerMode` | src/lab_scopes/lecroy/scope.py:578-606 | writes the mode once and reads it back at most 25 times, accepting STOP for SINGLE and passing over illegible replies; any other string only queries; returns the previous reply |
| `TriggerBench.LeCroyScope.ArmSingle` | src/lab_scopes/lecroy/scope.py:660-671 | CLEAR_SWEEPS, then SINGLE |
| `TriggerBench.LeCroyScope.ArmMasterSingle` | src/lab_scopes/lecroy/scope.py:720-748 | the same, and a warning exactly when the mode reply afterwards is neither SINGLE nor STOP |
| `TriggerBench.LeCroyScope.ReadInr` | src/lab_scopes/lecroy/scope.py:673-685 | the register as the reply shows it, and the register cleared whether or not the reply is legible |
| `TriggerBench.LeCroyScope.WaitForTriggerReady` | src/lab_scopes/lecroy/scope.py:687-706 | accumulates INR bits over polls until the ready bit is seen or the deadline falls |
| `TriggerBench.LeCroyScope.ArmSingleAndConfirm` | src/lab_scopes/lecroy/scope.py:708-718 | arming followed by the ready wait |
| `TriggerBench.LeCroyScope.WaitForStopThenComplete` | src/lab_scopes/lecroy/scope.py:750-774 | polls for STOP and then for a counted sweep |
| `ArmingFacts.SingleWrittenOnce` | src/lab_scopes/lecroy/scope.py:660-671 | an arm sends SINGLE exactly once, to this scope only, whatever the mode queries report, blank and garbled replies included, in whatever interleaving; the same for the master |
| `ArmingFacts.CompletionIsFresh` | src/lab_scopes/lecroy/scope.py:750-774 | after an arm, a True completion means a sweep ended after that arm's CLEAR_SWEEPS, for every interleaving of late arming and early edges, if CLEAR_SWEEPS takes effect |
| `ArmingFacts.ReadbackEndsAtAgreement` | src/lab_scopes/lecroy/scope.py:590-605 | the mode read-back only queries, and ends at the first agreeing answer or after its 25 tries, whatever the answers |
| `ArmingFacts.ModeWrittenOnce` | src/lab_scopes/lecroy/scope.py:578-606 | `set_trigger_mode` leaves exactly the given mode pending, written once, after two steps that change nothing and before at most 25 queries, the last of which agrees if there are fewer |
| `ArmingFacts.OtherStringOnlyQueries` | src/lab_scopes/lecroy/scope.py:589-590 | any other string only queries |
| `ArmingFacts.ReadyMask` | src/lab_scopes/lecroy/scope.py:46-52 | the ready bit of a register value is `value & 0x2000` |
| `ArmingFacts.FreshExactlyWhenClearWorks` | src/lab_scopes/lecroy/scope.py:660-671 | completions can be trusted on every bench if and only if the scope to be armed is not in STOP with a counter above 0 and CLEAR_SWEEPS ignored there |
| `ArmingFacts.StaleCompletion` | tests/test_lecroy_averaging_real.py:169-175 | the converse: for every scope on which CLEAR_SWEEPS has no effect (STOP, counter above 0, command ignored) there is a run that reports the old sweep as complete |
| `ArmingFacts.LatchKeepsRaise` | src/lab_scopes/lecroy/scope.py:46-52 | over any steps, the INR latch holds the ready bit if and only if it held it before or the engine got ready meanwhile |
| `ArmingFacts.ReadyExactlyWhenRaised` | src/lab_scopes/lecroy/scope.py:687-706 | the ready wait returns True if and only if some poll with a legible reply was preceded by a raise that no earlier query had consumed: no ready event is lost, none invented |
| `ShotProtocol.ConfirmedMeansArmed` | src/lab_scopes/lecroy/scope.py:708-718 | a slave that was settled when it was armed (no ready bit latched, engine neither arming nor running free, nothing pending but a stop) listens once confirmed, in every interleaving |
| `ReadyTrust.ConfirmedTooEarly` | src/lab_scopes/lecroy/scope.py:673-685 | for a slave in any state that is not settled, a bench on which it is confirmed while its engine is still arming |
| `ReadyTrust.TrustedExactlyWhenSettled` | src/lab_scopes/lecroy/scope.py:673-718 | a slave's confirmation means a listening engine on every bench if and only if, when it is armed, it is settled, no pulse is on its way to it, and the master is idle with nothing pending but a stop |
| `ReadyTrust.ConfirmedTooLate` | src/lab_scopes/lecroy/scope.py:673-718 | for every slave that a pulse can reach, a bench on which it is confirmed after it was hit and has stopped |
| `ReadyTrust.RetryConfirmedTooEarly` | src/lab_scopes/lecroy/scope.py:687-718 | arming again after a confirmation that timed out: from any settled state a run in which the second attempt starts from a clear latch and is confirmed while the engine is arming |
| `ShotProtocol.MasterArmedLast` | src/lab_scopes/lecroy/scope.py:720-748 | when the master's turn comes, every slave listens and no pulse is under way |
| `ShotProtocol.StepKeepsArming` | src/lab_scopes/lecroy/scope.py:660-718 | every step of every instrument keeps the invariant of the arming phase |
| `ShotProtocol.StepKeepsFiring` | src/lab_scopes/lecroy/scope.py:720-774 | every step keeps the invariant of the firing phase: the pulse of this shot is under way to a slave or captured by it, once |
| `ShotProtocol.CompleteMeansCaught` | src/lab_scopes/lecroy/scope.py:750-774 | a slave reported complete in the firing phase has captured this shot's pulse and stopped; so has a master whose CLEAR_SWEEPS takes effect |
| `ShotProtocol.DriverKeepsPhases` | src/lab_scopes/lecroy/scope.py:660-774 | on every bench the three calls of a shot move the phase invariants as the protocol needs: confirmed slave armed, master's arm opens the firing phase, completion means captured |
| `ShotProtocol.EverySweepFromItsPulse` | src/lab_scopes/lecroy/scope.py:660-774 | runs of any number of shots on any number of scopes, every interleaving, from a master at rest, settled slaves and no pulse on its way, with a slave or a CLEAR_SWEEPS that takes effect: after each confirmed shot every scope holds exactly the master pulses so far, in order and once, so sweep k is from pulse k; a broken-off shot adds at most its own pulse |
| `LoneScope.InStepExactlyWhenDependable` | src/lab_scopes/lecroy/scope.py:660-774 | from that rest, all runs of all lengths on all benches stay in step if and only if there is a slave or CLEAR_SWEEPS takes effect in STOP |
| `LoneScope.SecondShotIsStale` | tests/test_lecroy_averaging_real.py:169-175 | the failing run: a lone scope that ignores CLEAR_SWEEPS in STOP completes two shots with one sweep |
| `ShotProtocol.PulsesAreDistinct` | src/lab_scopes/lecroy/scope.py:720-748 | the history named there has t entries and entry k is pulse k |
| `HealthyRun.EveryShotConfirmed` | src/lab_scopes/lecroy/scope.py:660-774 | the protocol succeeds: from the same rest, with a slave or a CLEAR_SWEEPS that takes effect, on every bench where replies are legible and commands, readiness and pulses come within the polls of the wait that needs them (the master's pulse within the first slave's wait, if its CLEAR_SWEEPS may be ignored), every shot of every run is confirmed and leaves all scopes in step |
| `HealthyRun.PromptIsTimely` | src/lab_scopes/lecroy/scope.py:660-774 | there is such a bench for every number of scopes, cleared or not |
| `SweepWait.LeCroyScope.WaitForSweeps` | src/lab_scopes/lecroy/scope.py:436-478 | the wait with its self-restart, for every sequence of counter readings and deadlines: result, `gaaak_count`, readings used, and every setting command and counter query written, in order |
| `SweepWait.AttemptOnReadings` | src/lab_scopes/lecroy/scope.py:470-478 | over the readings: an attempt starts over if and only if the last polled count (0 if none) is above the reading after STOP, and otherwise returns that reading |
| `SweepWait.LastReadingReturned` | src/lab_scopes/lecroy/scope.py:470-478 | the count returned is the reading after the last STOP, and in time if and only if the last polled count reached NSweeps |
| `SweepWait.ScriptInOrder` | src/lab_scopes/lecroy/scope.py:437-472 | what one attempt writes, position by position: one CLEAR_SWEEPS before it waits and polls, one TRIG_MODE STOP after the last poll |
| `SweepWait.WrittenByAttempts` | src/lab_scopes/lecroy/scope.py:437-476 | a wait writes that script once per attempt, with as many counter queries as the attempt makes readings |
| `SweepWait.ClearLoopMeaning` | src/lab_scopes/lecroy/scope.py:446-452 | the loop after CLEAR_SWEEPS ends at the first of: its deadline, a reading that fell below the initial one or is 1, a counter not above 1 |
| `SweepWait.PollingReachesGoal` | src/lab_scopes/lecroy/scope.py:460-468 | polling ends at the first of: its deadline, a reading that reached NSweeps; it is timed out exactly if the last reading did not |
| `SweepWait.WaitIsSound` | src/lab_scopes/lecroy/scope.py:436-478 | with `timed_out` false the count is at least NSweeps; no count is below the last one polled in the final attempt |
| `SweepWait.RestartsAreFalls` | src/lab_scopes/lecroy/scope.py:474-476 | `gaaak_count` grows by exactly the number of attempts whose readings fell after STOP, each next attempt starting with the reading behind |
| `SweepWait.NewExactlyWhenDeadlineOutlastsClear` | src/lab_scopes/lecroy/scope.py:442-478 | given the initial count, the reading from which CLEAR_SWEEPS has effect and the clear loop's deadline: over all counters that fall nowhere else, every returned count is accumulated since that clear if and only if the loop, until then, is neither skipped (count at most 1) nor timed out; likewise for the counts reported in time |
| `SweepWait.SeenIsNew` | src/lab_scopes/lecroy/scope.py:446-452 | in a run: a count returned after the loop saw a fallen count or 1 is accumulated since the clear |
| `SweepWait.OldCountsReturned` | src/lab_scopes/lecroy/scope.py:446-452 | two runs that report the previous average as new: the clear loop times out; or it is skipped since the first reading is 1 |
| `ChannelProbe.LeCroyScope.ProbeChannelCount` | src/lab_scopes/lecroy/scope.py:204-226 | the number of contiguous accepted channels (4 if that is not 2, 4 or 8), for any initial error latch and for silent as well as answered rejections |
| `ChannelProbe.LeCroyScope.DetectChannelCount` | src/lab_scopes/lecroy/scope.py:166-202 | the reported count if it is 2, 4 or 8, else the probe |
| `ChannelProbe.LeCroyScope.DiscoverTraces` | src/lab_scopes/lecroy/scope.py:134-159 | the discovery loop after one *CLS computes `Discover` |
| `ChannelProbe.CountAndDefaultDiscoveryExact` | src/lab_scopes/lecroy/scope.py:120-159 | on a scope with n = 2, 4 or 8 channels the probe returns n and default discovery accepts exactly C1..Cn, name by name |
| `ChannelProbe.CountExactly` | src/lab_scopes/lecroy/scope.py:204-226 | on any scope the probe returns 2 or 8 if and only if exactly that many names are accepted before the first rejection, and otherwise 4 |
| `ChannelProbe.DiscoveryExactIffNoneBlamed` | src/lab_scopes/lecroy/scope.py:134-159 | for an arbitrary candidate list, discovery equals the accepted names if and only if no accepted name directly follows a rejected one that sent no reply |
| `ChannelProbe.PoliteRejectionsNeverBlame` | src/lab_scopes/lecroy/scope.py:134-159 | so it is exact whenever rejected names are answered |
| `ChannelProbe.ValidNameDropped` | src/lab_scopes/lecroy/scope.py:134-159 | a run in which C1, accepted by the scope, is dropped behind an unanswered rejection |
| `ChannelProbe.LeCroyScope.Initialise` | src/lab_scopes/lecroy/scope.py:115-159 | detection and default discovery together: exactly C1..Cn on a scope with n channels that reports n or nothing usable |
| `Vicp.HeaderRoundTrip` | src/lab_scopes/transports/lecroy_vicp.py:26-48 | decoding a frame's first eight bytes gives the payload length below 2^32, EOI flag and sequence number modulo 256 it was encoded from |
| `Vicp.FrameOnTheWire` | src/lab_scopes/transports/lecroy_vicp.py:26-32 | byte by byte: bits 7 and 3 of byte 0 and bit 0 for EOI, version 1, sequence modulo 256, a zero, the length with its highest byte first, the payload |
| `Vicp.PackedExactly` | src/lab_scopes/transports/lecroy_vicp.py:26-32 | packing fails exactly on payloads of 2^32 bytes or more |
| `Vicp.HeaderOnTheWire` | src/lab_scopes/transports/lecroy_vicp.py:35-48 | what a reader takes from eight bytes, by position, and that it refuses any other number |
| `Vicp.Reassembly` | src/lab_scopes/transports/lecroy_vicp.py:105-123 | every fragmentation with EOI on the last frame only, empty frames allowed, is reassembled and leaves the stream at the next message |
| `Vicp.MessagesRecovered` | src/lab_scopes/transports/lecroy_vicp.py:105-123 | k messages back to back are recovered in order |
| `Vicp.Transport.RecvExactInto` | src/lab_scopes/transports/lecroy_vicp.py:137-150 | exactly the next `size` bytes in the buffer under any partial reads, or an error: closed only if fewer bytes were left, timed out only if a call timed out |
| `Vicp.Transport.ReadRaw` | src/lab_scopes/transports/lecroy_vicp.py:105-123 | the first message of the stream and the stream left behind it, or an error with its cause |
| `Vicp.Transport.Join` | src/lab_scopes/transports/lecroy_vicp.py:118-123 | the copy into one buffer is the concatenation of the chunks |
| `Vicp.Transport.Send` | src/lab_scopes/transports/lecroy_vicp.py:125-132 | one EOI frame numbered modulo 256, and after a timeout a prefix of it; k successful sends append the k frames `Sends`, numbered from 0 |
| `Vicp.SendsGrow` | src/lab_scopes/transports/lecroy_vicp.py:125-132 | one more command is one more frame, with the next number |
| `Vicp.SendsAreParsed` | src/lab_scopes/transports/lecroy_vicp.py:125-132 | a peer recovers every command of any run of sends |
| `Vicp.SendsAreNumbered` | src/lab_scopes/transports/lecroy_vicp.py:125-132 | and reads consecutive sequence numbers modulo 256 in their headers |
| `Telnet.DecodeSplit` | src/lab_scopes/transports/telnetlib_receive_all.py:483-531 | decoding a stream in two pieces is decoding it once, including where decoding raises |
| `Telnet.ChunksAreOneDecode` | src/lab_scopes/transports/telnetlib_receive_all.py:483-531 | `process_rawq` over any split of the stream equals one decode of the whole |
| `Telnet.DecodeInvertsEscape` | src/lab_scopes/transports/telnetlib_receive_all.py:501-503 | doubled 0xFF becomes one: decoding inverts the sender's escaping of any data |
| `Telnet.PlainTextUnchanged` | src/lab_scopes/transports/telnetlib_receive_all.py:483-531 | a stream without 0xFF passes unchanged |
| `Telnet.CommandsDropped` | src/lab_scopes/transports/telnetlib_receive_all.py:483-531 | of data mixed with two-byte commands exactly the data is kept |
| `Telnet.DecodedUpToOption` | src/lab_scopes/transports/telnetlib_receive_all.py:514-525 | up to the first option byte, where the decoder raises with the bytes behind it unread |
| `Telnet.CrashesExactlyOnOption` | src/lab_scopes/transports/telnetlib_receive_all.py:514-525 | TypeError is raised if and only if the open command and the new bytes together hold an odd run of 0xFF, then 251..254, then one more byte |
| `Telnet.OptionByteCrashes` | src/lab_scopes/transports/telnetlib_receive_all.py:514-525 | the shortest such stream, IAC DO and any option |
| `Telnet.NoOptionsNoCrash` | src/lab_scopes/transports/telnetlib_receive_all.py:514-525 | in particular never without a 0xFF directly before 251..254 |
| `Telnet.Session.FillRawq` | src/lab_scopes/transports/telnetlib_receive_all.py:546-554 | one recv appended to the raw queue, the queue invariant and conservation kept |
| `Telnet.Session.RawqGetchar` | src/lab_scopes/transports/telnetlib_receive_all.py:533-544 | the next raw byte, the index/queue invariant kept, EOFError only on a closed and empty stream |
| `Telnet.Session.ProcessRawq` | src/lab_scopes/transports/telnetlib_receive_all.py:483-531 | moves the raw queue through the decoder; raises exactly when the stream received so far makes the decoder raise |
| `Telnet.Session.ReadVeryLazy` | src/lab_scopes/transports/telnetlib_receive_all.py:454-465 | all cooked text, EOFError only when there is none and never will be; text handed out plus text queued is conserved |
| `Telnet.Session.FillAndSearch` | src/lab_scopes/transports/telnetlib_receive_all.py:337-340 | the search restarted at `len(cookedq) - n` finds what a search from 0 finds |
| `Telnet.Session.ReadUntilWithPoll` | src/lab_scopes/transports/telnetlib_receive_all.py:307-353 | implements `Await` and `HandOut`: what is returned, what stays queued, and that text delivered plus queued equals text decoded |
| `Telnet.Session.ReadUntilWithSelect` | src/lab_scopes/transports/telnetlib_receive_all.py:354-388 | implements the same specification with `select` |
| `Telnet.ShortestPrefixReturned` | src/lab_scopes/transports/telnetlib_receive_all.py:307-388 | over any split of the input, quiet and interrupted polls: once the target stands in the text of the next m chunks, which decode and arrive before the deadline or with the poll that meets it, the shortest prefix of the text ending in the target is returned, whatever follows |
| `Telnet.FoundExactlyWhenArrived` | src/lab_scopes/transports/telnetlib_receive_all.py:307-388 | and the wait ends with the target if and only if there is such an m |
| `Telnet.NotFoundHandsOutAll` | src/lab_scopes/transports/telnetlib_receive_all.py:307-388 | if the target does not arrive and decoding does not raise, either reader returns all text of the chunks heard before the wait ended and leaves nothing queued; EOFError if and only if that text is empty and the peer was seen to close |
| `Telnet.RaisesExactlyWhenBurst` | src/lab_scopes/transports/telnetlib_receive_all.py:307-388 | TypeError if and only if an option byte is received in time and the target is not received before it |
| `Telnet.SplitAndPollerIrrelevant` | src/lab_scopes/transports/telnetlib_receive_all.py:307-388 | sessions sent the same bytes in different pieces, one polling and one selecting, return the same text if the target arrives in time in both, however far each has read |
| `Telnet.Session.DropQueues` | src/lab_scopes/transports/rigol_functions.py:47-49 | dropping the queues keeps the session valid, with an open IAC sequence left open |
| `Common.FindMeaning` | src/lab_scopes/transports/telnetlib_receive_all.py:318 | `bytes.find` yields the first occurrence, and none only if there is none |
| `Common.FindResume` | src/lab_scopes/transports/telnetlib_receive_all.py:337-340 | after a miss, restarting anywhere up to one match length before the old end loses no occurrence |
| `Wavedesc.Layout` | src/lab_scopes/lecroy/wavedesc.py:53 | the format has 62 fields and 346 bytes |
| `Wavedesc.DescriptorRoundTrips` | src/lab_scopes/lecroy/wavedesc.py:130-131 | unpack inverts pack on every fitting tuple and pack inverts unpack on all 346-byte strings, float bits included |
| `Wavedesc.PieceAt` | src/lab_scopes/lecroy/wavedesc.py:53 | field i of any unaligned format is cut from directly behind the fields before it |
| `WavedescFields.FormatAsWritten` | src/lab_scopes/lecroy/wavedesc.py:53 | the format is the format string, letter by letter |
| `WavedescFields.SignedMeaning` | src/lab_scopes/lecroy/wavedesc.py:53 | integers of one, two and four bytes are little-endian two's complement |
| `WavedescFields.CountFieldsAt` | src/lab_scopes/lecroy/wavedesc.py:22-53 | for every 346 bytes: comm_type is bytes 32..34, user_text 40..44, trigtime_array 48..52, ris_time_array 52..56, res_array1 56..60, wave_array_1 60..64, subarray_count 144..148 |
| `WavedescFields.ScaleFieldsAt` | src/lab_scopes/lecroy/wavedesc.py:22-53 | vertical_gain is bytes 156..160, vertical_offset 160..164, horiz_interval 176..180, horiz_offset 180..188 |
| `Wavedesc.SignedInverts` | src/lab_scopes/lecroy/wavedesc.py:239 | little-endian two's complement of any width, packed then unpacked |
| `Wavedesc.CounterReadable` | src/lab_scopes/lecroy/scope.py:617-629 | the shortcut reads bytes 163..167 of any response that has them |
| `Wavedesc.ShortcutAgreesWithDecode` | src/lab_scopes/lecroy/scope.py:617-629 | the counter read at byte 15 + 148 is `sweeps_per_acq` of the full decode, for every response long enough to decode |
| `SequenceMode.SegmentSampleCount` | src/lab_scopes/lecroy/sequence.py:49-72 | an accepted count has at least two segments, and the total is segments times a non-zero segment length |
| `SequenceMode.CountsOfDeclared` | src/lab_scopes/lecroy/sequence.py:35-72 | a descriptor declaring k >= 2 segments of n >= 1 samples of one or two bytes yields those counts |
| `SequenceMode.SegmentsJoin` | src/lab_scopes/lecroy/sequence.py:75-77 | splitting loses and reorders nothing: equal rows that joined are the flat array |
| `SequenceMode.SegmentElement` | src/lab_scopes/lecroy/sequence.py:75-77 | sample (i, j) is flat element i n + j |
| `SequenceMode.SplitJoined` | src/lab_scopes/lecroy/sequence.py:75-77 | equal segments laid end to end are recovered |
| `SequenceMode.SegmentsAreTheDataArray` | src/lab_scopes/lecroy/scope.py:540-555 | any successful acquisition: k equal segments whose concatenation is the whole data array, which ends where wave_array_1 says or, if that is negative, with the response |
| `SequenceMode.SampleOrigin` | src/lab_scopes/lecroy/scope.py:525-555 | sample (i, j) of any successful acquisition is the little-endian value at byte ndx0 + width (i n + j) of the response |
| `SequenceMode.TimeArrayFitsSegments` | src/lab_scopes/lecroy/scope.py:559-573 | after any successful acquisition `time_array` succeeds if and only if wave_array_1 is not negative, and then has each segment's length and steps by the interval |
| `SequenceMode.NegativeCountAcquired` | src/lab_scopes/lecroy/scope.py:525-573 | the failing descriptor: two segments, wave_array_1 of -2: acquired as two halves of all that follows, then `time_array` raises |
| `SequenceMode.TimeArrayOfOneSegment` | src/lab_scopes/lecroy/scope.py:564-573 | outside sequence mode the axis has one entry per byte or two bytes, halves cut off towards zero |
| `SequenceBytes.PlanFromBytes` | src/lab_scopes/lecroy/scope.py:540-555 | segments, sample width, samples per segment and place of the data, and whether a descriptor is accepted, from the response bytes alone |
| `SequenceBytes.AcquiredExactly` | src/lab_scopes/lecroy/scope.py:501-555 | an acquisition succeeds if and only if the response has a whole descriptor that declares segments and holds the samples it declares |
| `SequenceBytes.SampleFromBytes` | src/lab_scopes/lecroy/scope.py:525-555 | sample (i, j) of any success by the response bytes: width and position computed from bytes 47..79 |
| `SequenceBytes.VoltFromBytes` | src/lab_scopes/lecroy/scope.py:525-555 | each volt is the sample times the float at bytes 171..175 minus the one at 175..179 |
| `SequenceBytes.TimeFromBytes` | src/lab_scopes/lecroy/scope.py:559-573 | sample j is taken at the float at bytes 195..203 plus j times the one at 191..195 |
| `SequenceMode.ScalingCommutes` | src/lab_scopes/lecroy/scope.py:525-555 | the default `raw=False` gives the same segments, each sample times the gain minus the offset, and the same errors |
| `SequenceMode.AcquireInvertsLayout` | src/lab_scopes/lecroy/scope.py:501-555 | preamble, descriptor, four blocks of any length and the samples of k >= 2 equal segments laid out, then acquired: the same segments |
| `ShotArchive.WavedescScaling` | src/lab_scopes/io/lecroy_files.py:56-62 | a header decodes if and only if it has 346 bytes |
| `ShotArchive.ScalingFromBytes` | src/lab_scopes/io/lecroy_files.py:366-386 | gain, offset, spacing and start of a header by their bytes |
| `ShotArchive.ReadExactly` | src/lab_scopes/io/lecroy_files.py:313-363 | a shot can be read if and only if it is there, not skipped, and has samples and a header that decodes; and which error otherwise |
| `ShotArchive.TraceMeaning` | src/lab_scopes/io/lecroy_files.py:313-363 | a read shot is its samples times its own header's gain minus its offset, with that header's spacing and start |
| `ShotArchive.ReadChannelShots` | src/lab_scopes/io/lecroy_files.py:389-468 | the two passes with their early exits compute `ReadShots`, about which the rest is proved |
| `ShotArchive.FirstScalingMeaning` | src/lab_scopes/io/lecroy_files.py:426-441 | the scaling in force is that of the first requested shot the per-shot reader can read |
| `ShotArchive.RowWidthMeaning` | src/lab_scopes/io/lecroy_files.py:445-458 | the row width is the given one, else the length of the first requested shot with samples, whether or not its header decodes |
| `ShotArchive.NothingReadable` | src/lab_scopes/io/lecroy_files.py:442-464 | None is returned if and only if the per-shot reader fails on every requested shot |
| `ShotArchive.StackShape` | src/lab_scopes/io/lecroy_files.py:448-468 | the stack is rectangular, in request order, and its NaN rows are exactly the shots missing, skipped, without the channel or of another length |
| `ShotArchive.RefinesShotReader` | src/lab_scopes/io/lecroy_files.py:313-363 | with one shared scaling, wherever the per-shot reader succeeds with the realised width the row is its trace, on the same time axis |
| `ShotArchive.RowAgreesExactly` | src/lab_scopes/io/lecroy_files.py:394-402 | without it, volts, dt and t0 of a row are the shot's own trace if and only if dt and t0 are equal and so are gain and offset, or the samples are none or one repeated code that both scalings send to the same voltage |
| `ShotArchive.WrongVolts` | src/lab_scopes/io/lecroy_files.py:394-402 | a two-shot archive whose second row differs from its own trace |
| `ShotArchive.FilledWithoutHeader` | src/lab_scopes/io/lecroy_files.py:449-461 | a filled row the per-shot reader refuses is one whose own header is missing or does not decode, and no other |
| `ShotArchive.BatchesJoin` | src/lab_scopes/io/lecroy_files.py:389-468 | reading in batches: with the width given, joined stacks of two requests are the stack of the joined request |

## Left out

- Sockets, `select`, sleeps, timeout values and the timeout formula per megabyte: replaced by event lists.
- Floating-point rounding: volts and seconds are exact reals.
- Python's `int()` on block lengths with underscores, signs or spaces: such a length is read as 0.
- The shot loop: it lives in the calling program, not in the repository; `ShotProtocol` states the documented use (slaves confirmed, then the master, then completion on every scope).
- TriggerBench.LeCroyScope.ReadInr: the register is a set of bit numbers, so masking is membership and `|` is union; an illegible reply counts as no bits, as the source's ValueError branch does. An illegible mode reply names no mode; queries that fail altogether are not modelled.
- SweepWait.LeCroyScope.WaitForSweeps: its list of commands leaves out the TRIG_MODE? queries of `set_trigger_mode` and the channel in front of WAVEFORM?; a response too short to hold the counter counts as a lost link; the waveform stays in BYTE format afterwards, and no claim is made about restoring it.
- ChannelProbe.LeCroyScope.ProbeChannelCount: lost connections and CMR replies that are not numbers are not modelled; an unanswered TRACE? is.
- RigolRead.RigolDHO800.ReadChannel: starts from the outcomes of the state, depth and calibration queries; channel selection, the queries made only for metadata, and warnings are left out.
- Leftovers.CleanLine: a text query is any number of bytes read off the socket for a reply without '#'; what its caller makes of them is not joined to it.
- Telnet.Session.DropQueues: the queue reset at the head of `command` is proved on the session and not joined to `RigolDHO800`, whose block reads start from the socket events.
- Vicp.Transport.Send: the newline that `write` appends and the ASCII encoding of commands are left to the caller.
- Telnet writes, the option callback, subnegotiation data, `expect` and `interact`: the decoder never reaches the first three usefully, and the others are separate programs.
- A negative sample count or array dimension is taken as numpy takes it: the rest of the buffer, and whatever width fits.
- ShotArchive.ReadChannelShots: `expected_len` is a natural number; a negative one makes `np.full` raise. Opening and locking files, and datasets of other shapes, are not modelled.
- Wavedesc.DescriptorRoundTrips: floats are their bits; `generate_test_data` itself, names of units and enumerations, and trigger timestamps are left out.
- Acquisition outside sequence mode, display and status messages, calibration, what is in a screenshot, legacy shims, name tables and the other transports.
