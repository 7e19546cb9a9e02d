# Event pump and background lanes, modelled in Dafny

A verification model of the state machines behind the composition root of the `usagi` terminal
tool. Each source is read as a script of answers with a clock, each thread as atomic steps under
its lock; everything else follows the Rust code, branch by branch.

* **Terminal input** (`SgrMouse`, `SgrCompletion`, `TerminalScan`, `MouseRecovery`, `TypedReports`,
  `EventPump`, `Folding`, `TickDelay`). A lone Escape may be the head of an SGR mouse report (xterm
  Control Sequences, "Extended coordinates", mode 1006) that the terminal layer tore apart. The pump
  withholds what follows it until the text is a report or is disproved, across polls and frames.
  `SgrMouse` holds the incremental parser and what it accepts, `SgrCompletion` which texts can still
  become a report; `TerminalScan` the machine that withholds, as a function of a log of poll answers;
  `MouseRecovery` the proof that the machine is a one-pass rewrite of the raw stream, however the
  stream was cut; `TypedReports` which key events spell a report; `EventPump` the class with the
  source's own fields, loops and clock, proved to be that machine; `Folding` the proof that wheel
  bursts and motion runs lose nothing and what they come out as; `TickDelay` how late a tick can come.
* **Background lanes** (`Inventory`, `InventoryPump`, `InventoryRuns`, `InventoryRound`,
  `RefreshPump`, `PreviewPump`). Classes with the shared fields and one method per critical
  section; beside them a step relation in which render thread and worker interleave freely, and
  invariants of every run.
* **Exactly-once ownership** (`ChildReaper`, `ArtifactOpener`, `SpawnedChildren`, `BudgetCopy`).
  The backwards `swap_remove` sweep, bounded admission, release tokens while pids are reused, and
  a multi-file copy under one budget.

Where a promise does not hold of the code, the model keeps the code and states exactly when it
holds:

* A poll can end before its time: `EventPump.EmptyHandedEarly`, `EventPump.EmptyHandedEarlyHappens`.
* A tick can be late by every ignored event that comes while it is waited for, although the comment
  in `recover_mouse_report` speaks of a call's budget: `TickDelay.PauseIsBounded`,
  `TickDelay.LateTick`.
* An error during a fold drops the burst, although the comment on `coalesce_pointer` speaks of
  preserved input: `Folding.DroppedExactlyWhenFolding` and `Folding.BurstIsLostIff` say when,
  `Folding.ExactlyDroppedNotchesAreLost` how much.
* The parser's comment calls everything it waits for a valid unfinished prefix; some of it nothing
  can complete: `SgrCompletion.CompletableIff`. Rejection is not stable under extension either:
  `SgrCompletion.RejectionIsFinal`.
* A wake during a fetch is overwritten, although the module promises an immediate observation:
  `RefreshPump.WakeIsHonouredBetweenFetches`, `RefreshPump.LostWake`.
* Exits wait for a later round when the queue is full; watching the full list again after each
  round keeps them waiting: `InventoryRuns.RewatchingStarves`.
* The preview fence wraps: `PreviewPump.StaleSurfacesOnlyAfterWrap`. Release tokens rest on distinct
  identities: `SpawnedChildren.ProofStaysIff`.

`dafny verify dfyconfig.toml` checks the project.

## Model

| member | source | states |
|---|---|---|
| SgrMouse.MasksAreArithmetic | src/tui_input/sgr_mouse.rs:55-88 | the bit masks on the button byte equal the arithmetic used elsewhere, for every byte |
| SgrMouse.MouseModifiers | src/tui_input/sgr_mouse.rs:76-88 | accumulating over the table of three bits gives exactly the modifiers whose bit is set |
| SgrMouse.ModifiersAreIndependent | src/tui_input/sgr_mouse.rs:55-88 | modifier bits never decide the kind, kind bits never decide the modifiers, and together they are the whole byte |
| SgrMouse.CodeDecodes | src/tui_input/sgr_mouse.rs:55-88 | the parser finds the very kind and modifiers a code was chosen for: 0 to 2 are presses of left, middle, right under `M` and releases under `m`, 3 a release of the left, 32 to 34 drags, 35, 96 and 97 motion, 64 to 67 the wheel up, down, left, right, plus 4, 8 and 16 for Shift, Alt and Control |
| SgrMouse.DecodedIsEncoded | src/tui_input/sgr_mouse.rs:55-88 | conversely, a kind the parser finds in a byte is one the byte stands for |
| SgrMouse.ParseReport | src/tui_input/sgr_mouse.rs:7-53 | the loop with its early returns answers, for every text, what the field-wise reading of that text says: complete with its event, unfinished, or rejected |
| SgrMouse.JoinSplit | src/tui_input/sgr_mouse.rs:20 | splitting at separators loses nothing: joined again the fields are the text |
| SgrMouse.PrintedParses | src/tui_input/sgr_mouse.rs:39-53 | every report a terminal can print for a kind, modifiers and cell, under any of its codes and zero-padded to any width up to five, parses back to that kind, those modifiers and the zero-based cell |
| SgrMouse.AcceptedIsPrinted | src/tui_input/sgr_mouse.rs:7-53 | conversely, every accepted text is the printed form of some valid report with exactly that event |
| SgrMouse.AcceptedIffPrinted | src/tui_input/sgr_mouse.rs:7-53 | the accepted language is exactly the printed reports |
| SgrMouse.PrefixesWait | src/tui_input/sgr_mouse.rs:25-43 | every non-empty proper prefix of an accepted report is still waited for |
| SgrMouse.UnfinishedIsShort | src/tui_input/sgr_mouse.rs:18-43 | nothing that is waited for is longer than nineteen characters, so the lookahead bound of twenty never cuts an acceptable report |
| SgrCompletion.CompletableIff | src/tui_input/sgr_mouse.rs:7-53 | a text that is waited for can still become a report if and only if its button is empty or names a kind, a whole column is not zero, and the coordinate under way is not five zeros |
| SgrCompletion.RejectionIsFinal | src/tui_input/sgr_mouse.rs:20-46 | a rejected text has an extension that is waited for if and only if it is one or two good fields under way with a button over 255; no rejected text has an accepted extension |
| SgrCompletion.RejectionIsNotFinal | src/tui_input/sgr_mouse.rs:25-40 | both happen: `[<128` waits for nothing, and `[<300` is rejected while `[<300;` is waited for |
| TerminalScan.ItemsAreValid | src/tui_input.rs:377-402 | in every run, a recovered report is spelled by exactly the characters it replaced, behind an Escape or a released one |
| TerminalScan.RunWaits | src/tui_input.rs:345-404 | in every run, every cut of what is withheld is an unfinished report |
| TerminalScan.Conservation | src/tui_input.rs:207-246 | for ready, empty and failing polls in any order: what came out, each report expanded to the events it replaced, followed by what is withheld, is exactly what was read, in order |
| TerminalScan.ReleasedEscapePrecedesItsReport | src/tui_input.rs:359-370 | a report whose Escape was already released stands directly behind that Escape |
| TerminalScan.LookaheadIsBounded | src/tui_input.rs:345-357 | one call needs at most twenty polls after its Escape, whatever arrives |
| MouseRecovery.OneReportAt | src/tui_input/sgr_mouse.rs:7-53 | at most one accepted report starts at an Escape, so the reference rewrite is determined |
| MouseRecovery.NoReport | src/tui_input.rs:377-404 | no accepted report of any length starts at the Escape of a candidate that was disproved |
| MouseRecovery.CandidateFails | src/tui_input.rs:377-407 | a failed candidate hides no report: the reference rewrite leaves its events raw and goes on behind them |
| MouseRecovery.ReportFound | src/tui_input.rs:398-402 | the reference rewrite takes the very report the machine completes |
| MouseRecovery.ScannerIsRewrite | src/tui_input.rs:207-246 | on a source that is ready until it runs out, output plus what is held equals the one-pass rewrite of the stream |
| MouseRecovery.TimingIsInvisible | src/tui_input.rs:359-370 | quiet polls anywhere change neither which reports are recovered nor their order |
| MouseRecovery.AfterFailure | src/tui_input.rs:371-375 | a failing poll cuts the stream: what is recovered after it does not depend on what came before |
| MouseRecovery.EveryReportIsRecovered | src/tui_input.rs:336-408 | for ready, empty and failing polls in any order, the reports recovered are exactly those standing in the raw stream between failing polls, once and in order |
| MouseRecovery.TailArrives | src/tui_input.rs:345-404 | from any cut of a report, the rest of it arriving with any quiet polls completes that one report |
| MouseRecovery.SplitInvariance | src/tui_input.rs:345-404 | one report cut anywhere comes out as one mouse event, with the Escape before it if and only if a poll was quiet before the first tail character |
| TypedReports.TailCharIsTyped | src/tui_input.rs:383-398 | a key event adds a character to a report exactly if it is a plain press of it, or a press of `M` under Shift alone |
| TypedReports.TypedReportIsRecovered | src/tui_input.rs:336-408 | the keys that type a printed report behind an Escape, however they arrive, come out as the one mouse event it reports, with the Escape before it if and only if a poll was quiet before the first of them |
| TypedReports.ReadyReportIsRecovered | src/tui_input.rs:336-408 | in particular, all ready, they come out as that mouse event alone |
| TypedReports.RecoveredReportWasTyped | src/tui_input.rs:377-402 | in every run a recovered report was printed by a terminal, typed key by key behind a plain Escape, and reports what was printed |
| TypedReports.OtherEventEndsCandidate | src/tui_input.rs:384-407 | any other event, another kind, another modifier or no character, ends the candidate, and all that was held goes out with it |
| TypedReports.OnlyPlainEscapeOpens | src/tui_input.rs:229-245 | only a plain press of Escape opens a candidate |
| EventPump.EventSource.PollSource | src/tui_input.rs:410-420 | one answer of the script is used up and logged; on an exact source the clock moves by its scripted delay, or by the timeout if nothing comes in time |
| EventPump.OnlyTheLastAnswerSpeaks | src/tui_input.rs:207-246 | within a call only the answer that ends it makes anything come out |
| EventPump.EmptyHandedEarly | src/tui_input.rs:377-407 | a call returns nothing before its time if and only if it starts on a released Escape without a tail and meets a second Escape |
| EventPump.EmptyHandedEarlyHappens | src/tui_input.rs:359-381 | an Escape, a quiet poll and a second Escape lead there |
| EventPump.FailureIsLast | src/tui_input.rs:207-246 | a call meets at most one failing poll, and ends at it |
| EventPump.PollMass | src/tui_input.rs:207-246 | no call leaves more to deliver than it found and read |
| EventPump.JudgeEvent | src/tui_input.rs:377-404 | one lookahead event does to the candidate what the machine's step does: extended, replayed with or without a second Escape, or found |
| EventPump.PollForTail | src/tui_input.rs:345-357 | a lone Escape waits for its grace period only, anything longer for the rest of the call |
| EventPump.TakeAnswer | src/tui_input.rs:357-404 | one answer, quiet, failing or an event, does to the candidate what the machine's step does; a quiet one releases the Escape if and only if nothing follows it yet |
| EventPump.LookAhead | src/tui_input.rs:344-404 | the loop consumes the answers of one machine call and ends in its state with its output; on an exact source it stays within deadline or grace period, never gives up early on a quiet source, and releases a lone Escape at the instant its grace period ends, whatever the timeout |
| EventPump.EventPump.constructor | src/tui_input.rs:142-154 | a new pump holds nothing and schedules its first tick one interval ahead |
| EventPump.EventPump.InputIsConserved | src/tui_input.rs:207-246 | between any two calls, events handed on plus queued are the machine's output, and with what is withheld they account for every event read |
| EventPump.EventPump.RecoverMouseReport | src/tui_input.rs:336-408 | continuing a withheld candidate is one machine call; the result goes out, into the queue, or stays withheld, nothing else |
| EventPump.EventPump.Settle | src/tui_input.rs:405-407 | everything a lookahead found ends up in exactly one of the holding places |
| EventPump.EventPump.PollAfresh | src/tui_input.rs:220-245 | a call without queue or candidate is one machine call, also when it starts from a held second Escape; on an exact source it ends by its deadline, or thirty-two milliseconds after the instant at which its Escape arrives, which is when a lone Escape goes out |
| EventPump.EventPump.OpenCandidate | src/tui_input.rs:229-243 | opening a candidate is one machine call that ends, on an exact source, by the later of the poll deadline and thirty-two milliseconds after the start; an Escape that stays alone goes out after exactly thirty-two |
| EventPump.EventPump.PollTerminal | src/tui_input.rs:207-246 | a queued event first, in order; otherwise result, queue and withheld state of exactly one machine call; an error if and only if a poll of this call failed; on an exact source it ends by a deadline fixed before the call, at most its timeout and thirty-two milliseconds away, and a lone Escape goes out thirty-two milliseconds after it arrived |
| EventPump.EventPump.ContinueCandidate | src/tui_input.rs:211-219 | a candidate of an earlier call is carried on by one machine call within the timeout; its Escape, if it was alone, is out already |
| EventPump.Adapt | src/tui_input.rs:434-484 | ignored are exactly focus changes, the horizontal wheel and buttons other than the left; what folds is exactly motion and the vertical wheel, at its own cell; all else passes whole |
| EventPump.AdaptStands | src/tui_input.rs:434-484 | an adapted event stands for itself alone |
| EventPump.FoldStands | src/tui_input.rs:279-314 | folding keeps an event standing for its whole run of input: one notch per wheel event, the cell of the last |
| EventPump.FoldsWhatContinues | src/tui_input.rs:279-314 | what goes into a fold is exactly a notch the same way under a wheel result and motion at any cell under motion; it adds one notch and moves to its cell |
| EventPump.EventPump.PutBack | src/tui_input.rs:315-318 | an event read too far is next in line again, and nothing else moves |
| EventPump.EventPump.CoalescePointer | src/tui_input.rs:251-322 | the folded event stands for exactly the input it took; it stops at the limit, at the first ready event that does not continue it, which stays first in line, or when nothing is ready; it fails if and only if a poll of this call failed, and then drops exactly the burst |
| EventPump.EventPump.FoldNext | src/tui_input.rs:270-319 | one poll of a fold goes on over an ignored event, takes in one that continues it, and ends it otherwise, losing nothing but on an error |
| EventPump.TickKeepsPhase | src/tui_input.rs:421-425 | the schedule moves by whole intervals to the first slot after now and no further |
| EventPump.AdvanceTick | src/tui_input.rs:421-425 | the loop reaches that slot |
| EventPump.EventPump.TerminalEvent | src/tui_input.rs:171-178 | a turn ends with the first event that is not ignored, an error means a poll of this call failed and the other way round, and a quiet end lasts at most a timeout and a grace period per ignored event and once more |
| EventPump.EventPump.SkipIgnored | src/tui_input.rs:188-197 | polling goes on over ignored events, each time with the whole timeout, and stops at the first poll that gives anything else; on a plain script it lasts exactly as long as the script says |
| EventPump.EventPump.Next | src/tui_input.rs:170-205 | terminal before backend before tick; backend in order; a tick exactly when nothing that means anything comes and it is due or waited out, early only behind a second Escape, late only by the ignored events of the call; it moves the schedule past the awaited instant; every turn accounts for its input; it fails if and only if a poll failed, and loses a burst if and only if the first event ahead begins one that runs into a failing poll |
| Folding.FoldingConserves | src/tui_input.rs:251-322 | over any history with errors anywhere, results and dropped bursts, expanded, are the adapted input in order |
| Folding.ErrorFreeFoldingConserves | src/tui_input.rs:170-205 | while no poll of the source failed, the results of any pump alone are the adapted input in order |
| Folding.ExactlyDroppedNotchesAreLost | src/tui_input.rs:269-272 | wheel notches taken are notches delivered plus notches of dropped bursts |
| Folding.DroppedExactlyWhenFolding | src/tui_input.rs:269-278 | a fold loses its burst if and only if one of the polls it may still make fails and every poll before that gives an ignored event or one more of its kind |
| Folding.FirstEventIsFirst | src/tui_input.rs:171-178 | the event a turn begins with is what the first poll gives that is not an ignored event |
| Folding.BurstIsLostIff | src/tui_input.rs:170-322 | read off the script before the call: a burst is lost exactly by ignored events, then motion or a notch, then at most thirty more that fold or are ignored, then a failing answer |
| Folding.LostNotch | src/tui_input.rs:269-272 | it happens: one notch and a failing poll |
| Folding.BurstIsOneEvent | src/tui_input.rs:251-322 | a notch or motion followed by up to thirty-one more of its kind at any cells comes out of one turn as one event at the cell of the last, with one notch each; a longer burst is cut behind the thirty-second |
| Folding.PipelineConserves | src/tui_input.rs:170-246 | end to end, from events read to results, between any two calls of any pump |
| TickDelay.PauseIsBounded | src/tui_input.rs:187-198 | a plain script holds a waiting turn for at most one timeout, and one more for every ignored event |
| TickDelay.LateTick | src/tui_input.rs:187-204 | the bound is met: a tick due in one interval comes after as many intervals more as the focus changed meanwhile |
| InventoryPump.InventoryState.Watch | src/runtime/inventory_pump.rs:180-246 | the in-place loops replace the watch set as specified, and the wake flag is that of the specification |
| InventoryPump.InventoryState.GroupTerminals | src/runtime/inventory_pump.rs:183-197 | grouping within both bounds, every refusal counted |
| InventoryPump.InventoryState.KeepWatched | src/runtime/inventory_pump.rs:198-199 | scopes that left the set are dropped, all others stay as they were |
| InventoryPump.InventoryState.WatchOne | src/runtime/inventory_pump.rs:201-244 | one group of the new set: added, kept, or re-armed under a new generation |
| InventoryPump.InventoryState.BeginRound | src/runtime/inventory_pump.rs:251-276 | one job per due and free scope, none twice, none else, all marked in flight |
| InventoryPump.InventoryState.Apply | src/runtime/inventory_pump.rs:286-345 | fence, scope check, sweep or backoff, as one function of state, job and reply |
| InventoryPump.InventoryState.QueueExits | src/runtime/inventory_pump.rs:323-340 | the sweep keeps, queues or postpones each terminal in order |
| InventoryPump.InventoryState.Fail | src/runtime/inventory_pump.rs:349-359 | one scope is backed off, no other is touched |
| InventoryPump.InventoryState.TakeExited | src/runtime/inventory_pump.rs:363-366 | a bounded drain, oldest first, leaving the rest in order |
| InventoryPump.InventoryState.NextWait | src/runtime/inventory_pump.rs:371-378 | the wait is attained by a free scope and exceeds none's |
| Inventory.GroupedExactly | src/runtime/inventory_pump.rs:183-197 | each of the first thirty-two scopes of a list gets its own terminals, in order, up to sixty-four; every terminal is grouped or counted as refused |
| Inventory.WaitingIsExact | src/runtime/inventory_pump.rs:251-276 | no round before the announced time dispatches anything, and a round at it dispatches something if a scope is free |
| InventoryRuns.WatchEffect | src/runtime/inventory_pump.rs:180-246 | a scope whose list and epoch stay is not touched at all; every other one is free under a generation no job can hold |
| InventoryRuns.WatchEntry | src/runtime/inventory_pump.rs:201-244 | a new scope is due at once and free; a known one is due at once if a terminal arrived or the epoch changed, else when it was; the streak ends with the epoch only; the slot is kept exactly while neither changed |
| InventoryRuns.WatchesList | src/runtime/inventory_pump.rs:180-246 | after the call a watched scope tracks its own first sixty-four terminals of the list, and a scope that occurs but is not watched found thirty-two others |
| InventoryRuns.WakesExactly | src/runtime/inventory_pump.rs:200-245 | the worker is woken if and only if a scope left watched is new, has a terminal that was not tracked before, or lives on under another epoch |
| InventoryRuns.QuietWatchAddsNothing | src/runtime/inventory_pump.rs:177-179 | a call that does not wake it brings in no scope, moves no due time, and with no slot taken makes nothing dispatchable at any later time that was not so before |
| InventoryRuns.SweptSplits | src/runtime/inventory_pump.rs:323-344 | the sweep splits the list: still tracked plus queued is the old list, queued are only terminals whose first line is not live, the queue stays bounded |
| InventoryRuns.SweptReports | src/runtime/inventory_pump.rs:323-344 | a terminal whose first line is not live stays only behind a full queue; live and omitted ones always stay |
| InventoryRuns.ApplyFrame | src/runtime/inventory_pump.rs:286-359 | a completion touches its own scope only, and that only while current; it frees the slot and sets the rest that the streak asks for |
| InventoryRuns.ApplySplits | src/runtime/inventory_pump.rs:323-344 | per terminal, copies tracked before are copies tracked after plus copies newly queued, for any reply and any fence |
| InventoryRuns.ExitsExactly | src/runtime/inventory_pump.rs:305-344 | a current, correctly scoped reply with room in the queue reports a tracked terminal, and stops tracking it, if and only if its first line about it does not list it as live; without such a line it stays tracked whatever the room |
| InventoryRuns.ForeignLineFails | src/runtime/inventory_pump.rs:305-322 | no answer, or one line of another workspace, session or worktree, reports nothing, keeps the list and backs the scope off |
| InventoryRuns.ApplyCounts | src/runtime/inventory_pump.rs:286-344 | each completion is counted as fenced out, failed or observed, and postponed exits are those of the dead that stay tracked |
| InventoryRuns.ObservationsAreAccounted | src/runtime/inventory_pump.rs:270-275 | in every run, dispatched observations are those that are out and those that were completed |
| InventoryRuns.TwoRepliesReportAll | src/runtime/inventory_pump.rs:58-65 | two replies to one list of up to sixty-four, drained before each, report every terminal dead in both |
| InventoryRuns.TwoRoundsReportAll | src/runtime/inventory_pump.rs:286-345 | the same for two completions of one scope whose list nobody changed, whatever happens to the rest of the lane, the epoch and the generation in between |
| InventoryRuns.RewatchingStarves | src/runtime/inventory_pump.rs:216-228 | the limit: watching the full list again after each round makes every round of an all-dead list report the same first thirty-two and leaves the lane as it was |
| InventoryRuns.StarvingStarts | src/runtime/inventory_pump.rs:183-215 | the first watch of any list of a scope leads there |
| InventoryRuns.EveryRunKeeps | src/runtime/inventory_pump.rs:180-366 | bounds, fences, slots, rests and exit balance hold in every reachable state of every interleaving |
| InventoryRuns.Fencing | src/runtime/inventory_pump.rs:286-304 | at most one job that is out can complete a scope; a stale one changes a counter only; a matching generation alone implies scope and epoch |
| InventoryRuns.OneRequestPerScope | src/runtime/inventory_pump.rs:251-276 | a round never asks for a scope while an answer for it can still count |
| InventoryRuns.DispatchesAreSpaced | src/runtime/inventory_pump.rs:341-359 | dispatches of an unchanged scope are at least its rest apart |
| InventoryRuns.Rests | src/runtime/inventory_pump.rs:349-359 | the rests in milliseconds: 2000 after success, 500 doubled per failure, 8000 at most |
| InventoryRuns.StreakCounts | src/runtime/inventory_pump.rs:304-359 | in every run the failure count is the number of current failing replies since the last success, the last introduction and the last epoch change |
| InventoryRuns.LostTabKeepsDue | src/runtime/inventory_pump.rs:229-240 | when `watch` takes tabs from a scope in flight, the slot is free, the answer under way is fenced out, and due time and streak stay |
| InventoryRuns.OnlyDeadLinesExit | src/runtime/inventory_pump.rs:292-340 | an exit comes only from a current job, on a reply all of whose lines belong to its scope and whose first line about the tracked terminal does not list it as live |
| InventoryRuns.ExitsAreConserved | src/runtime/inventory_pump.rs:323-366 | in every run, exits observed are those drained followed by those queued, and a terminal exits no more often than watch lists brought it in |
| InventoryRound.RunRound | src/runtime/inventory_pump.rs:397-406 | one request per due scope, each completed with its own reply; every such scope is free again and rests from the round on, no other is touched |
| RefreshPump.NewClamps | src/runtime/refresh_pump.rs:77-83 | the interval comes out as the one of the window nearest to what was asked for |
| RefreshPump.DelayAtLeastFloor | src/runtime/refresh_pump.rs:89-97 | no delay is below the least of interval, base and cap |
| RefreshPump.DelayDoubles | src/runtime/refresh_pump.rs:89-97 | no failure rests for the interval, the first for the base under the cap, and each further one for twice as long up to the cap, for sixteen doublings |
| RefreshPump.BackoffGrows | src/runtime/refresh_pump.rs:89-97 | backing off starts at the base, never speeds up and stays under the cap |
| RefreshPump.RefreshState.Activate | src/runtime/refresh_pump.rs:164-171 | only a dormant lane changes |
| RefreshPump.RefreshState.Begin | src/runtime/refresh_pump.rs:175-181 | a fetch is allowed and counted if and only if the lane is due |
| RefreshPump.RefreshState.Complete | src/runtime/refresh_pump.rs:186-198 | the newest result replaces the old one, counted as coalesced, and the lane rests by its streak |
| RefreshPump.RefreshState.Wake | src/runtime/refresh_pump.rs:203-207 | the lane is due at once |
| RefreshPump.RefreshState.WaitFor | src/runtime/refresh_pump.rs:212-215 | the time to the due instant, never negative; a dormant lane parks for its fixed interval |
| RefreshPump.RefreshState.Take | src/runtime/refresh_pump.rs:218-220 | the buffered result leaves, once |
| RefreshPump.EveryRunKeeps | src/runtime/refresh_pump.rs:305-324 | every fetch is paid for by activation, a wake or a delay waited out, and every completion is accounted for, in every interleaving |
| RefreshPump.RateBound | src/runtime/refresh_pump.rs:305-324 | fetches are at most one, plus wakes, plus elapsed time over the least delay; a dormant lane fetches never |
| RefreshPump.NewestIsDrained | src/runtime/refresh_pump.rs:186-220 | completed is drained plus coalesced plus buffered, and a drain gives the newest completion |
| RefreshPump.WakeIsHonouredBetweenFetches | src/runtime/refresh_pump.rs:186-207 | in every run: the first look behind a wake begins a fetch if the wake fell between fetches; if it fell into one, that look begins a fetch only once the delay from the end of that fetch is over, unless the lane is woken again |
| RefreshPump.RestsAfterFetch | src/runtime/refresh_pump.rs:186-198 | in every run: after a fetch, while nobody wakes the lane, a look begins the next one if and only if the delay its streak asks for is over |
| RefreshPump.LostWake | src/runtime/refresh_pump.rs:186-207 | a run in which a wake is lost |
| RefreshPump.ActivationStarts | src/runtime/refresh_pump.rs:164-171 | in every run, the first look behind the activation of a dormant lane begins its first fetch |
| RefreshPump.RousedIsDue | src/runtime/refresh_pump.rs:164-207 | a wake, or the activation of a dormant lane, makes it due at once and ends the wait; activating an active lane changes nothing |
| RefreshPump.WakeLasts | src/runtime/refresh_pump.rs:259-274 | in every run a wake is not missed: it lasts until a wait has spent it |
| RefreshPump.WaitIsExact | src/runtime/refresh_pump.rs:212-215 | an active lane may begin when the wait is over and not before; a dormant one parks for 250 milliseconds and may not begin |
| PreviewPump.PreviewState.Request | src/runtime/preview_pump.rs:118-139 | the newest request replaces whatever waited or was complete |
| PreviewPump.PreviewState.Cancel | src/runtime/preview_pump.rs:141-146 | nothing waits, nothing is complete, and what runs is fenced out |
| PreviewPump.PreviewState.Take | src/runtime/preview_pump.rs:148-150 | the completion leaves, once; nothing else changes |
| PreviewPump.PreviewState.NextJob | src/runtime/preview_pump.rs:82-94 | a stopped worker ends without a job, else it takes the pending one |
| PreviewPump.PreviewState.Publish | src/runtime/preview_pump.rs:100-109 | a completion is put up only under the current generation and before the stop |
| PreviewPump.PreviewState.Stop | src/runtime/preview_pump.rs:153-160 | nothing waits and nothing is complete once the lane is told to stop |
| PreviewPump.FenceIsExact | src/runtime/preview_pump.rs:101-127 | the wrapping generation lets a job pass if and only if it was overtaken a multiple of 2^64 times |
| PreviewPump.EveryRunKeeps | src/runtime/preview_pump.rs:80-150 | pending is the newest request, a completion answers the newest, notices are in request order, in every interleaving |
| PreviewPump.TakenAnswersNewest | src/runtime/preview_pump.rs:95-150 | a taken completion answers the newest request with no cancellation since; for a payload the record of answers shows, under that request, an acceptance, then the fetch that gave it, then another acceptance |
| PreviewPump.CompletesAtMostOnce | src/runtime/preview_pump.rs:95-109 | each request completes at most once |
| PreviewPump.RequestWaits | src/runtime/preview_pump.rs:118-139 | in every run, until the worker wakes and while nothing overtakes it, what was requested last is pending under a count no earlier job had, and a waiting worker may wake |
| PreviewPump.WakeTakesRequest | src/runtime/preview_pump.rs:82-94 | the worker that wakes next is handed exactly that job |
| PreviewPump.RequestIsAnswered | src/runtime/preview_pump.rs:95-109 | a request that nobody overtakes is answered: its completion carries what was asked and the first refusal, the failed fetch, or the payload accepted twice |
| PreviewPump.AnswerIsTaken | src/runtime/preview_pump.rs:148-150 | the next taking returns it, unless a request, a cancellation or the stop comes first |
| PreviewPump.StoppedIsSilent | src/runtime/preview_pump.rs:153-160 | a dropped lane has nothing pending and nothing complete, ever after |
| PreviewPump.StaleSurfacesOnlyAfterWrap | src/runtime/preview_pump.rs:101-127 | an overtaken job surfaces if and only if it was overtaken by a multiple of 2^64 |
| ChildReaper.Reaper.SwapRemove | src/runtime/platform_child_reaper.rs:136 | the last element fills the gap |
| ChildReaper.Reaper.Visit | src/runtime/platform_child_reaper.rs:134-148 | one child is kept, kept without its sender, or removed; those in front stay in place, those behind keep their members |
| ChildReaper.Reaper.Sweep | src/runtime/platform_child_reaper.rs:126-151 | each tracked child is polled exactly once, exactly the unfinished ones stay, and results go out in sweep order |
| ChildReaper.Reaper.Admit | src/runtime/platform_child_reaper.rs:87-109 | the order of refusals; only an admitted child changes the set |
| ChildReaper.PassAnswersOnce | src/runtime/platform_child_reaper.rs:126-151 | a pass turns awaited completions into results one for one |
| ChildReaper.PassSays | src/runtime/platform_child_reaper.rs:24-30 | per child: success, failure or unconfirmed go to its observer as it exited or could not be read; exactly those stay that still run, and those that could not be read, without their observer |
| ChildReaper.EveryRunKeeps | src/runtime/platform_child_reaper.rs:123-157 | bound, balance of results, and what the worker may conclude, in every interleaving with admissions |
| ChildReaper.ExactlyOnce | src/runtime/platform_child_reaper.rs:80-148 | at most thirty-two children; at most one result each, so the capacity-one send never blocks; exactly one for an observed child that left |
| ChildReaper.EndsEmptyForGood | src/runtime/platform_child_reaper.rs:124-156 | the worker ends only over an empty set with no admission handle left, and then nothing can happen any more |
| ChildReaper.LastRoundEnds | src/runtime/platform_child_reaper.rs:124-156 | and it does end: a round is its last if and only if it found no handle left and leaves no child |
| ArtifactOpener.Serve | src/runtime/artifact_opener.rs:42-46 | the worker answers every request it receives, once and in order, as its own validations, copy and viewer lead to, and shows exactly those that pass both validations and the copy |
| ArtifactOpener.RunsAnswerAsOpen | src/runtime/artifact_opener.rs:96-117 | in every run, whatever falls in between, a received request gets the answer that its validations, copy and viewer lead to, and reaches the viewer if and only if both validations and the copy went through |
| ArtifactOpener.EveryRunKeeps | src/runtime/artifact_opener.rs:37-133 | every request is waiting, running or answered, exactly one of them, in every interleaving |
| ArtifactOpener.OneAnswerEach | src/runtime/artifact_opener.rs:37-133 | at most one answer each, a dispatch only after two acceptances, and no request unanswered once drop returned |
| ArtifactOpener.BusyIffOneWaits | src/runtime/artifact_opener.rs:70-80 | in every run a request is answered as busy if and only if one was waiting when it came; otherwise it waits itself |
| SpawnedChildren.Children.Observe | src/runtime/daemon.rs:380-411 | a token is handed out if and only if the proof was recorded |
| SpawnedChildren.Children.Release | src/runtime/daemon.rs:420-428 | only an entry of the same pid, start and process group is removed |
| SpawnedChildren.DropIsExact | src/runtime/daemon.rs:413-445 | dropping the newest token of a pid removes its proof, dropping an older one removes nothing |
| SpawnedChildren.EveryRunKeeps | src/runtime/daemon.rs:365-445 | the table is exactly the newest observation of each pid whose token is still held |
| SpawnedChildren.NothingLeaks | src/runtime/daemon.rs:369-379 | every entry belongs to a live token; all tokens dropped means an empty table |
| SpawnedChildren.ProofStaysIff | src/runtime/daemon.rs:380-451 | without distinct identities: until its pid is observed again, a proof stays if and only if no token has been dropped whose identity answers as the same child |
| SpawnedChildren.OlderTokenCanTakeProof | src/runtime/daemon.rs:413-451 | a run in which an older token takes a later proof along |
| BudgetCopy.Snapshot.CopyWithBudget | src/runtime/file_preview.rs:420-430 | a copy succeeds if and only if the whole file fits the budget, and then the budget shrinks by its length |
| BudgetCopy.Snapshot.CopyArtifactFile | src/runtime/file_preview.rs:390-418 | succeeds exactly for a regular, readable file of a new name that fits the budget both when it was checked and when it is read; a file that is none is reported as such, one that does not fit as too large |
| BudgetCopy.Snapshot.CopyAll | src/runtime/file_preview.rs:368-382 | the snapshot succeeds if and only if every planned file fits what the others left; copied plus remaining is 64 MiB also where it fails; a failure names the first file that did not fit |
| BudgetCopy.PlannedIsAll | src/runtime/file_preview.rs:370-372 | planned are the selected file, first, and every entry of another name, as often as it is listed |
| BudgetCopy.SnapshotIsWhole | src/runtime/file_preview.rs:368-382 | a snapshot that succeeded holds every planned file to its last byte, under distinct names and within the budget |

## Left out

- Real polling and clocks: `poll` and the `read` behind it are one scripted answer, so a read that fails after a ready poll is the answer that a failing poll gives. `Instant` and `Duration` are natural milliseconds without overflow. The claims about time are made of an exact source, whose clock moves only while it is polled, by the scripted delay of an answer or by the whole timeout; every other claim holds for a clock that jumps at any reading.
- EventPump.EmptyHandedEarly: no bound says that a tick is never early, because a second Escape behind a released one ends a wait; the condition is exact.
- InventoryRuns.QuietWatchAddsNothing: says nothing of a due time while a slot is taken, because losing a tab frees the slot without waking the worker.
- EventPump.EventPump.TerminalEvent: one method stands for both polling loops of `next`, which differ in their timeout only; `LookAhead`, `PollForTail`, `TakeAnswer`, `Settle`, `PollAfresh`, `ContinueCandidate`, `OpenCandidate`, `SkipIgnored`, `FoldNext` and `PutBack` are likewise pieces of `recover_mouse_report`, `poll_terminal` and `coalesce_pointer`.
- Adapter tables (key codes, the legacy control aliases, pointer phases beyond their being kept or ignored), and the effect of a runtime event.
- Saturating counters and generations of the inventory and refresh lanes are unbounded naturals; the wrapping generation of the preview lane is exact.
- The order of scopes in the inventory vector, and so of a round's jobs: the class keeps the vector, its specification reads it as a table. `TerminalRef::fences` is equality, and of an entry only its terminal and whether it is live are kept.
- InventoryRound.RunRound: runs with nobody else at the lock; interleavings with `watch` and drains between dispatch and completion are the subject of `InventoryRuns`.
- Threads, condition variables and poisoned locks: a critical section is one step. `SpawnedChildren.Children` shows what a poisoned table does, its runs assume none; a panic in a worker is not a step.
- The authority, the fetch, the viewer, `try_wait` and the probe are oracles; the `wait` after a successful `try_wait` is not part of the model.
- BudgetCopy starts where the directory is pinned and the entries are listed: path containment, symlinks, permissions, extensions and directory creation are not part of it.
- src/runtime/agent_tab_intent.rs, bootstrap.rs, clean.rs, cli.rs, systemd.rs, launchd.rs, clipboard.rs and the rest of daemon.rs and file_preview.rs: lifecycle wiring, process control and file-system work without a state machine of their own.
